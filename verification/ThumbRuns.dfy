/** What every run keeps, and what one instruction undoes of another. */
module ThumbRuns {
  import opened Options
  import opened ThumbWords
  import opened ThumbMachine

  // ------------------------------------------------------------------
  // The trace and the memory, over every run

  /** A read or write entry is aligned, starts in a device window and fits its width. */
  ghost predicate Honest(cfg: Setup, a: Access) {
    a.Read? || a.Write? ==>
      && Width(a.width) && a.address % a.width == 0 && Device(cfg, a.address)
      && 0 <= a.value && a.value == Mask(a.value, a.width)
  }

  /** An address in no declared region. */
  ghost predicate Foreign(cfg: Setup, address: int) {
    !Inside(cfg, address, 1)
  }

  /** The trace only grew, by honest entries, and no byte outside the regions changed. */
  ghost predicate Kept(cfg: Setup, s: State, t: State) {
    && |s.accesses| <= |t.accesses| && t.accesses[..|s.accesses|] == s.accesses
    && (forall i :: |s.accesses| <= i < |t.accesses| ==> Honest(cfg, t.accesses[i]))
    && (forall a :: Foreign(cfg, a) ==> ByteAt(t.memory, a) == ByteAt(s.memory, a))
  }

  lemma KeptOnward(cfg: Setup, s: State, t: State, u: State)
    requires Kept(cfg, s, t) && Kept(cfg, t, u)
    ensures Kept(cfg, s, u)
  {
    assert u.accesses[..|s.accesses|] == u.accesses[..|t.accesses|][..|s.accesses|];
    assert forall i :: |s.accesses| <= i < |t.accesses| ==> u.accesses[i] == u.accesses[..|t.accesses|][i];
  }

  /** Only registers and flags changed. */
  lemma KeptBySame(cfg: Setup, s: State, t: State)
    requires t.memory == s.memory && t.accesses == s.accesses
    ensures Kept(cfg, s, t)
  {
  }

  lemma KeptFromSame(cfg: Setup, s: State, t: State, u: State)
    requires Kept(cfg, t, u) && t.memory == s.memory && t.accesses == s.accesses
    ensures Kept(cfg, s, u)
  {
  }

  lemma KeptByEntry(cfg: Setup, s: State, t: State, a: Access)
    requires t.memory == s.memory && t.accesses == s.accesses + [a] && Honest(cfg, a)
    ensures Kept(cfg, s, t)
  {
  }

  lemma {:induction false} PlacedAt(memory: Memory, address: int, width: nat, value: int, a: int)
    ensures a < address || a >= address + width
            ==> ByteAt(Placed(memory, address, width, value), a) == ByteAt(memory, a)
    ensures address <= a < address + width ==>
              ByteAt(Placed(memory, address, width, value), a) == Down(value, 8 * (a - address)) % 256
    decreases width
  {
    if width > 0 {
      PlacedAt(memory[address := value % 256], address + 1, width - 1, value / 256, a);
      if address < a < address + width {
        DownByte(value, 8 * (a - address - 1));
      }
    }
  }

  lemma DownByte(value: int, n: nat)
    ensures Down(value / 256, n) == Down(value, n + 8)
  {
    DownDown(value, 8, n, n + 8);
    DownIsFloor(value, 8);
    Pow2Facts();
  }

  lemma StoreKeeps(cfg: Setup, s: State, address: int, width: nat, value: int)
    requires Width(width)
    ensures var stored := Store(cfg, s, address, width, value);
            stored.Went? ==> Kept(cfg, s, stored.value) && stored.value.r == s.r && stored.value.f == s.f
    ensures Device(cfg, address) && address % width == 0 ==>
              var stored := Store(cfg, s, address, width, value);
              stored.Went? && stored.value.memory == s.memory
  {
    var stored := Store(cfg, s, address, width, value);
    if stored.Went? {
      if Device(cfg, address) {
        KeptByEntry(cfg, s, stored.value, Write(address, width, Mask(value, width)));
      } else {
        forall a | Foreign(cfg, a)
          ensures ByteAt(stored.value.memory, a) == ByteAt(s.memory, a)
        {
          if address <= a < address + width {
            RegionBytes(cfg, address, width, a);
          }
          PlacedAt(s.memory, address, width, Mask(value, width), a);
        }
      }
    }
  }

  lemma RegionBytes(cfg: Setup, address: int, width: nat, a: int)
    requires Inside(cfg, address, width) && address <= a < address + width
    ensures !Foreign(cfg, a)
  {
    var i :| 0 <= i < |cfg.regions| && cfg.regions[i].0 <= address
             && address + width <= cfg.regions[i].0 + cfg.regions[i].1;
  }

  lemma LoadKeeps(cfg: Setup, s: State, address: int, width: nat, record: bool)
    requires Width(width)
    ensures var loaded := Load(cfg, s, address, width, record);
            loaded.Went? ==> Kept(cfg, s, loaded.value.0)
                             && loaded.value.0.memory == s.memory && loaded.value.0.r == s.r
                             && loaded.value.0.f == s.f && loaded.value.1 == Mask(loaded.value.1, width)
  {
    var loaded := Load(cfg, s, address, width, record);
    if loaded.Went? {
      if Device(cfg, address) {
        MaskTwice(cfg.answer(address, width), width);
        if record {
          KeptByEntry(cfg, s, loaded.value.0, Read(address, width, loaded.value.1));
        }
      } else {
        BytesFit(s.memory, address, width);
      }
    }
  }

  lemma MaskTwice(value: int, width: nat)
    requires Width(width)
    ensures Mask(Mask(value, width), width) == Mask(value, width)
  {
  }

  lemma BytesFit(memory: Memory, address: int, width: nat)
    requires Width(width)
    ensures Bytes(memory, address, width) == Mask(Bytes(memory, address, width), width)
  {
    assert Bytes(memory, address + 4, 0) == 0;
    assert Bytes(memory, address + 1, 0) == 0;
    assert Bytes(memory, address + 2, 0) == 0;
    var b1 := Bytes(memory, address + 3, 1);
    assert 0 <= b1 < 256;
    assert Bytes(memory, address + 2, 2) == ByteAt(memory, address + 2) + 256 * b1;
    assert Bytes(memory, address + 1, 3) == ByteAt(memory, address + 1) + 256 * Bytes(memory, address + 2, 2);
  }

  lemma LoadIntoKeeps(cfg: Setup, s: State, d: nat, address: int, width: nat)
    requires d < 16 && Width(width)
    ensures LoadInto(cfg, s, d, address, width).Went? ==> Kept(cfg, s, LoadInto(cfg, s, d, address, width).value)
    ensures LoadSigned(cfg, s, d, address, width).Went? ==> Kept(cfg, s, LoadSigned(cfg, s, d, address, width).value)
  {
    LoadKeeps(cfg, s, address, width, true);
  }

  lemma TransferKeeps(cfg: Setup, s: State, t: nat, address: int, width: nat, loading: bool)
    requires t < 16 && Width(width)
    ensures Transfer(cfg, s, t, address, width, loading).Went? ==>
              Kept(cfg, s, Transfer(cfg, s, t, address, width, loading).value)
  {
    LoadIntoKeeps(cfg, s, t, address, width);
    StoreKeeps(cfg, s, address, width, s.r[t]);
  }

  lemma {:induction false} MultipleKeeps(cfg: Setup, s: State, list: nat, i: nat, address: int, loading: bool)
    requires i <= 8
    ensures var moved := Multiple(cfg, s, list, i, address, loading); moved.Went? ==> Kept(cfg, s, moved.value.0)
    decreases 8 - i
  {
    if i < 8 {
      if !BitOf(list, i) {
        MultipleKeeps(cfg, s, list, i + 1, address, loading);
      } else {
        var moved := Transfer(cfg, s, i, address, 4, loading);
        TransferKeeps(cfg, s, i, address, 4, loading);
        if moved.Went? {
          MultipleKeeps(cfg, moved.value, list, i + 1, address + 4, loading);
          var rest := Multiple(cfg, moved.value, list, i + 1, address + 4, loading);
          if rest.Went? {
            KeptOnward(cfg, s, moved.value, rest.value.0);
          }
        }
      }
    }
  }

  lemma {:induction false} StoreAllKeeps(cfg: Setup, s: State, regs: seq<nat>, address: int)
    requires forall k :: 0 <= k < |regs| ==> regs[k] < 16
    ensures var stored := StoreAll(cfg, s, regs, address);
            stored.Went? ==> Kept(cfg, s, stored.value) && stored.value.r == s.r
    decreases regs
  {
    if regs != [] {
      var stored := Store(cfg, s, address, 4, s.r[regs[0]]);
      StoreKeeps(cfg, s, address, 4, s.r[regs[0]]);
      if stored.Went? {
        StoreAllKeeps(cfg, stored.value, regs[1..], address + 4);
        var rest := StoreAll(cfg, stored.value, regs[1..], address + 4);
        if rest.Went? {
          KeptOnward(cfg, s, stored.value, rest.value);
        }
      }
    }
  }

  lemma {:induction false} LoadAllKeeps(cfg: Setup, s: State, regs: seq<nat>, address: int)
    requires forall k :: 0 <= k < |regs| ==> regs[k] < 16
    ensures var loaded := LoadAll(cfg, s, regs, address); loaded.Went? ==> Kept(cfg, s, loaded.value)
    decreases regs
  {
    if regs != [] {
      var loaded := Load(cfg, s, address, 4, true);
      LoadKeeps(cfg, s, address, 4, true);
      if loaded.Went? {
        var t := Set(loaded.value.0, regs[0], if regs[0] == 15 then Even(loaded.value.1) else loaded.value.1);
        KeptBySame(cfg, loaded.value.0, t);
        KeptOnward(cfg, s, loaded.value.0, t);
        LoadAllKeeps(cfg, t, regs[1..], address + 4);
        var rest := LoadAll(cfg, t, regs[1..], address + 4);
        if rest.Went? {
          KeptOnward(cfg, s, t, rest.value);
        }
      }
    }
  }

  lemma PushKeeps(cfg: Setup, s: State, h: nat)
    ensures Push(cfg, s, h).Went? ==> Kept(cfg, s, Push(cfg, s, h).value)
  {
    var regs := Listed(h % 256, 0, if (h / 256) % 2 == 1 then Some(14) else None);
    var t := Set(s, 13, s.r[13] - 4 * |regs|);
    KeptBySame(cfg, s, t);
    StoreAllKeeps(cfg, t, regs, s.r[13] - 4 * |regs|);
    if Push(cfg, s, h).Went? {
      KeptOnward(cfg, s, t, Push(cfg, s, h).value);
    }
  }

  lemma PopKeeps(cfg: Setup, s: State, h: nat)
    ensures Pop(cfg, s, h).Went? ==> Kept(cfg, s, Pop(cfg, s, h).value)
  {
    var regs := Listed(h % 256, 0, if (h / 256) % 2 == 1 then Some(15) else None);
    LoadAllKeeps(cfg, s, regs, s.r[13]);
    if Pop(cfg, s, h).Went? {
      var loaded := LoadAll(cfg, s, regs, s.r[13]).value;
      KeptBySame(cfg, loaded, Pop(cfg, s, h).value);
      KeptOnward(cfg, s, loaded, Pop(cfg, s, h).value);
    }
  }

  lemma WideKeeps(cfg: Setup, s: State, first: nat, second: nat, pc: int)
    ensures Wide(cfg, s, first, second, pc).Went? ==> Kept(cfg, s, Wide(cfg, s, first, second, pc).value)
  {
    var wide := Wide(cfg, s, first, second, pc);
    if wide.Went? {
      if wide.value.accesses == s.accesses {
        KeptBySame(cfg, s, wide.value);
      } else {
        KeptByEntry(cfg, s, wide.value, wide.value.accesses[|s.accesses|]);
      }
    }
  }

  lemma LoadStoreMultipleKeeps(cfg: Setup, s: State, h: nat)
    ensures LoadStoreMultiple(cfg, s, h).Went? ==> Kept(cfg, s, LoadStoreMultiple(cfg, s, h).value)
  {
    var n, list, loading := (h / 256) % 8, h % 256, (h / 2048) % 2 == 1;
    MultipleKeeps(cfg, s, list, 0, s.r[n], loading);
    var moved := Multiple(cfg, s, list, 0, s.r[n], loading);
    if moved.Went? {
      KeptBySame(cfg, moved.value.0, LoadStoreMultiple(cfg, s, h).value);
      KeptOnward(cfg, s, moved.value.0, LoadStoreMultiple(cfg, s, h).value);
    }
  }

  lemma MiscellaneousKeeps(cfg: Setup, s: State, h: nat)
    ensures Miscellaneous(cfg, s, h).Went? ==> Kept(cfg, s, Miscellaneous(cfg, s, h).value.0)
  {
    PushKeeps(cfg, s, h);
    PopKeeps(cfg, s, h);
    if Miscellaneous(cfg, s, h).Went? && h / 512 != 0x5a && h / 512 != 0x5e {
      KeptBySame(cfg, s, Miscellaneous(cfg, s, h).value.0);
    }
  }

  /** Instructions that touch only registers and flags. */
  predicate RegistersOnly(h: nat) {
    (h / 8192 == 0 || h / 8192 == 1 || h / 1024 == 0x10 || h / 1024 == 0x11 || h / 4096 == 10 || h / 4096 == 13
     || h / 2048 == 0x1c)
  }

  lemma RegistersOnlyKeep(cfg: Setup, s: State, h: nat, pc: int)
    requires RegistersOnly(h) && Execute(cfg, s, h, pc).Went?
    ensures Execute(cfg, s, h, pc).value.0.memory == s.memory
    ensures Execute(cfg, s, h, pc).value.0.accesses == s.accesses
  {
  }

  lemma ExecuteKeeps(cfg: Setup, s: State, h: nat, pc: int)
    ensures Execute(cfg, s, h, pc).Went? ==> Kept(cfg, s, Execute(cfg, s, h, pc).value.0)
  {
    if Execute(cfg, s, h, pc).Went? {
      if RegistersOnly(h) {
        RegistersOnlyKeep(cfg, s, h, pc);
        KeptBySame(cfg, s, Execute(cfg, s, h, pc).value.0);
      } else if h / 4096 == 11 {
        MiscellaneousKeeps(cfg, s, h);
      } else if h / 4096 == 12 {
        LoadStoreMultipleKeeps(cfg, s, h);
      } else if MovesOne(h) {
        TransfersKeep(cfg, s, h, pc);
      } else {
        var second := Load(cfg, s, pc + 2, 2, false);
        LoadKeeps(cfg, s, pc + 2, 2, false);
        WideKeeps(cfg, s, h, second.value.1, pc);
      }
    }
  }

  lemma OffsetsKeep(cfg: Setup, s: State, h: nat)
    ensures var moved := ImmediateOffset(cfg, s, h); moved.Went? ==> Kept(cfg, s, moved.value)
  {
    var width := if (h / 4096) % 2 == 1 then 1 else 4;
    TransferKeeps(cfg, s, h % 8, (s.r[(h / 8) % 8] + ((h / 64) % 32) * width) % WORD, width, (h / 2048) % 2 == 1);
  }

  lemma HalfwordsKeep(cfg: Setup, s: State, h: nat)
    ensures var moved := Halfword(cfg, s, h); moved.Went? ==> Kept(cfg, s, moved.value)
  {
    TransferKeeps(cfg, s, h % 8, (s.r[(h / 8) % 8] + ((h / 64) % 32) * 2) % WORD, 2, (h / 2048) % 2 == 1);
  }

  lemma StackRelativeKeeps(cfg: Setup, s: State, h: nat)
    ensures var moved := StackRelative(cfg, s, h); moved.Went? ==> Kept(cfg, s, moved.value)
  {
    TransferKeeps(cfg, s, (h / 256) % 8, (s.r[13] + (h % 256) * 4) % WORD, 4, (h / 2048) % 2 == 1);
  }

  lemma RegisterOffsetKeeps(cfg: Setup, s: State, h: nat)
    ensures var moved := RegisterOffset(cfg, s, h); moved.Went? ==> Kept(cfg, s, moved.value)
  {
    RegisterAccessKeeps(cfg, s, (h / 512) % 8, h % 8, (s.r[(h / 8) % 8] + s.r[(h / 64) % 8]) % WORD);
  }

  lemma TransfersKeep(cfg: Setup, s: State, h: nat, pc: int)
    requires MovesOne(h)
    ensures var moved := Transferred(cfg, s, h, pc); moved.Went? ==> Kept(cfg, s, moved.value)
  {
    if h / 2048 == 9 {
      LoadIntoKeeps(cfg, s, (h / 256) % 8, (pc + 4) - (pc + 4) % 4 + (h % 256) * 4, 4);
    } else if h / 4096 == 5 {
      RegisterOffsetKeeps(cfg, s, h);
    } else if h / 8192 == 3 {
      OffsetsKeep(cfg, s, h);
    } else if h / 4096 == 8 {
      HalfwordsKeep(cfg, s, h);
    } else {
      StackRelativeKeeps(cfg, s, h);
    }
  }

  lemma RegisterAccessKeeps(cfg: Setup, s: State, op: nat, t: nat, address: int)
    requires t < 16
    ensures var moved := RegisterAccess(cfg, s, op, t, address); moved.Went? ==> Kept(cfg, s, moved.value)
  {
    var width := if op == 0 || op == 4 then 4 else if op == 1 || op == 5 || op >= 7 then 2 else 1;
    LoadIntoKeeps(cfg, s, t, address, width);
    StoreKeeps(cfg, s, address, width, s.r[t]);
  }

  lemma StepExecutes(cfg: Setup, s: State, h: nat, pc: int)
    requires pc == s.r[15] && Load(cfg, s, pc, 2, false) == Went((s, h))
    ensures Step(cfg, s) == Execute(cfg, Set(s, 15, pc + 2), h, pc)
  {
  }

  lemma StepKeeps(cfg: Setup, s: State)
    ensures Step(cfg, s).Went? ==> Kept(cfg, s, Step(cfg, s).value.0)
  {
    var pc := s.r[15];
    LoadKeeps(cfg, s, pc, 2, false);
    var fetched := Load(cfg, s, pc, 2, false);
    if fetched.Went? {
      ExecuteKeeps(cfg, Set(s, 15, pc + 2), fetched.value.1, pc);
      if Step(cfg, s).Went? {
        KeptBySame(cfg, s, Set(s, 15, pc + 2));
        KeptOnward(cfg, s, Set(s, 15, pc + 2), Step(cfg, s).value.0);
      }
    }
  }

  /** Over every run the trace only grows, by honest entries, and no byte outside
      the declared regions changes. */
  lemma RunKeeps(cfg: Setup, s: State, limit: nat, until: Option<int -> bool>)
    ensures var end := Run(cfg, s, limit, until); end.Went? ==> Kept(cfg, s, end.value)
  {
    var step := MachineOf(cfg);
    forall x: State | Kept(cfg, s, x) && step(x).Went?
      ensures Kept(cfg, s, step(x).value.0)
    {
      StepKeeps(cfg, x);
      KeptOnward(cfg, s, x, step(x).value.0);
    }
    AlwaysThroughout(step, s, limit, until, x => true);
    RunOfKeeps(step, s, limit, until, x => true, x => Kept(cfg, s, x));
  }
}
