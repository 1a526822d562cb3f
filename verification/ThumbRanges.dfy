/** Which values the low registers can hold.  A sign-extending instruction leaves
    a negative number where the machine has a word; nothing else does, and no run
    takes a register out of the reach of those. */
module ThumbRanges {
  import opened Options
  import opened ThumbWords
  import opened ThumbMachine
  import opened ThumbRuns

  /** r0 to r12 are words, or negative no further than `low`. */
  ghost predicate Ranged(s: State, low: int) {
    forall i :: 0 <= i < 13 ==> low <= s.r[i] < WORD
  }

  const LOWEST := -0x8000

  /** The instructions that store `Sign`'s result unmasked. */
  predicate SignExtending(h: nat) {
    || (h / 4096 == 5 && ((h / 512) % 8 == 3 || (h / 512) % 8 == 7))
    || (h / 256 == 0xb2 && (h / 64) % 4 < 2)
    || (h / 256 == 0xba && (h / 64) % 4 == 3)
  }

  /** Either the bound leaves room for a sign, or the instruction extends none. */
  ghost predicate Allowed(h: nat, low: int) {
    low == LOWEST || (low == 0 && !SignExtending(h))
  }

  lemma SignRange(value: nat, bits: nat)
    requires (bits == 8 && value < 0x100) || (bits == 16 && value < 0x1_0000)
    ensures LOWEST <= Sign(value, bits) < 0x8000
    ensures Sign(value, bits) < 0 <==> value >= Pow2(bits - 1)
  {
    Pow2Facts();
    assert Pow2(7) == 128 && Pow2(15) == 0x8000;
  }

  lemma {:induction false} DownRange(x: int, n: nat, low: int)
    requires low <= x < WORD && low <= 0
    ensures low <= Down(x, n) < WORD
  {
    if n > 0 {
      DownRange(x, n - 1, low);
    }
  }

  lemma ShiftRange(kind: nat, value: int, amount: nat, carry: bool, low: int)
    requires low <= value < WORD && low <= 0
    ensures low <= Shift(kind, value, amount, carry).0 < WORD
  {
    DownRange(value, amount, low);
    Pow2Facts();
    assert kind > 2 ==> Bitwise(Or, Down(value, amount % 32), Up(value, 32 - amount % 32), WIDTH) < Pow2(WIDTH);
  }

  lemma SetRanged(s: State, d: nat, value: int, low: int)
    requires Ranged(s, low) && d < 16 && (d < 13 ==> low <= value < WORD)
    ensures Ranged(Set(s, d, value), low)
  {
  }

  lemma ShiftImmediateRanged(s: State, h: nat, low: int)
    requires Ranged(s, low) && low <= 0
    ensures Ranged(ShiftImmediate(s, h), low)
  {
    var kind, field := (h / 2048) % 4, (h / 64) % 32;
    var amount := if kind != 0 && field == 0 then 32 else field;
    ShiftRange(kind, s.r[(h / 8) % 8], amount, s.f.c, low);
  }

  lemma DataProcessingRanged(s: State, op: nat, m: nat, d: nat, low: int)
    requires Ranged(s, low) && low <= 0 && op < 16 && m < 8 && d < 8
    ensures Ranged(DataProcessing(s, op, m, d), low)
  {
    var t := DataProcessing(s, op, m, d);
    assert forall i :: 0 <= i < 13 && i != d ==> t.r[i] == s.r[i];
    assert t.r[d] == s.r[d] || IsWord(t.r[d]);
  }

  lemma HighRegisterRanged(s: State, h: nat, pc: int, low: int)
    requires Ranged(s, low) && low <= 0
    ensures Ranged(HighRegister(s, h, pc), low)
  {
  }

  lemma SimpleRanged(s: State, h: nat, pc: int, low: int)
    requires Ranged(s, low) && low <= 0
    ensures Ranged(AddSubtract(s, h), low) && Ranged(Immediate(s, h), low) && Ranged(Address(s, h, pc), low)
    ensures Ranged(Branch(s, h, pc), low)
  {
  }

  lemma LoadRanged(cfg: Setup, s: State, d: nat, address: int, width: nat, low: int)
    requires Ranged(s, low) && low <= 0 && d < 16 && Width(width)
    ensures LoadInto(cfg, s, d, address, width).Went? ==> Ranged(LoadInto(cfg, s, d, address, width).value, low)
    ensures low == LOWEST && width < 4 && LoadSigned(cfg, s, d, address, width).Went? ==>
              Ranged(LoadSigned(cfg, s, d, address, width).value, low)
  {
    LoadKeeps(cfg, s, address, width, true);
    var loaded := Load(cfg, s, address, width, true);
    if loaded.Went? {
      if width < 4 {
        SignRange(loaded.value.1, 8 * width);
      }
    }
  }

  lemma StoreRanged(cfg: Setup, s: State, address: int, width: nat, value: int, low: int)
    requires Ranged(s, low) && Width(width)
    ensures Store(cfg, s, address, width, value).Went? ==> Ranged(Store(cfg, s, address, width, value).value, low)
  {
  }

  lemma TransferRanged(cfg: Setup, s: State, t: nat, address: int, width: nat, loading: bool, low: int)
    requires Ranged(s, low) && low <= 0 && t < 16 && Width(width)
    ensures Transfer(cfg, s, t, address, width, loading).Went? ==>
              Ranged(Transfer(cfg, s, t, address, width, loading).value, low)
  {
    LoadRanged(cfg, s, t, address, width, low);
    StoreRanged(cfg, s, address, width, s.r[t], low);
  }

  lemma {:induction false} MultipleRanged(cfg: Setup, s: State, list: nat, i: nat, address: int, loading: bool,
                                          low: int)
    requires Ranged(s, low) && low <= 0 && i <= 8
    ensures var moved := Multiple(cfg, s, list, i, address, loading); moved.Went? ==> Ranged(moved.value.0, low)
    decreases 8 - i
  {
    if i < 8 {
      if !BitOf(list, i) {
        MultipleRanged(cfg, s, list, i + 1, address, loading, low);
      } else {
        TransferRanged(cfg, s, i, address, 4, loading, low);
        var moved := Transfer(cfg, s, i, address, 4, loading);
        if moved.Went? {
          MultipleRanged(cfg, moved.value, list, i + 1, address + 4, loading, low);
        }
      }
    }
  }

  lemma {:induction false} LoadAllRanged(cfg: Setup, s: State, regs: seq<nat>, address: int, low: int)
    requires Ranged(s, low) && low <= 0 && forall k :: 0 <= k < |regs| ==> regs[k] < 16
    ensures var loaded := LoadAll(cfg, s, regs, address); loaded.Went? ==> Ranged(loaded.value, low)
    decreases regs
  {
    if regs != [] {
      LoadKeeps(cfg, s, address, 4, true);
      var loaded := Load(cfg, s, address, 4, true);
      if loaded.Went? {
        var value := if regs[0] == 15 then Even(loaded.value.1) else loaded.value.1;
        SetRanged(loaded.value.0, regs[0], value, low);
        LoadAllRanged(cfg, Set(loaded.value.0, regs[0], value), regs[1..], address + 4, low);
      }
    }
  }

  lemma RegisterAccessRanged(cfg: Setup, s: State, op: nat, t: nat, address: int, low: int)
    requires t < 16 && Ranged(s, low) && (low == LOWEST || (low == 0 && op < 7 && op != 3))
    ensures var moved := RegisterAccess(cfg, s, op, t, address); moved.Went? ==> Ranged(moved.value, low)
  {
    var width := if op == 0 || op == 4 then 4 else if op == 1 || op == 5 || op >= 7 then 2 else 1;
    LoadRanged(cfg, s, t, address, width, low);
    StoreRanged(cfg, s, address, width, s.r[t], low);
  }

  lemma PushRanged(cfg: Setup, s: State, h: nat, low: int)
    requires Ranged(s, low)
    ensures Push(cfg, s, h).Went? ==> Ranged(Push(cfg, s, h).value, low)
  {
    var regs := Listed(h % 256, 0, if (h / 256) % 2 == 1 then Some(14) else None);
    StoreAllKeeps(cfg, Set(s, 13, s.r[13] - 4 * |regs|), regs, s.r[13] - 4 * |regs|);
  }

  lemma PopRanged(cfg: Setup, s: State, h: nat, low: int)
    requires Ranged(s, low) && low <= 0
    ensures Pop(cfg, s, h).Went? ==> Ranged(Pop(cfg, s, h).value, low)
  {
    var regs := Listed(h % 256, 0, if (h / 256) % 2 == 1 then Some(15) else None);
    LoadAllRanged(cfg, s, regs, s.r[13], low);
  }

  lemma SwappedRange(value: int, op: nat)
    requires IsWord(value)
    ensures LOWEST <= Swapped(value, op) < WORD && (op < 2 ==> IsWord(Swapped(value, op)))
    ensures op >= 2 ==> (IsWord(Swapped(value, op)) <==> value % 0x100 < 0x80)
  {
    SignRange(ByteOf(value, 0) * 0x100 + ByteOf(value, 1), 16);
    Pow2Facts();
    assert Pow2(16) == 2 * Pow2(15);
  }

  lemma ReverseRanged(s: State, h: nat, low: int)
    requires Ranged(s, low) && (low == LOWEST || (low == 0 && (h / 64) % 4 != 3))
    ensures Reverse(s, h).Went? ==> Ranged(Reverse(s, h).value, low)
  {
    if IsWord(s.r[(h / 8) % 8]) {
      SwappedRange(s.r[(h / 8) % 8], (h / 64) % 4);
    }
  }

  lemma ExtendRanged(s: State, h: nat, low: int)
    requires Ranged(s, low) && (low == LOWEST || (low == 0 && (h / 64) % 4 >= 2))
    ensures Ranged(Extend(s, h), low)
  {
    var value := s.r[(h / 8) % 8];
    SignRange(value % 0x1_0000, 16);
    SignRange(value % 0x100, 8);
  }

  lemma MiscellaneousRanged(cfg: Setup, s: State, h: nat, low: int)
    requires Ranged(s, low) && Allowed(h, low) && h / 4096 == 11
    ensures Miscellaneous(cfg, s, h).Went? ==> Ranged(Miscellaneous(cfg, s, h).value.0, low)
  {
    PushRanged(cfg, s, h, low);
    PopRanged(cfg, s, h, low);
    if h / 256 == 0xb2 {
      ExtendRanged(s, h, low);
    } else if h / 256 == 0xba {
      ReverseRanged(s, h, low);
    }
  }

  lemma LoadStoreMultipleRanged(cfg: Setup, s: State, h: nat, low: int)
    requires Ranged(s, low) && low <= 0
    ensures LoadStoreMultiple(cfg, s, h).Went? ==> Ranged(LoadStoreMultiple(cfg, s, h).value, low)
  {
    MultipleRanged(cfg, s, h % 256, 0, s.r[(h / 256) % 8], (h / 2048) % 2 == 1, low);
  }

  lemma WideRanged(cfg: Setup, s: State, first: nat, second: nat, pc: int, low: int)
    requires Ranged(s, low) && low <= 0
    ensures Wide(cfg, s, first, second, pc).Went? ==> Ranged(Wide(cfg, s, first, second, pc).value, low)
  {
  }

  lemma ExecuteRanged(cfg: Setup, s: State, h: nat, pc: int, low: int)
    requires Ranged(s, low) && Allowed(h, low)
    ensures Execute(cfg, s, h, pc).Went? ==> Ranged(Execute(cfg, s, h, pc).value.0, low)
  {
    if Execute(cfg, s, h, pc).Went? {
      if RegistersOnly(h) {
        RegistersRanged(cfg, s, h, pc, low);
      } else if h / 4096 == 11 {
        MiscellaneousRanged(cfg, s, h, low);
      } else if h / 4096 == 12 {
        LoadStoreMultipleRanged(cfg, s, h, low);
      } else if h / 4096 < 10 {
        TransfersRanged(cfg, s, h, pc, low);
      } else {
        var second := Load(cfg, s, pc + 2, 2, false);
        LoadKeeps(cfg, s, pc + 2, 2, false);
        WideRanged(cfg, second.value.0, h, second.value.1, pc, low);
      }
    }
  }

  lemma RegistersRanged(cfg: Setup, s: State, h: nat, pc: int, low: int)
    requires Ranged(s, low) && low <= 0 && RegistersOnly(h) && Execute(cfg, s, h, pc).Went?
    ensures Ranged(Execute(cfg, s, h, pc).value.0, low)
  {
    if h / 8192 == 0 && h / 2048 != 3 {
      ShiftImmediateRanged(s, h, low);
    } else if h / 1024 == 0x10 {
      DataProcessingRanged(s, (h / 64) % 16, (h / 8) % 8, h % 8, low);
    } else if h / 1024 == 0x11 {
      HighRegisterRanged(s, h, pc, low);
    } else {
      SimpleRanged(s, h, pc, low);
    }
  }

  lemma RegisterOffsetIs(cfg: Setup, s: State, h: nat, op: nat, address: int)
    requires op == (h / 512) % 8 && address == (s.r[(h / 8) % 8] + s.r[(h / 64) % 8]) % WORD
    ensures RegisterOffset(cfg, s, h) == RegisterAccess(cfg, s, op, h % 8, address)
  {
  }

  lemma RegisterOffsetRanged(cfg: Setup, s: State, h: nat, op: nat, low: int)
    requires Ranged(s, low) && op == (h / 512) % 8 && (low == LOWEST || (low == 0 && op != 3 && op != 7))
    ensures var moved := RegisterOffset(cfg, s, h); moved.Went? ==> Ranged(moved.value, low)
  {
    var address := (s.r[(h / 8) % 8] + s.r[(h / 64) % 8]) % WORD;
    RegisterOffsetIs(cfg, s, h, op, address);
    RegisterAccessRanged(cfg, s, op, h % 8, address, low);
  }

  lemma OffsetsRanged(cfg: Setup, s: State, h: nat, low: int)
    requires Ranged(s, low) && low <= 0
    ensures var moved := ImmediateOffset(cfg, s, h); moved.Went? ==> Ranged(moved.value, low)
  {
    var width := if (h / 4096) % 2 == 1 then 1 else 4;
    var address := (s.r[(h / 8) % 8] + ((h / 64) % 32) * width) % WORD;
    TransferRanged(cfg, s, h % 8, address, width, (h / 2048) % 2 == 1, low);
  }

  lemma HalfwordsRanged(cfg: Setup, s: State, h: nat, low: int)
    requires Ranged(s, low) && low <= 0
    ensures var moved := Halfword(cfg, s, h); moved.Went? ==> Ranged(moved.value, low)
  {
    TransferRanged(cfg, s, h % 8, (s.r[(h / 8) % 8] + ((h / 64) % 32) * 2) % WORD, 2, (h / 2048) % 2 == 1, low);
  }

  lemma StackRelativeRanged(cfg: Setup, s: State, h: nat, low: int)
    requires Ranged(s, low) && low <= 0
    ensures var moved := StackRelative(cfg, s, h); moved.Went? ==> Ranged(moved.value, low)
  {
    TransferRanged(cfg, s, (h / 256) % 8, (s.r[13] + (h % 256) * 4) % WORD, 4, (h / 2048) % 2 == 1, low);
  }

  lemma TransfersRanged(cfg: Setup, s: State, h: nat, pc: int, low: int)
    requires Ranged(s, low) && Allowed(h, low) && MovesOne(h)
    ensures var moved := Transferred(cfg, s, h, pc); moved.Went? ==> Ranged(moved.value, low)
  {
    if h / 2048 == 9 {
      LoadRanged(cfg, s, (h / 256) % 8, (pc + 4) - (pc + 4) % 4 + (h % 256) * 4, 4, low);
    } else if h / 4096 == 5 {
      RegisterOffsetRanged(cfg, s, h, (h / 512) % 8, low);
    } else if h / 8192 == 3 {
      OffsetsRanged(cfg, s, h, low);
    } else if h / 4096 == 8 {
      HalfwordsRanged(cfg, s, h, low);
    } else {
      StackRelativeRanged(cfg, s, h, low);
    }
  }

  /** What the next step executes. */
  function Fetched(cfg: Setup, s: State): nat {
    var fetched := Load(cfg, s, s.r[15], 2, false);
    if fetched.Went? then fetched.value.1 else 0
  }

  lemma StepRanged(cfg: Setup, s: State, low: int)
    requires Ranged(s, low) && Allowed(Fetched(cfg, s), low)
    ensures Step(cfg, s).Went? ==> Ranged(Step(cfg, s).value.0, low)
  {
    if Step(cfg, s).Went? {
      SetRanged(s, 15, s.r[15] + 2, low);
      ExecuteRanged(cfg, Set(s, 15, s.r[15] + 2), Fetched(cfg, s), s.r[15], low);
    }
  }

  /** Any run keeps them between -32768 and the largest word: a sign never grows. */
  lemma RunKeepsRange(cfg: Setup, s: State, limit: nat, until: Option<int -> bool>)
    requires Ranged(s, LOWEST)
    ensures var end := Run(cfg, s, limit, until); end.Went? ==> Ranged(end.value, LOWEST)
  {
    var step := MachineOf(cfg);
    forall x: State | Ranged(x, LOWEST) && step(x).Went?
      ensures Ranged(step(x).value.0, LOWEST)
    {
      StepRanged(cfg, x, LOWEST);
    }
    AlwaysThroughout(step, s, limit, until, x => true);
    RunOfKeeps(step, s, limit, until, x => true, x => Ranged(x, LOWEST));
  }

  // ------------------------------------------------------------------
  // Exactly when a sign-extending instruction leaves a word

  lemma ExtendIsWord(s: State, h: nat)
    requires Ranged(s, 0) && (h / 64) % 4 < 2
    ensures Ranged(Extend(s, h), 0)
       <==> var value := s.r[(h / 8) % 8];
            if (h / 64) % 4 == 0 then value % 0x1_0000 < 0x8000 else value % 0x100 < 0x80
  {
    var value := s.r[(h / 8) % 8];
    SignRange(value % 0x1_0000, 16);
    SignRange(value % 0x100, 8);
    assert Pow2(7) == 128 && Pow2(15) == 0x8000;
    assert Extend(s, h).r[h % 8] < 0 ==> !Ranged(Extend(s, h), 0);
  }

  lemma LoadSignedIsWord(cfg: Setup, s: State, t: nat, address: int, width: nat)
    requires Ranged(s, 0) && t < 8 && (width == 1 || width == 2)
    requires Load(cfg, s, address, width, true).Went?
    ensures Ranged(LoadSigned(cfg, s, t, address, width).value, 0)
       <==> Load(cfg, s, address, width, true).value.1 < (if width == 1 then 0x80 else 0x8000)
  {
    LoadKeeps(cfg, s, address, width, true);
    SignRange(Load(cfg, s, address, width, true).value.1, 8 * width);
    assert Pow2(7) == 128 && Pow2(15) == 0x8000;
    assert LoadSigned(cfg, s, t, address, width).value.r[t] < 0 ==>
             !Ranged(LoadSigned(cfg, s, t, address, width).value, 0);
  }
}
