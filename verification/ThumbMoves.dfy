/** What executing each load and store does, by its halfword: which bytes, at which
    address, into or from which register. */
module ThumbMoves {
  import opened Options
  import opened ThumbWords
  import opened ThumbMachine
  import opened ThumbRuns
  import opened ThumbBits
  import opened ThumbStack
  import opened ThumbForms

  // ------------------------------------------------------------------
  // Memory and devices

  /** A window of devices has the address. */
  ghost predicate InWindow(cfg: Setup, address: int) {
    exists window :: window in cfg.devices && window.0 <= address < window.0 + window.1
  }

  /** A region has all the bytes. */
  ghost predicate InRegion(cfg: Setup, address: int, width: nat) {
    exists region :: region in cfg.regions && region.0 <= address && address + width <= region.0 + region.1
  }

  lemma WindowsAreDevices(cfg: Setup, address: int, width: nat)
    ensures InWindow(cfg, address) == Device(cfg, address)
    ensures InRegion(cfg, address, width) == Inside(cfg, address, width)
  {
    if window :| window in cfg.devices && window.0 <= address < window.0 + window.1 {
      var i :| 0 <= i < |cfg.devices| && cfg.devices[i] == window;
    }
    if region :| region in cfg.regions && region.0 <= address && address + width <= region.0 + region.1 {
      var i :| 0 <= i < |cfg.regions| && cfg.regions[i] == region;
    }
  }

  /** How many values so many bytes have. */
  function Range(width: nat): nat {
    if width == 1 then 0x100 else if width == 2 then 0x1_0000 else 0x1_0000_0000
  }

  /** The bytes in memory, the least significant first. */
  function LittleEndian(memory: Memory, address: int, width: nat): nat {
    var low := ByteAt(memory, address) + 0x100 * ByteAt(memory, address + 1);
    if width == 1 then ByteAt(memory, address)
    else if width == 2 then low
    else low + 0x1_0000 * ByteAt(memory, address + 2) + 0x100_0000 * ByteAt(memory, address + 3)
  }

  lemma BytesAreLittleEndian(memory: Memory, address: int, width: nat)
    requires Width(width)
    ensures Bytes(memory, address, width) == LittleEndian(memory, address, width)
  {
    assert Bytes(memory, address + width, 0) == 0;
    if width > 1 {
      assert Bytes(memory, address + width - 1, 1) == ByteAt(memory, address + width - 1);
    }
    if width == 4 {
      var b3: nat, b2: nat := ByteAt(memory, address + 3), ByteAt(memory, address + 2);
      assert Bytes(memory, address + 2, 2) == b2 + 0x100 * b3;
      assert Bytes(memory, address + 1, 3) == ByteAt(memory, address + 1) + 0x100 * (b2 + 0x100 * b3);
    }
  }

  /** A load: aligned, from a device or from memory, or refused. */
  lemma LoadExactly(cfg: Setup, s: State, address: int, width: nat, record: bool)
    requires Width(width)
    ensures var loaded, value := Load(cfg, s, address, width, record), cfg.answer(address, width) % Range(width);
            if address % width != 0 then loaded == Refused(Misaligned)
            else if InWindow(cfg, address) then
              loaded == Went((State(s.r, s.f, s.memory,
                                    if record then s.accesses + [Read(address, width, value)] else s.accesses), value))
            else if InRegion(cfg, address, width) then loaded == Went((s, LittleEndian(s.memory, address, width)))
            else loaded == Refused(OutsideMemory)
  {
    WindowsAreDevices(cfg, address, width);
    BytesAreLittleEndian(s.memory, address, width);
  }

  /** The bytes of a value, by their place. */
  function ByteNumber(value: int, i: int): int {
    if i == 0 then value % 0x100
    else if i == 1 then (value / 0x100) % 0x100
    else if i == 2 then (value / 0x1_0000) % 0x100
    else (value / 0x100_0000) % 0x100
  }

  /** The bytes of the value stand at the address, and all others are as they were. */
  ghost predicate Stored(before: Memory, after: Memory, address: int, width: nat, value: int) {
    forall a :: ByteAt(after, a) == if address <= a < address + width then ByteNumber(value, a - address)
                                    else ByteAt(before, a)
  }

  lemma DownByBytes(value: int, i: nat)
    requires i < 4
    ensures Down(value, 8 * i) % 256 == ByteNumber(value, i)
  {
    Pow2Facts();
    Pow2Adds(16, 8);
    DownIsFloor(value, 8 * i);
  }

  lemma MaskKeepsBytes(value: int, width: nat, i: nat)
    requires Width(width) && i < width
    ensures ByteNumber(Mask(value, width), i) == ByteNumber(value, i)
  {
    var range := Range(width);
    if i == 0 {
      LowByte(value, 1, range / 0x100, range);
    } else if i == 1 {
      LowByte(value, 0x100, range / 0x1_0000, range);
    } else if i == 2 {
      LowByte(value, 0x1_0000, 0x100, range);
    } else {
      LowByte(value, 0x100_0000, 1, range);
    }
  }

  /** Masking by a multiple of a byte leaves the byte. */
  lemma LowByte(value: int, place: nat, m: nat, range: nat)
    requires place > 0 && m > 0 && range == place * (0x100 * m)
    ensures range > 0 && (value % range / place) % 0x100 == (value / place) % 0x100
  {
    Positive(place, 0x100 * m);
    var q, rest := value / range, value % range;
    var high := rest / place;
    assert range * q == place * ((0x100 * m) * q) by { Associates(place, 0x100 * m, q); }
    DivUnique(value, place, (0x100 * m) * q + high, rest % place);
    assert (0x100 * m) * q == 0x100 * (m * q) by { Associates(0x100, m, q); }
    DivUnique(value / place, 0x100, m * q + high / 0x100, high % 0x100);
  }

  lemma Positive(a: nat, b: nat)
    requires a > 0 && b > 0
    ensures a * b > 0
  {
  }

  lemma Associates(a: int, b: int, c: int)
    ensures (a * b) * c == a * (b * c)
  {
  }

  /** A store: aligned, to a device or to memory, or refused; registers and flags stay. */
  lemma StoreExactly(cfg: Setup, s: State, address: int, width: nat, value: int)
    requires Width(width)
    ensures var stored := Store(cfg, s, address, width, value);
            if address % width != 0 then stored == Refused(Misaligned)
            else if InWindow(cfg, address) then
              stored == Went(State(s.r, s.f, s.memory, s.accesses + [Write(address, width, value % Range(width))]))
            else if InRegion(cfg, address, width) then
              && stored.Went? && stored.value == State(s.r, s.f, stored.value.memory, s.accesses)
              && Stored(s.memory, stored.value.memory, address, width, value)
            else stored == Refused(OutsideMemory)
  {
    WindowsAreDevices(cfg, address, width);
    forall a
      ensures ByteAt(Placed(s.memory, address, width, Mask(value, width)), a)
           == if address <= a < address + width then ByteNumber(value, a - address) else ByteAt(s.memory, a)
    {
      PlacedAt(s.memory, address, width, Mask(value, width), a);
      if address <= a < address + width {
        DownByBytes(Mask(value, width), a - address);
        MaskKeepsBytes(value, width, a - address);
      }
    }
  }

  // ------------------------------------------------------------------
  // One register

  /** The instruction loads so many bytes into a register, */
  ghost predicate LoadsAt(cfg: Setup, s: State, h: nat, pc: int, t: nat, address: int, width: nat)
    requires t < 16 && Width(width)
  {
    match Load(cfg, s, address, width, true)
    case Refused(why) => Execute(cfg, s, h, pc) == Refused(why)
    case Went(loaded) =>
      Execute(cfg, s, h, pc) == Went((State(s.r[t := loaded.1], s.f, s.memory, loaded.0.accesses), false))
  }

  /** loads them with their sign, */
  ghost predicate LoadsSignedAt(cfg: Setup, s: State, h: nat, pc: int, t: nat, address: int, width: nat)
    requires t < 16 && Width(width)
  {
    match Load(cfg, s, address, width, true)
    case Refused(why) => Execute(cfg, s, h, pc) == Refused(why)
    case Went(loaded) =>
      Execute(cfg, s, h, pc)
      == Went((State(s.r[t := Signed(loaded.1, Range(width) / 2)], s.f, s.memory, loaded.0.accesses), false))
  }

  /** or stores them. */
  ghost predicate StoresAt(cfg: Setup, s: State, h: nat, pc: int, t: nat, address: int, width: nat)
    requires t < 16 && Width(width)
  {
    match Store(cfg, s, address, width, s.r[t])
    case Refused(why) => Execute(cfg, s, h, pc) == Refused(why)
    case Went(after) => Execute(cfg, s, h, pc) == Went((after, false))
  }

  lemma TransferDecodes(cfg: Setup, s: State, h: nat, pc: int)
    requires h / 2048 == 9 || 10 <= h / 2048 < 20
    ensures MovesOne(h) && Execute(cfg, s, h, pc) == Quiet(Transferred(cfg, s, h, pc))
  {
    assert h / 8192 != 0 && h / 8192 != 1 && h / 1024 != 0x10 && h / 1024 != 0x11;
  }

  /** LDR from the literals: the program counter rounded down to a word. */
  lemma LoadsLiteral(cfg: Setup, s: State, h: nat, pc: int, t: nat, imm: nat)
    requires t < 8 && imm < 256 && h == 0x4800 + 0x100 * t + imm
    ensures LoadsAt(cfg, s, h, pc, t, pc + 4 - (pc + 4) % 4 + 4 * imm, 4)
  {
    DivUnique(h, 256, 0x48 + t, imm);
    DivUnique(h / 256, 8, 9, t);
    DivUnique(h, 2048, 9, 0x100 * t + imm);
    TransferDecodes(cfg, s, h, pc);
    LoadKeeps(cfg, s, pc + 4 - (pc + 4) % 4 + 4 * imm, 4, true);
  }

  lemma RegisterFields(h: nat, op: nat, m: nat, n: nat, t: nat)
    requires op < 8 && m < 8 && n < 8 && t < 8 && h == 0x5000 + 0x200 * op + 0x40 * m + 8 * n + t
    ensures h / 4096 == 5 && (h / 512) % 8 == op && (h / 64) % 8 == m && (h / 8) % 8 == n && h % 8 == t
    ensures 10 <= h / 2048 < 12
  {
    DivUnique(h, 8, 0xa00 + 0x40 * op + 8 * m + n, t);
    DivUnique(h / 8, 8, 0x140 + 8 * op + m, n);
    DivUnique(h, 64, 0x140 + 8 * op + m, 8 * n + t);
    DivUnique(h / 64, 8, 0x28 + op, m);
    DivUnique(h, 512, 0x28 + op, 0x40 * m + 8 * n + t);
    DivUnique(h / 512, 8, 5, op);
    DivUnique(h, 4096, 5, 0x200 * op + 0x40 * m + 8 * n + t);
  }

  lemma RegisterDecodes(cfg: Setup, s: State, h: nat, pc: int, op: nat, m: nat, n: nat, t: nat, address: int)
    requires op < 8 && m < 8 && n < 8 && t < 8 && h == 0x5000 + 0x200 * op + 0x40 * m + 8 * n + t
    requires address == (s.r[n] + s.r[m]) % 0x1_0000_0000
    ensures Execute(cfg, s, h, pc) == Quiet(RegisterAccess(cfg, s, op, t, address))
  {
    RegisterFields(h, op, m, n, t);
    TransferDecodes(cfg, s, h, pc);
  }

  /** STR, STRH, STRB, LDRSB, LDR, LDRH, LDRB and LDRSH at the sum of two registers. */
  lemma MovesAtSum(cfg: Setup, s: State, h: nat, pc: int, op: nat, m: nat, n: nat, t: nat, address: int)
    requires op < 8 && m < 8 && n < 8 && t < 8 && h == 0x5000 + 0x200 * op + 0x40 * m + 8 * n + t
    requires address == (s.r[n] + s.r[m]) % 0x1_0000_0000
    ensures match op
            case 0 => StoresAt(cfg, s, h, pc, t, address, 4)
            case 1 => StoresAt(cfg, s, h, pc, t, address, 2)
            case 2 => StoresAt(cfg, s, h, pc, t, address, 1)
            case 3 => LoadsSignedAt(cfg, s, h, pc, t, address, 1)
            case 4 => LoadsAt(cfg, s, h, pc, t, address, 4)
            case 5 => LoadsAt(cfg, s, h, pc, t, address, 2)
            case 6 => LoadsAt(cfg, s, h, pc, t, address, 1)
            case _ => LoadsSignedAt(cfg, s, h, pc, t, address, 2)
  {
    RegisterDecodes(cfg, s, h, pc, op, m, n, t, address);
    if op >= 3 {
      LoadFits(cfg, s, address, if op == 4 then 4 else if op == 5 || op == 7 then 2 else 1);
    }
  }

  /** What a load answers fits its width, and its sign is the sign of that many bits. */
  lemma LoadFits(cfg: Setup, s: State, address: int, width: nat)
    requires Width(width)
    ensures var loaded := Load(cfg, s, address, width, true);
            loaded.Went? ==>
              && loaded.value.0 == State(s.r, s.f, s.memory, loaded.value.0.accesses)
              && loaded.value.1 < Range(width)
              && (width < 4 ==> Sign(loaded.value.1, 8 * width) == Signed(loaded.value.1, Range(width) / 2))
  {
    LoadKeeps(cfg, s, address, width, true);
    var loaded := Load(cfg, s, address, width, true);
    if loaded.Went? && width < 4 {
      SignIsSigned(loaded.value.1, 8 * width, Range(width) / 2);
    }
  }

  lemma OffsetFields(h: nat, byte: nat, loading: nat, imm: nat, n: nat, t: nat)
    requires byte < 2 && loading < 2 && imm < 32 && n < 8 && t < 8
    requires h == 0x6000 + 0x1000 * byte + 0x800 * loading + 0x40 * imm + 8 * n + t
    ensures h / 8192 == 3 && (h / 4096) % 2 == byte && (h / 2048) % 2 == loading && (h / 64) % 32 == imm
    ensures (h / 8) % 8 == n && h % 8 == t && 12 <= h / 2048 < 16
  {
    DivUnique(h, 8, 0xc00 + 0x200 * byte + 0x100 * loading + 8 * imm + n, t);
    DivUnique(h / 8, 8, 0x180 + 0x40 * byte + 0x20 * loading + imm, n);
    DivUnique(h, 64, 0x180 + 0x40 * byte + 0x20 * loading + imm, 8 * n + t);
    DivUnique(h / 64, 32, 12 + 2 * byte + loading, imm);
    DivUnique(h, 2048, 12 + 2 * byte + loading, 0x40 * imm + 8 * n + t);
    DivUnique(h, 4096, 6 + byte, 0x800 * loading + 0x40 * imm + 8 * n + t);
    DivUnique(h, 8192, 3, 0x1000 * byte + 0x800 * loading + 0x40 * imm + 8 * n + t);
  }

  /** STR, LDR, STRB and LDRB at a register and an offset, of words or of bytes. */
  lemma MovesAtOffset(cfg: Setup, s: State, h: nat, pc: int, byte: nat, loading: nat, imm: nat, n: nat, t: nat,
                      address: int, width: nat)
    requires byte < 2 && loading < 2 && imm < 32 && n < 8 && t < 8
    requires h == 0x6000 + 0x1000 * byte + 0x800 * loading + 0x40 * imm + 8 * n + t
    requires width == (if byte == 1 then 1 else 4) && address == (s.r[n] + imm * width) % 0x1_0000_0000
    ensures if loading == 1 then LoadsAt(cfg, s, h, pc, t, address, width)
            else StoresAt(cfg, s, h, pc, t, address, width)
  {
    OffsetFields(h, byte, loading, imm, n, t);
    TransferDecodes(cfg, s, h, pc);
    LoadFits(cfg, s, address, width);
    assert Transferred(cfg, s, h, pc) == Transfer(cfg, s, t, address, width, loading == 1);
  }

  lemma HalfFields(h: nat, loading: nat, imm: nat, n: nat, t: nat)
    requires loading < 2 && imm < 32 && n < 8 && t < 8 && h == 0x8000 + 0x800 * loading + 0x40 * imm + 8 * n + t
    ensures h / 4096 == 8 && (h / 2048) % 2 == loading && (h / 64) % 32 == imm && (h / 8) % 8 == n && h % 8 == t
    ensures 16 <= h / 2048 < 18 && h / 8192 == 4
  {
    DivUnique(h, 8, 0x1000 + 0x100 * loading + 8 * imm + n, t);
    DivUnique(h / 8, 8, 0x200 + 0x20 * loading + imm, n);
    DivUnique(h, 64, 0x200 + 0x20 * loading + imm, 8 * n + t);
    DivUnique(h / 64, 32, 16 + loading, imm);
    DivUnique(h, 2048, 16 + loading, 0x40 * imm + 8 * n + t);
    DivUnique(h, 4096, 8, 0x800 * loading + 0x40 * imm + 8 * n + t);
  }

  /** STRH and LDRH at a register and an offset. */
  lemma MovesHalves(cfg: Setup, s: State, h: nat, pc: int, loading: nat, imm: nat, n: nat, t: nat, address: int)
    requires loading < 2 && imm < 32 && n < 8 && t < 8 && h == 0x8000 + 0x800 * loading + 0x40 * imm + 8 * n + t
    requires address == (s.r[n] + 2 * imm) % 0x1_0000_0000
    ensures if loading == 1 then LoadsAt(cfg, s, h, pc, t, address, 2) else StoresAt(cfg, s, h, pc, t, address, 2)
  {
    HalfFields(h, loading, imm, n, t);
    TransferDecodes(cfg, s, h, pc);
    LoadFits(cfg, s, address, 2);
    assert Transferred(cfg, s, h, pc) == Transfer(cfg, s, t, address, 2, loading == 1);
  }

  lemma StackFields(h: nat, loading: nat, t: nat, imm: nat)
    requires loading < 2 && t < 8 && imm < 256 && h == 0x9000 + 0x800 * loading + 0x100 * t + imm
    ensures h / 4096 == 9 && (h / 2048) % 2 == loading && (h / 256) % 8 == t && h % 256 == imm
    ensures 18 <= h / 2048 < 20 && h / 8192 == 4
  {
    DivUnique(h, 256, 0x90 + 8 * loading + t, imm);
    DivUnique(h / 256, 8, 18 + loading, t);
    DivUnique(h, 2048, 18 + loading, 0x100 * t + imm);
    DivUnique(h, 4096, 9, 0x800 * loading + 0x100 * t + imm);
  }

  /** STR and LDR at the stack pointer and an offset. */
  lemma MovesOnStack(cfg: Setup, s: State, h: nat, pc: int, loading: nat, t: nat, imm: nat, address: int)
    requires loading < 2 && t < 8 && imm < 256 && h == 0x9000 + 0x800 * loading + 0x100 * t + imm
    requires address == (s.r[13] + 4 * imm) % 0x1_0000_0000
    ensures if loading == 1 then LoadsAt(cfg, s, h, pc, t, address, 4) else StoresAt(cfg, s, h, pc, t, address, 4)
  {
    StackFields(h, loading, t, imm);
    TransferDecodes(cfg, s, h, pc);
    LoadFits(cfg, s, address, 4);
    assert Transferred(cfg, s, h, pc) == Transfer(cfg, s, t, address, 4, loading == 1);
  }

  // ------------------------------------------------------------------
  // Several registers

  /** The low registers of a list. */
  ghost function Low(list: nat): seq<nat> {
    Listed(list, 0, None)
  }

  /** They are those whose bits are set, the lowest first. */
  lemma LowExactly(list: nat)
    ensures forall d: nat :: d in Low(list) <==> d < 8 && (list / Pow2(d)) % 2 == 1
    ensures Ascending(Low(list))
  {
    forall d: nat
      ensures d in Low(list) <==> d < 8 && (list / Pow2(d)) % 2 == 1
    {
      ListedLow(list, 0);
      DownIsFloor(list, d);
    }
    ListedAscends(list, 0);
  }

  ghost predicate Ascending(regs: seq<nat>) {
    forall j, k :: 0 <= j < k < |regs| ==> regs[j] < regs[k]
  }

  lemma {:induction false} ListedAscends(list: nat, i: nat)
    requires i <= 8
    ensures Ascending(Listed(list, i, None))
    decreases 8 - i
  {
    if i < 8 {
      ListedAscends(list, i + 1);
      ListedLow(list, i + 1);
      var regs, rest := Listed(list, i, None), Listed(list, i + 1, None);
      assert regs == if BitOf(list, i) then [i] + rest else rest;
      forall j, k | 0 <= j < k < |regs|
        ensures regs[j] < regs[k]
      {
        if BitOf(list, i) {
          assert regs[k] == rest[k - 1] && rest[k - 1] in rest;
          assert j > 0 ==> regs[j] == rest[j - 1] && rest[j - 1] < rest[k - 1];
        } else {
          assert rest[j] < rest[k];
        }
      }
    }
  }

  /** STM and LDM go through the list as PUSH and POP do. */
  lemma {:induction false} MultipleStores(cfg: Setup, s: State, list: nat, i: nat, address: int)
    requires i <= 8
    ensures var regs := Listed(list, i, None);
            Multiple(cfg, s, list, i, address, false)
            == match StoreAll(cfg, s, regs, address)
               case Refused(why) => Refused(why)
               case Went(t) => Went((t, address + 4 * |regs|))
    decreases 8 - i
  {
    if i < 8 {
      if BitOf(list, i) {
        var stored := Store(cfg, s, address, 4, s.r[i]);
        if stored.Went? {
          MultipleStores(cfg, stored.value, list, i + 1, address + 4);
        }
      } else {
        MultipleStores(cfg, s, list, i + 1, address);
      }
    }
  }

  lemma {:induction false} MultipleLoads(cfg: Setup, s: State, list: nat, i: nat, address: int)
    requires i <= 8
    ensures var regs := Listed(list, i, None);
            Multiple(cfg, s, list, i, address, true)
            == match LoadAll(cfg, s, regs, address)
               case Refused(why) => Refused(why)
               case Went(t) => Went((t, address + 4 * |regs|))
    decreases 8 - i
  {
    if i < 8 {
      if BitOf(list, i) {
        var loaded := LoadInto(cfg, s, i, address, 4);
        assert loaded == LoadListed(cfg, s, i, address);
        if loaded.Went? {
          MultipleLoads(cfg, loaded.value, list, i + 1, address + 4);
        }
      } else {
        MultipleLoads(cfg, s, list, i + 1, address);
      }
    }
  }

  lemma MultipleFields(h: nat, loading: nat, n: nat, list: nat)
    requires loading < 2 && n < 8 && list < 256 && h == 0xc000 + 0x800 * loading + 0x100 * n + list
    ensures h / 4096 == 12 && (h / 2048) % 2 == loading && (h / 256) % 8 == n && h % 256 == list
    ensures h / 2048 == 24 + loading
  {
    DivUnique(h, 256, 0xc0 + 8 * loading + n, list);
    DivUnique(h / 256, 8, 24 + loading, n);
    DivUnique(h, 2048, 24 + loading, 0x100 * n + list);
    DivUnique(h, 4096, 12, 0x800 * loading + 0x100 * n + list);
  }

  lemma MultipleDecodes(cfg: Setup, s: State, h: nat, pc: int)
    requires h / 2048 == 24 || h / 2048 == 25
    ensures Execute(cfg, s, h, pc) == Quiet(LoadStoreMultiple(cfg, s, h))
  {
    assert h / 4096 == 12 && h / 8192 == 6 && h / 1024 >= 0x30 && !MovesOne(h);
  }

  /** STM: the listed registers from the base up, and the base behind them. */
  lemma StoresMultiple(cfg: Setup, s: State, h: nat, pc: int, n: nat, list: nat)
    requires n < 8 && list < 256 && h == 0xc000 + 0x100 * n + list
    ensures forall d :: d in Low(list) ==> d < 16
    ensures match StoreAll(cfg, s, Low(list), s.r[n])
            case Refused(why) => Execute(cfg, s, h, pc) == Refused(why)
            case Went(t) =>
              Execute(cfg, s, h, pc)
              == Went((t.(r := t.r[n := (s.r[n] + 4 * |Low(list)|) % 0x1_0000_0000]), false))
  {
    MultipleFields(h, 0, n, list);
    MultipleDecodes(cfg, s, h, pc);
    MultipleStores(cfg, s, list, 0, s.r[n]);
    assert Multiple(cfg, s, list, 0, s.r[n], false) ==
           match StoreAll(cfg, s, Low(list), s.r[n])
           case Refused(why) => Refused(why)
           case Went(t) => Went((t, s.r[n] + 4 * |Low(list)|));
  }

  /** LDM: the same, and the base only where it is not loaded itself. */
  lemma LoadsMultiple(cfg: Setup, s: State, h: nat, pc: int, n: nat, list: nat)
    requires n < 8 && list < 256 && h == 0xc800 + 0x100 * n + list
    ensures forall d :: d in Low(list) ==> d < 16
    ensures match LoadAll(cfg, s, Low(list), s.r[n])
            case Refused(why) => Execute(cfg, s, h, pc) == Refused(why)
            case Went(t) =>
              var behind := (s.r[n] + 4 * |Low(list)|) % 0x1_0000_0000;
              Execute(cfg, s, h, pc) == Went((if n in Low(list) then t else t.(r := t.r[n := behind]), false))
  {
    MultipleFields(h, 1, n, list);
    MultipleDecodes(cfg, s, h, pc);
    MultipleLoads(cfg, s, list, 0, s.r[n]);
    ListedLow(list, 0);
  }

  /** The registers of a PUSH or a POP: the listed ones, and perhaps one more. */
  ghost function WithLast(list: nat, more: bool, last: nat): seq<nat> {
    Low(list) + if more then [last] else []
  }

  lemma ListedWith(list: nat, more: bool, last: nat)
    requires last < 16
    ensures Listed(list, 0, if more then Some(last) else None) == WithLast(list, more, last)
  {
    if more {
      ListedLast(list, 0, last);
    }
  }

  lemma StackListFields(h: nat, popping: nat, more: nat, list: nat)
    requires popping < 2 && more < 2 && list < 256 && h == 0xb400 + 0x800 * popping + 0x100 * more + list
    ensures h % 256 == list && (h / 256) % 2 == more && h / 512 == 0x5a + 4 * popping
    ensures h / 256 == 0xb4 + 8 * popping + more && h / 4096 == 11
  {
    DivUnique(h, 256, 0xb4 + 8 * popping + more, list);
    DivUnique(h, 512, 0x5a + 4 * popping, 0x100 * more + list);
    DivUnique(h, 4096, 11, 0x400 + 0x800 * popping + 0x100 * more + list);
  }

  lemma PushIs(cfg: Setup, s: State, h: nat, regs: seq<nat>)
    requires regs == Listed(h % 256, 0, if (h / 256) % 2 == 1 then Some(14) else None)
    ensures Push(cfg, s, h) == PushAll(cfg, s, regs)
  {
  }

  lemma PopIs(cfg: Setup, s: State, h: nat, regs: seq<nat>)
    requires regs == Listed(h % 256, 0, if (h / 256) % 2 == 1 then Some(15) else None)
    ensures Pop(cfg, s, h) == PopAll(cfg, s, regs)
  {
  }

  /** A whole instruction is one of the miscellaneous group. */
  lemma StackDecodesTo(cfg: Setup, s: State, h: nat, pc: int)
    ensures h / 512 == 0x5a ==> Execute(cfg, s, h, pc) == Quiet(Push(cfg, s, h))
    ensures h / 512 == 0x5e ==> Execute(cfg, s, h, pc) == Quiet(Pop(cfg, s, h))
  {
    if h / 512 == 0x5a || h / 512 == 0x5e {
      assert h / 4096 == 11 && h / 256 != 0xb0 && h / 256 != 0xb2;
      MiscellaneousDecodes(cfg, s, h, pc);
    }
  }

  /** PUSH of the listed registers, LR behind them; */
  lemma Pushes(cfg: Setup, s: State, h: nat, pc: int, more: nat, list: nat, regs: seq<nat>)
    requires more < 2 && list < 256 && h == 0xb400 + 0x100 * more + list && regs == WithLast(list, more == 1, 14)
    ensures forall d :: d in regs ==> d < 16
    ensures Execute(cfg, s, h, pc) == Quiet(PushAll(cfg, s, regs))
  {
    StackListFields(h, 0, more, list);
    StackDecodesTo(cfg, s, h, pc);
    ListedWith(list, more == 1, 14);
    PushIs(cfg, s, h, regs);
  }

  /** the stack pointer goes down by a word for each, and they stand there from the
      lowest up. */
  lemma PushesAll(cfg: Setup, s: State, regs: seq<nat>, address: int)
    requires (forall k :: 0 <= k < |regs| ==> regs[k] < 16) && address == s.r[13] - 4 * |regs|
    ensures PushAll(cfg, s, regs) == StoreAll(cfg, s.(r := s.r[13 := address]), regs, address)
  {
  }

  /** POP: they are loaded from the stack pointer up, the program counter last and made
      even, and the stack pointer goes behind them. */
  lemma Pops(cfg: Setup, s: State, h: nat, pc: int, more: nat, list: nat, regs: seq<nat>)
    requires more < 2 && list < 256 && h == 0xbc00 + 0x100 * more + list && regs == WithLast(list, more == 1, 15)
    ensures forall d :: d in regs ==> d < 16
    ensures Execute(cfg, s, h, pc) == Quiet(PopAll(cfg, s, regs))
  {
    StackListFields(h, 1, more, list);
    StackDecodesTo(cfg, s, h, pc);
    ListedWith(list, more == 1, 15);
    PopIs(cfg, s, h, regs);
  }

  lemma PopsAll(cfg: Setup, s: State, regs: seq<nat>, loaded: Outcome<State>)
    requires (forall k :: 0 <= k < |regs| ==> regs[k] < 16) && loaded == LoadAll(cfg, s, regs, s.r[13])
    ensures PopAll(cfg, s, regs)
         == match loaded
            case Refused(why) => Refused(why)
            case Went(t) => Went(t.(r := t.r[13 := s.r[13] + 4 * |regs|]))
  {
  }
}
