/** What executing each register instruction does, by its halfword: the result, the
    flags, and that nothing else changes. */
module ThumbForms {
  import opened ThumbWords
  import opened ThumbMachine
  import opened ThumbRanges
  import opened ThumbBits

  /** The instruction puts a value in a register, sets the flags, and does nothing else. */
  ghost predicate Does(cfg: Setup, s: State, h: nat, pc: int, d: nat, value: int, f: Flags)
    requires d < 16
  {
    Execute(cfg, s, h, pc) == Went((State(s.r[d := value], f, s.memory, s.accesses), false))
  }

  /** The flags of a result: N and Z describe it. */
  function Described(result: int, c: bool, v: bool): Flags {
    Flags(result >= 0x8000_0000, result == 0, c, v)
  }

  /** The signed sum does not fit a word. */
  predicate Overflows(signed: int) {
    !(-0x8000_0000 <= signed < 0x8000_0000)
  }

  /** The flags of a sum and of a difference of two words. */
  function OfSum(a: int, b: int): Flags {
    Described((a + b) % 0x1_0000_0000, a + b >= 0x1_0000_0000, Overflows(ToSigned(a) + ToSigned(b)))
  }

  function OfDifference(a: int, b: int): Flags {
    Described((a - b) % 0x1_0000_0000, a >= b, Overflows(ToSigned(a) - ToSigned(b)))
  }

  lemma SumIsExact(a: int, b: int)
    requires IsWord(a) && IsWord(b)
    ensures AddWithCarry(a, b, 0) == Sum((a + b) % 0x1_0000_0000, OfSum(a, b))
  {
    AddIsExact(a, b, 0);
    Wraps(a + b);
  }

  lemma DifferenceIsExact(a: int, b: int)
    requires IsWord(a) && IsWord(b)
    ensures AddWithCarry(a, Not(b), 1) == Sum((a - b) % 0x1_0000_0000, OfDifference(a, b))
  {
    CompareResult(a, b);
    CompareFlags(a, b);
  }

  // ------------------------------------------------------------------
  // With an immediate of eight bits

  lemma ImmediateFields(h: nat, op: nat, d: nat, imm: nat)
    requires op < 4 && d < 8 && imm < 256 && h == 0x2000 + 0x800 * op + 0x100 * d + imm
    ensures h / 8192 == 1 && h / 2048 == 4 + op && (h / 2048) % 4 == op && (h / 256) % 8 == d && h % 256 == imm
  {
  }

  /** MOVS Rd, #imm. */
  lemma MovesImmediate(cfg: Setup, s: State, h: nat, pc: int, d: nat, imm: nat)
    requires d < 8 && imm < 256 && h == 0x2000 + 0x100 * d + imm
    ensures Does(cfg, s, h, pc, d, imm, Flags(false, imm == 0, s.f.c, s.f.v))
  {
    ImmediateFields(h, 0, d, imm);
  }

  /** ADDS Rd, #imm. */
  lemma AddsImmediate(cfg: Setup, s: State, h: nat, pc: int, d: nat, imm: nat)
    requires d < 8 && imm < 256 && h == 0x3000 + 0x100 * d + imm && IsWord(s.r[d])
    ensures Does(cfg, s, h, pc, d, (s.r[d] + imm) % 0x1_0000_0000, OfSum(s.r[d], imm))
  {
    ImmediateFields(h, 2, d, imm);
    SumIsExact(s.r[d], imm);
  }

  /** SUBS Rd, #imm. */
  lemma SubtractsImmediate(cfg: Setup, s: State, h: nat, pc: int, d: nat, imm: nat)
    requires d < 8 && imm < 256 && h == 0x3800 + 0x100 * d + imm && IsWord(s.r[d])
    ensures Does(cfg, s, h, pc, d, (s.r[d] - imm) % 0x1_0000_0000, OfDifference(s.r[d], imm))
  {
    ImmediateFields(h, 3, d, imm);
    DifferenceIsExact(s.r[d], imm);
  }

  // ------------------------------------------------------------------
  // Three registers, or two and an immediate of three bits

  lemma ThreeFields(h: nat, op: nat, m: nat, n: nat, d: nat)
    requires op < 4 && m < 8 && n < 8 && d < 8 && h == 0x1800 + 0x200 * op + 0x40 * m + 8 * n + d
    ensures h / 2048 == 3 && h / 8192 == 0 && (h / 1024) % 2 == op / 2 && (h / 512) % 2 == op % 2
    ensures (h / 64) % 8 == m && (h / 8) % 8 == n && h % 8 == d
  {
    DivUnique(h, 8, 0x300 + 0x40 * op + 8 * m + n, d);
    DivUnique(h / 8, 8, 0x60 + 8 * op + m, n);
    DivUnique(h, 64, 0x60 + 8 * op + m, 8 * n + d);
    DivUnique(h / 64, 8, 0xc + op, m);
    DivUnique(h, 512, 0xc + op, 0x40 * m + 8 * n + d);
    DivUnique(h, 1024, 6 + op / 2, 0x200 * (op % 2) + 0x40 * m + 8 * n + d);
  }

  /** ADDS Rd, Rn, Rm. */
  lemma AddsRegisters(cfg: Setup, s: State, h: nat, pc: int, m: nat, n: nat, d: nat)
    requires m < 8 && n < 8 && d < 8 && h == 0x1800 + 0x40 * m + 8 * n + d && IsWord(s.r[n]) && IsWord(s.r[m])
    ensures Does(cfg, s, h, pc, d, (s.r[n] + s.r[m]) % 0x1_0000_0000, OfSum(s.r[n], s.r[m]))
  {
    ThreeFields(h, 0, m, n, d);
    SumIsExact(s.r[n], s.r[m]);
  }

  /** SUBS Rd, Rn, Rm. */
  lemma SubtractsRegisters(cfg: Setup, s: State, h: nat, pc: int, m: nat, n: nat, d: nat)
    requires m < 8 && n < 8 && d < 8 && h == 0x1a00 + 0x40 * m + 8 * n + d && IsWord(s.r[n]) && IsWord(s.r[m])
    ensures Does(cfg, s, h, pc, d, (s.r[n] - s.r[m]) % 0x1_0000_0000, OfDifference(s.r[n], s.r[m]))
  {
    ThreeFields(h, 1, m, n, d);
    DifferenceIsExact(s.r[n], s.r[m]);
  }

  /** ADDS Rd, Rn, #imm. */
  lemma AddsSmall(cfg: Setup, s: State, h: nat, pc: int, imm: nat, n: nat, d: nat)
    requires imm < 8 && n < 8 && d < 8 && h == 0x1c00 + 0x40 * imm + 8 * n + d && IsWord(s.r[n])
    ensures Does(cfg, s, h, pc, d, (s.r[n] + imm) % 0x1_0000_0000, OfSum(s.r[n], imm))
  {
    ThreeFields(h, 2, imm, n, d);
    SumIsExact(s.r[n], imm);
  }

  /** SUBS Rd, Rn, #imm. */
  lemma SubtractsSmall(cfg: Setup, s: State, h: nat, pc: int, imm: nat, n: nat, d: nat)
    requires imm < 8 && n < 8 && d < 8 && h == 0x1e00 + 0x40 * imm + 8 * n + d && IsWord(s.r[n])
    ensures Does(cfg, s, h, pc, d, (s.r[n] - imm) % 0x1_0000_0000, OfDifference(s.r[n], imm))
  {
    ThreeFields(h, 3, imm, n, d);
    DifferenceIsExact(s.r[n], imm);
  }

  // ------------------------------------------------------------------
  // Shifts

  lemma ShiftFields(h: nat, kind: nat, n: nat, m: nat, d: nat)
    requires kind < 3 && n < 32 && m < 8 && d < 8 && h == 0x800 * kind + 0x40 * n + 8 * m + d
    ensures h / 8192 == 0 && h / 2048 == kind && (h / 2048) % 4 == kind && (h / 64) % 32 == n
    ensures (h / 8) % 8 == m && h % 8 == d
  {
  }

  lemma LslMeans(value: int, n: nat, carry: bool)
    requires IsWord(value) && n < 32
    ensures Shift(0, value, n, carry).0 == (value * Pow2(n)) % 0x1_0000_0000
    ensures Shift(0, value, n, carry).1 == if n == 0 then carry else (value / Pow2(32 - n)) % 2 == 1
  {
    UpIsProduct(value, n);
    DownIsFloor(value, 32 - n);
    Wraps(value);
  }

  lemma LsrMeans(value: int, n: nat, carry: bool)
    requires IsWord(value) && 0 < n <= 32
    ensures Shift(1, value, n, carry).0 == value / Pow2(n)
    ensures Shift(1, value, n, carry).1 == ((value / Pow2(n - 1)) % 2 == 1)
  {
    DownIsFloor(value, n);
    DownIsFloor(value, n - 1);
    Pow2Facts();
  }

  lemma AsrMeans(value: int, n: nat, carry: bool)
    requires IsWord(value) && 0 < n <= 32
    ensures Shift(2, value, n, carry).0 == (ToSigned(value) / Pow2(n)) % 0x1_0000_0000
    ensures Shift(2, value, n, carry).1 == ((ToSigned(value) / Pow2(n - 1)) % 2 == 1)
  {
    var x := ToSigned(value);
    DownIsFloor(x, Least(n, 31));
    DownIsFloor(x, n - 1);
    DownIsFloor(x, n);
    SignedReading(value);
    if n == 32 {
      SignAlone(x);
    }
  }

  /** Shifted by 31 or by 32, a signed number is its sign. */
  lemma SignAlone(x: int)
    requires -HALF <= x < HALF
    ensures x / Pow2(31) == x / Pow2(32) == if x < 0 then -1 else 0
  {
    Pow2Facts();
  }

  lemma RorMeans(value: int, n: nat, carry: bool)
    requires IsWord(value) && n > 0
    ensures var turn := n % 32;
            Shift(3, value, n, carry).0 == (value / Pow2(turn) + value * Pow2(32 - turn)) % 0x1_0000_0000
    ensures Shift(3, value, n, carry).1 == (Shift(3, value, n, carry).0 >= 0x8000_0000)
  {
    RorShift(value, n, carry);
    TurnMeans(value, n % 32);
  }

  lemma TurnMeans(value: int, turn: nat)
    requires turn < 32
    ensures Rotated(value, turn) == (value / Pow2(turn) + value * Pow2(32 - turn)) % 0x1_0000_0000
  {
    DownIsFloor(value, turn);
    UpIsProduct(value, 32 - turn);
  }

  /** A shift of a register into another by an immediate amount. */
  lemma ShiftDoes(cfg: Setup, s: State, h: nat, pc: int, kind: nat, field: nat, m: nat, d: nat, result: int,
                  carry: bool)
    requires kind < 3 && field < 32 && m < 8 && d < 8 && h == 0x800 * kind + 0x40 * field + 8 * m + d && IsWord(result)
    requires Shift(kind, s.r[m], if kind != 0 && field == 0 then 32 else field, s.f.c) == (result, carry)
    ensures Does(cfg, s, h, pc, d, result, Described(result, carry, s.f.v))
  {
    ShiftFields(h, kind, field, m, d);
    Wraps(result);
  }

  /** LSLS Rd, Rm, #n; by nothing it moves. */
  lemma ShiftsLeft(cfg: Setup, s: State, h: nat, pc: int, n: nat, m: nat, d: nat)
    requires n < 32 && m < 8 && d < 8 && h == 0x40 * n + 8 * m + d && IsWord(s.r[m])
    ensures var result := (s.r[m] * Pow2(n)) % 0x1_0000_0000;
            var carry := if n == 0 then s.f.c else (s.r[m] / Pow2(32 - n)) % 2 == 1;
            Does(cfg, s, h, pc, d, result, Described(result, carry, s.f.v))
  {
    LslMeans(s.r[m], n, s.f.c);
    var shifted := Shift(0, s.r[m], n, s.f.c);
    ShiftDoes(cfg, s, h, pc, 0, n, m, d, shifted.0, shifted.1);
  }

  /** LSRS Rd, Rm, #n, where zero stands for 32. */
  lemma ShiftsRight(cfg: Setup, s: State, h: nat, pc: int, field: nat, n: nat, m: nat, d: nat)
    requires field < 32 && m < 8 && d < 8 && h == 0x800 + 0x40 * field + 8 * m + d && IsWord(s.r[m])
    requires n == if field == 0 then 32 else field
    ensures var result, carry := s.r[m] / Pow2(n), (s.r[m] / Pow2(n - 1)) % 2 == 1;
            Does(cfg, s, h, pc, d, result, Described(result, carry, s.f.v))
  {
    LsrMeans(s.r[m], n, s.f.c);
    ShiftRange(1, s.r[m], n, s.f.c, 0);
    var shifted := Shift(1, s.r[m], n, s.f.c);
    ShiftDoes(cfg, s, h, pc, 1, field, m, d, shifted.0, shifted.1);
  }

  /** ASRS Rd, Rm, #n, where zero stands for 32. */
  lemma ShiftsSigned(cfg: Setup, s: State, h: nat, pc: int, field: nat, n: nat, m: nat, d: nat)
    requires field < 32 && m < 8 && d < 8 && h == 0x1000 + 0x40 * field + 8 * m + d && IsWord(s.r[m])
    requires n == if field == 0 then 32 else field
    ensures var x := ToSigned(s.r[m]);
            var result, carry := (x / Pow2(n)) % 0x1_0000_0000, (x / Pow2(n - 1)) % 2 == 1;
            Does(cfg, s, h, pc, d, result, Described(result, carry, s.f.v))
  {
    AsrMeans(s.r[m], n, s.f.c);
    var shifted := Shift(2, s.r[m], n, s.f.c);
    ShiftDoes(cfg, s, h, pc, 2, field, m, d, shifted.0, shifted.1);
  }

  // ------------------------------------------------------------------
  // Data processing

  lemma DataFields(h: nat, op: nat, m: nat, d: nat)
    requires op < 16 && m < 8 && d < 8 && h == 0x4000 + 0x40 * op + 8 * m + d
    ensures h / 1024 == 0x10 && (h / 64) % 16 == op && (h / 8) % 8 == m && h % 8 == d
    ensures h / 2048 == 8 && h / 8192 == 2
  {
    DivUnique(h, 8, 0x800 + 8 * op + m, d);
    DivUnique(h / 8, 8, 0x100 + op, m);
    DivUnique(h, 64, 0x100 + op, 8 * m + d);
    DivUnique(h / 64, 16, 0x10, op);
    DivUnique(h, 1024, 0x10, 0x40 * op + 8 * m + d);
  }

  /** The sixteen, of which the lemmas on bits, sums and shifts say what each computes:
      AND, EOR, LSL, LSR, ASR, ADC, SBC, ROR, TST, RSB, CMP, CMN, ORR, MUL, BIC, MVN. */
  lemma ProcessesData(cfg: Setup, s: State, h: nat, pc: int, op: nat, m: nat, d: nat)
    requires op < 16 && m < 8 && d < 8 && h == 0x4000 + 0x40 * op + 8 * m + d
    ensures Execute(cfg, s, h, pc) == Went((DataProcessing(s, op, m, d), false))
  {
    DataFields(h, op, m, d);
  }

  // ------------------------------------------------------------------
  // High registers

  lemma HighFields(h: nat, op: nat, m: nat, d: nat)
    requires op < 4 && m < 16 && d < 16 && h == 0x4400 + 0x100 * op + 0x80 * (d / 8) + 8 * m + d % 8
    ensures h / 1024 == 0x11 && (h / 256) % 4 == op && (h / 128) % 2 == d / 8 && (h / 8) % 16 == m && h % 8 == d % 8
    ensures h / 2048 == 8 && h / 8192 == 2
  {
    var high, low := d / 8, d % 8;
    DivUnique(h, 8, 0x880 + 0x20 * op + 0x10 * high + m, low);
    DivUnique(h / 8, 16, 0x88 + 2 * op + high, m);
    DivUnique(h, 128, 0x88 + 2 * op + high, 8 * m + low);
    DivUnique(h / 128, 2, 0x44 + op, high);
    DivUnique(h, 256, 0x44 + op, 0x80 * high + 8 * m + low);
    DivUnique(h, 1024, 0x11, 0x100 * op + 0x80 * high + 8 * m + low);
  }

  /** The program counter as an operand is four bytes on. */
  function Reads(s: State, pc: int, n: nat): int
    requires n < 16
  {
    if n == 15 then pc + 4 else s.r[n]
  }

  /** ADD Rd, Rm, of any registers: flags stay, and a program counter is made even. */
  lemma AddsHigh(cfg: Setup, s: State, h: nat, pc: int, m: nat, d: nat)
    requires m < 16 && d < 16 && h == 0x4400 + 0x80 * (d / 8) + 8 * m + d % 8
    ensures var sum := (Reads(s, pc, d) + Reads(s, pc, m)) % 0x1_0000_0000;
            Does(cfg, s, h, pc, d, if d == 15 then sum - sum % 2 else sum, s.f)
  {
    HighFields(h, 0, m, d);
  }

  /** MOV Rd, Rm. */
  lemma MovesHigh(cfg: Setup, s: State, h: nat, pc: int, m: nat, d: nat)
    requires m < 16 && d < 16 && h == 0x4600 + 0x80 * (d / 8) + 8 * m + d % 8
    ensures var value := Reads(s, pc, m);
            Does(cfg, s, h, pc, d, if d == 15 then value - value % 2 else value % 0x1_0000_0000, s.f)
  {
    HighFields(h, 2, m, d);
  }

  /** BX Rm. */
  lemma BranchesTo(cfg: Setup, s: State, h: nat, pc: int, m: nat)
    requires m < 16 && h == 0x4700 + 8 * m
    ensures Does(cfg, s, h, pc, 15, Reads(s, pc, m) - Reads(s, pc, m) % 2, s.f)
  {
    HighFields(h, 3, m, 0);
  }

  /** BLX Rm: and LR comes back behind it, with bit 0 set. */
  lemma CallsTo(cfg: Setup, s: State, h: nat, pc: int, m: nat)
    requires m < 16 && h == 0x4780 + 8 * m
    ensures var target, back := Reads(s, pc, m), if pc % 2 == 0 then pc + 3 else pc + 2;
            Execute(cfg, s, h, pc) == Went((s.(r := s.r[14 := back][15 := target - target % 2]), false))
  {
    HighFields(h, 3, m, 8);
  }

  // ------------------------------------------------------------------
  // Addresses and the stack pointer

  lemma AddressFields(h: nat, stack: nat, d: nat, imm: nat)
    requires stack < 2 && d < 8 && imm < 256 && h == 0xa000 + 0x800 * stack + 0x100 * d + imm
    ensures h / 4096 == 10 && (h / 2048) % 2 == stack && (h / 256) % 8 == d && h % 256 == imm
    ensures h / 2048 == 20 + stack && h / 8192 == 5 && h / 1024 >= 0x28 && !MovesOne(h)
  {
    DivUnique(h, 256, 0xa0 + 8 * stack + d, imm);
    DivUnique(h / 256, 8, 20 + stack, d);
    DivUnique(h, 2048, 20 + stack, 0x100 * d + imm);
  }

  /** ADR Rd, from the program counter rounded down to a word. */
  lemma AddressOfCounter(cfg: Setup, s: State, h: nat, pc: int, d: nat, imm: nat)
    requires d < 8 && imm < 256 && h == 0xa000 + 0x100 * d + imm
    ensures Does(cfg, s, h, pc, d, (pc + 4 - (pc + 4) % 4 + 4 * imm) % 0x1_0000_0000, s.f)
  {
    AddressFields(h, 0, d, imm);
  }

  /** ADD Rd, SP, #imm. */
  lemma AddressOfStack(cfg: Setup, s: State, h: nat, pc: int, d: nat, imm: nat)
    requires d < 8 && imm < 256 && h == 0xa800 + 0x100 * d + imm
    ensures Does(cfg, s, h, pc, d, (s.r[13] + 4 * imm) % 0x1_0000_0000, s.f)
  {
    AddressFields(h, 1, d, imm);
  }

  /** The miscellaneous group. */
  lemma MiscellaneousDecodes(cfg: Setup, s: State, h: nat, pc: int)
    requires h / 4096 == 11
    ensures Execute(cfg, s, h, pc) == Miscellaneous(cfg, s, h)
  {
    assert h / 2048 == 22 || h / 2048 == 23;
    assert h / 8192 == 5 && h / 1024 >= 0x2c && !MovesOne(h);
  }

  /** ADD SP and SUB SP. */
  lemma AdjustsStack(cfg: Setup, s: State, h: nat, pc: int, imm: nat)
    requires imm < 128
    ensures h == 0xb000 + imm ==> Does(cfg, s, h, pc, 13, (s.r[13] + 4 * imm) % 0x1_0000_0000, s.f)
    ensures h == 0xb080 + imm ==> Does(cfg, s, h, pc, 13, (s.r[13] - 4 * imm) % 0x1_0000_0000, s.f)
  {
    if h == 0xb000 + imm || h == 0xb080 + imm {
      MiscellaneousDecodes(cfg, s, h, pc);
    }
  }

  lemma ExtendFields(h: nat, op: nat, m: nat, d: nat)
    requires op < 4 && m < 8 && d < 8 && h == 0xb200 + 0x40 * op + 8 * m + d
    ensures h / 4096 == 11 && h / 256 == 0xb2 && (h / 64) % 4 == op && (h / 8) % 8 == m && h % 8 == d
  {
    DivUnique(h, 8, 0x1640 + 8 * op + m, d);
    DivUnique(h / 8, 8, 0x2c8 + op, m);
    DivUnique(h, 64, 0x2c8 + op, 8 * m + d);
    DivUnique(h / 64, 4, 0xb2, op);
    DivUnique(h, 256, 0xb2, 0x40 * op + 8 * m + d);
  }

  /** A value of so many bits with its sign, as a number of either sign. */
  function Signed(value: nat, half: nat): int {
    if value >= half then value - 2 * half else value
  }

  lemma SignIsSigned(value: nat, bits: nat, half: nat)
    requires (bits == 8 && half == 0x80 && value < 0x100) || (bits == 16 && half == 0x8000 && value < 0x1_0000)
          || (bits == 11 && half == 0x400 && value < 0x800)
    ensures Sign(value, bits) == Signed(value, half)
  {
    Pow2Facts();
    Pow2Adds(8, 2);
    assert Pow2(2) == 4;
    assert Pow2(11) == 2 * Pow2(10);
    assert Pow2(8) == 2 * Pow2(7);
    assert Pow2(16) == 2 * Pow2(15);
  }

  /** SXTH, SXTB, UXTH and UXTB; a sign stays a negative number. */
  lemma Extends(cfg: Setup, s: State, h: nat, pc: int, op: nat, m: nat, d: nat)
    requires op < 4 && m < 8 && d < 8 && h == 0xb200 + 0x40 * op + 8 * m + d
    ensures var half, byte := s.r[m] % 0x1_0000, s.r[m] % 0x100;
            Does(cfg, s, h, pc, d,
                 if op == 0 then Signed(half, 0x8000) else if op == 1 then Signed(byte, 0x80) else if op == 2 then half
                 else byte, s.f)
  {
    ExtendFields(h, op, m, d);
    MiscellaneousDecodes(cfg, s, h, pc);
    SignIsSigned(s.r[m] % 0x1_0000, 16, 0x8000);
    SignIsSigned(s.r[m] % 0x100, 8, 0x80);
  }

  lemma ReverseFields(h: nat, op: nat, m: nat, d: nat)
    requires op < 4 && m < 8 && d < 8 && h == 0xba00 + 0x40 * op + 8 * m + d
    ensures h / 4096 == 11 && h / 256 == 0xba && (h / 64) % 4 == op && (h / 8) % 8 == m && h % 8 == d
    ensures h / 512 == 0x5d
  {
    DivUnique(h, 8, 0x1740 + 8 * op + m, d);
    DivUnique(h / 8, 8, 0x2e8 + op, m);
    DivUnique(h, 64, 0x2e8 + op, 8 * m + d);
    DivUnique(h / 64, 4, 0xba, op);
    DivUnique(h, 256, 0xba, 0x40 * op + 8 * m + d);
  }

  /** Four bytes, the most significant first, make the word. */
  predicate Makes(value: int, b3: nat, b2: nat, b1: nat, b0: nat) {
    && b3 < 256 && b2 < 256 && b1 < 256 && b0 < 256
    && value == 0x100_0000 * b3 + 0x1_0000 * b2 + 0x100 * b1 + b0
  }

  /** The bytes turned round, of the word, of each half, or of the low half with its sign. */
  predicate TurnsRound(op: nat, result: int, b3: nat, b2: nat, b1: nat, b0: nat) {
    if op == 0 then Makes(result, b0, b1, b2, b3)
    else if op == 1 then Makes(result, b2, b3, b0, b1)
    else result == Signed(0x100 * b0 + b1, 0x8000)
  }

  lemma BytesMade(value: int, b3: nat, b2: nat, b1: nat, b0: nat)
    requires Makes(value, b3, b2, b1, b0)
    ensures IsWord(value) && ByteOf(value, 0) == b0 && ByteOf(value, 1) == b1
    ensures ByteOf(value, 2) == b2 && ByteOf(value, 3) == b3
  {
    BytesOfWord(b3, b2, b1, b0);
  }

  lemma SwappedOfBytes(value: int, op: nat, b3: nat, b2: nat, b1: nat, b0: nat)
    requires ByteOf(value, 0) == b0 && ByteOf(value, 1) == b1 && ByteOf(value, 2) == b2 && ByteOf(value, 3) == b3
    ensures Swapped(value, op)
         == if op == 0 then Word(b0, b1, b2, b3)
            else if op == 1 then Word(b2, b3, b0, b1)
            else Sign(b0 * 0x100 + b1, 16)
  {
  }

  lemma TurnsRoundIsWord(op: nat, result: int, b3: nat, b2: nat, b1: nat, b0: nat)
    requires b3 < 256 && b2 < 256 && b1 < 256 && b0 < 256 && TurnsRound(op, result, b3, b2, b1, b0)
    ensures result
         == if op == 0 then Word(b0, b1, b2, b3)
            else if op == 1 then Word(b2, b3, b0, b1)
            else Sign(b0 * 0x100 + b1, 16)
  {
    SignIsSigned(0x100 * b0 + b1, 16, 0x8000);
  }

  lemma SwappedTurns(value: int, op: nat, result: int, b3: nat, b2: nat, b1: nat, b0: nat)
    requires Makes(value, b3, b2, b1, b0) && TurnsRound(op, result, b3, b2, b1, b0)
    ensures IsWord(value) && Swapped(value, op) == result
  {
    BytesMade(value, b3, b2, b1, b0);
    SwappedOfBytes(value, op, b3, b2, b1, b0);
    TurnsRoundIsWord(op, result, b3, b2, b1, b0);
  }

  lemma ReverseDecodes(cfg: Setup, s: State, h: nat, pc: int, op: nat, m: nat, d: nat, value: int)
    requires m < 8 && d < 8 && op < 4 && op != 2 && h == 0xba00 + 0x40 * op + 8 * m + d
    requires s.r[m] == value && IsWord(value)
    ensures Does(cfg, s, h, pc, d, Swapped(value, op), s.f)
  {
    ReverseFields(h, op, m, d);
    MiscellaneousDecodes(cfg, s, h, pc);
  }

  /** REV, REV16 and REVSH of a word, byte by byte. */
  lemma Reverses(cfg: Setup, s: State, h: nat, pc: int, op: nat, m: nat, d: nat, result: int,
                 b3: nat, b2: nat, b1: nat, b0: nat)
    requires m < 8 && d < 8 && (op == 0 || op == 1 || op == 3) && h == 0xba00 + 0x40 * op + 8 * m + d
    requires Makes(s.r[m], b3, b2, b1, b0) && TurnsRound(op, result, b3, b2, b1, b0)
    ensures Does(cfg, s, h, pc, d, result, s.f)
  {
    SwappedTurns(s.r[m], op, result, b3, b2, b1, b0);
    ReverseDecodes(cfg, s, h, pc, op, m, d, s.r[m]);
  }

  /** NOP, YIELD, WFE, SEV and the interrupt masks do nothing; WFI ends the run. */
  lemma Hints(cfg: Setup, s: State, pc: int)
    ensures Execute(cfg, s, 0xbf00, pc) == Went((s, false)) && Execute(cfg, s, 0xbf10, pc) == Went((s, false))
    ensures Execute(cfg, s, 0xbf20, pc) == Went((s, false)) && Execute(cfg, s, 0xbf40, pc) == Went((s, false))
    ensures Execute(cfg, s, 0xb662, pc) == Went((s, false)) && Execute(cfg, s, 0xb672, pc) == Went((s, false))
    ensures Execute(cfg, s, 0xbf30, pc) == Went((s, true))
  {
  }

  /** BKPT, UDF and SVC are refused. */
  lemma Refuses(cfg: Setup, s: State, h: nat, pc: int, imm: nat)
    requires imm < 256
    ensures h == 0xbe00 + imm ==> Execute(cfg, s, h, pc) == Refused(Breakpoint)
    ensures h == 0xde00 + imm ==> Execute(cfg, s, h, pc) == Refused(PermanentlyUndefined)
    ensures h == 0xdf00 + imm ==> Execute(cfg, s, h, pc) == Refused(SupervisorCall)
  {
    if h == 0xbe00 + imm {
      MiscellaneousDecodes(cfg, s, h, pc);
    } else if h == 0xde00 + imm || h == 0xdf00 + imm {
      assert h / 4096 == 13 && h / 2048 == 27 && h / 8192 == 6 && h / 1024 == 0x37;
    }
  }

  /** B, over eleven bits with their sign. */
  lemma Branches(cfg: Setup, s: State, h: nat, pc: int, offset: nat)
    requires offset < 0x800 && h == 0xe000 + offset
    ensures Does(cfg, s, h, pc, 15, (pc + 4 + 2 * Signed(offset, 0x400)) % 0x1_0000_0000, s.f)
  {
    SignIsSigned(offset, 11, 0x400);
    BranchFields(h, offset);
    BranchDecodes(cfg, s, h, pc);
  }

  lemma BranchFields(h: nat, offset: nat)
    requires offset < 0x800 && h == 0xe000 + offset
    ensures h / 2048 == 0x1c && h % 2048 == offset
  {
    DivUnique(h, 2048, 0x1c, offset);
  }

  lemma BranchDecodes(cfg: Setup, s: State, h: nat, pc: int)
    requires h / 2048 == 0x1c
    ensures Execute(cfg, s, h, pc) == Went((Branch(s, h, pc), false))
  {
    assert h / 8192 == 7 && h / 4096 == 14 && !MovesOne(h);
  }

  // ------------------------------------------------------------------
  // Instructions of 32 bits

  /** The second half is fetched, unrecorded, behind the first. */
  ghost predicate FetchedBehind(cfg: Setup, s: State, pc: int, second: nat) {
    Load(cfg, s, pc + 2, 2, false) == Went((s, second))
  }

  lemma LongDecodes(cfg: Setup, s: State, first: nat, second: nat, pc: int)
    requires 0xe800 <= first < 0x1_0000 && FetchedBehind(cfg, s, pc, second)
    ensures Execute(cfg, s, first, pc) == Quiet(Wide(cfg, s, first, second, pc))
  {
    assert first / 2048 == 0x1d || first / 2048 == 0x1e || first / 2048 == 0x1f;
    assert first / 8192 == 7 && first / 4096 >= 14 && first / 1024 >= 0x3a && !MovesOne(first);
  }

  /** BL to an even word in reach. */
  lemma CallsFar(cfg: Setup, s: State, pc: int, target: int, first: nat, second: nat)
    requires IsWord(target) && pc % 2 == 0 && LinkPair(first, second) && LinkOffset(first, second) == target - (pc + 4)
    requires FetchedBehind(cfg, s, pc, second)
    ensures Execute(cfg, s, first, pc) == Went((s.(r := s.r[15 := target][14 := pc + 5]), false))
  {
    LongDecodes(cfg, s, first, second, pc);
    LinkReaches(cfg, s, pc, target, first, second);
  }

  lemma SystemFields(second: nat, high: nat, d: nat, low: nat)
    requires d < 16 && low < 256 && second == 0x1000 * high + 0x100 * d + low
    ensures second / 4096 == high && (second / 256) % 16 == d && second / 256 == 0x10 * high + d && second % 256 == low
  {
    DivUnique(second, 256, 0x10 * high + d, low);
    DivUnique(second / 256, 16, high, d);
    DivUnique(second, 4096, high, 0x100 * d + low);
  }

  /** MRS reads zero. */
  lemma ReadsSystem(cfg: Setup, s: State, pc: int, second: nat, d: nat, low: nat)
    requires d < 16 && low < 256 && second == 0x8000 + 0x100 * d + low && FetchedBehind(cfg, s, pc, second)
    ensures Execute(cfg, s, 0xf3ef, pc) == Went((s.(r := s.r[15 := pc + 4][d := 0]), false))
  {
    SystemFields(second, 8, d, low);
    LongDecodes(cfg, s, 0xf3ef, second, pc);
  }

  /** MSR of a stack pointer is recorded if that is asked for, and MSP is the stack
      pointer, rounded down to a word; of anything else nothing is. */
  lemma WritesSystem(cfg: Setup, s: State, pc: int, second: nat, n: nat, low: nat)
    requires n < 16 && low < 256 && second == 0x8800 + low && FetchedBehind(cfg, s, pc, second)
    ensures var value, past := (if n == 15 then pc + 4 else s.r[n]), s.r[15 := pc + 4];
            Execute(cfg, s, 0xf380 + n, pc)
            == if !cfg.special || (low != 8 && low != 9) then Went((s.(r := past), false))
               else if low == 8 then
                 Went((State(past[13 := value - value % 4], s.f, s.memory, s.accesses + [Msr(false, value)]), false))
               else Went((State(past, s.f, s.memory, s.accesses + [Msr(true, value)]), false))
  {
    SystemFields(second, 8, 8, low);
    LongDecodes(cfg, s, 0xf380 + n, second, pc);
    assert (0xf380 + n) / 16 == 0xf38 && (0xf380 + n) % 16 == n && 0xf380 + n != 0xf3ef;
    assert second / 16384 == 2;
  }

  /** DSB, DMB and ISB are recorded. */
  lemma RecordsBarriers(cfg: Setup, s: State, pc: int, second: nat, option: nat, kind: BarrierKind)
    requires option < 16 && FetchedBehind(cfg, s, pc, second)
    requires second == option + match kind case Dsb => 0x8f40 case Dmb => 0x8f50 case Isb => 0x8f60
    ensures Execute(cfg, s, 0xf3bf, pc)
         == Went((State(s.r[15 := pc + 4], s.f, s.memory, s.accesses + [Barrier(kind)]), false))
  {
    LongDecodes(cfg, s, 0xf3bf, second, pc);
    assert second / 16 == match kind case Dsb => 0x8f4 case Dmb => 0x8f5 case Isb => 0x8f6;
    assert second / 16384 == 2;
  }

  // ------------------------------------------------------------------
  // What is no instruction

  /** The miscellaneous halfwords that are some instruction. */
  predicate IsMiscellaneous(h: nat) {
    || 0xb000 <= h < 0xb100 || 0xb200 <= h < 0xb300 || 0xb400 <= h < 0xb600 || 0xbc00 <= h < 0xbe00
    || h == 0xb662 || h == 0xb672 || 0xba00 <= h < 0xbb00 || 0xbe00 <= h < 0xbf00
    || h == 0xbf00 || h == 0xbf10 || h == 0xbf20 || h == 0xbf30 || h == 0xbf40
  }

  lemma UndefinedHalfwords(cfg: Setup, s: State, h: nat, pc: int)
    requires 0xb000 <= h < 0xc000 && !IsMiscellaneous(h)
    ensures Execute(cfg, s, h, pc) == Refused(UndefinedInstruction)
  {
    MiscellaneousDecodes(cfg, s, h, pc);
  }

  /** The fourth reversal is none either, and a reversal of what is no word is refused. */
  lemma UndefinedReversals(cfg: Setup, s: State, h: nat, pc: int, op: nat, m: nat, d: nat)
    requires op < 4 && m < 8 && d < 8 && h == 0xba00 + 0x40 * op + 8 * m + d
    ensures !IsWord(s.r[m]) ==> Execute(cfg, s, h, pc) == Refused(NotAWord)
    ensures IsWord(s.r[m]) && op == 2 ==> Execute(cfg, s, h, pc) == Refused(UndefinedInstruction)
  {
    ReverseFields(h, op, m, d);
    MiscellaneousDecodes(cfg, s, h, pc);
  }

  /** Of the 32-bit ones only BL, MRS, MSR and the three barriers are. */
  lemma UndefinedPairs(cfg: Setup, s: State, first: nat, second: nat, pc: int)
    requires 0xe800 <= first < 0x1_0000 && FetchedBehind(cfg, s, pc, second)
    requires !(0xf000 <= first < 0xf800 && second / 16384 == 3 && (second / 4096) % 2 == 1)
    requires !(first == 0xf3ef && 0x8000 <= second < 0x9000)
    requires !(0xf380 <= first < 0xf390 && 0x8800 <= second < 0x8900)
    requires !(first == 0xf3bf && 0x8f40 <= second < 0x8f70)
    ensures Execute(cfg, s, first, pc) == Refused(UndefinedInstruction)
  {
    LongDecodes(cfg, s, first, second, pc);
  }
}
