/** The compare instructions and the conditional branches behind them. */
module ThumbCompares {
  import opened ThumbWords
  import opened ThumbMachine

  /** CMP with an immediate, of two low registers, or of any two. */
  predicate Comparing(h: nat) {
    h / 2048 == 5 || h / 64 == 0x10a || h / 256 == 0x45
  }

  /** What it compares, */
  function Left(s: State, h: nat, pc: int): int
    requires Comparing(h)
  {
    if h / 2048 == 5 then s.r[(h / 256) % 8]
    else if h / 64 == 0x10a then s.r[h % 8]
    else Operand(s, pc, 8 * ((h / 128) % 2) + h % 8)
  }

  /** and with what. */
  function Right(s: State, h: nat, pc: int): int
    requires Comparing(h)
  {
    if h / 2048 == 5 then h % 256
    else if h / 64 == 0x10a then s.r[(h / 8) % 8]
    else Operand(s, pc, (h / 8) % 16)
  }

  lemma LowComparesDecode(cfg: Setup, s: State, h: nat, pc: int)
    requires h / 64 == 0x10a
    ensures Execute(cfg, s, h, pc) == Went((DataProcessing(s, 10, (h / 8) % 8, h % 8), false))
  {
    assert h / 1024 == 0x10 && (h / 64) % 16 == 10;
  }

  /** Every compare changes the flags and nothing else, whatever the registers hold. */
  lemma ComparesOnlyFlags(cfg: Setup, s: State, h: nat, pc: int)
    requires Comparing(h)
    ensures Execute(cfg, s, h, pc) == Went((s.(f := Compare(Left(s, h, pc), Right(s, h, pc))), false))
  {
    if h / 2048 == 5 {
      assert h / 8192 == 1;
    } else if h / 64 == 0x10a {
      LowComparesDecode(cfg, s, h, pc);
    } else {
      assert h / 1024 == 0x11;
    }
  }

  lemma CarryOfNegative(a: int, x: int, b: int)
    requires -HALF <= a < 0 && x == a + WORD && IsWord(b)
    ensures AddWithCarry(a, b, 1).flags == AddWithCarry(x, b, 1).flags.(c := false)
  {
    SignedReading(a);
    Wraps(a);
    Wraps(a + b + 1);
    Wraps(x + b + 1);
  }

  /** After a negative first operand the flags are those of the words, but never C. */
  lemma CompareOfNegative(a: int, b: int)
    requires -HALF <= a < WORD && -HALF <= b < WORD
    ensures var word := Compare(a % WORD, b % WORD); Compare(a, b) == word.(c := a >= 0 && word.c)
  {
    NotOfMasked(b);
    Wraps(a);
    if a < 0 {
      CarryOfNegative(a, a % WORD, Not(b));
    }
  }

  /** So of integers that may be signs extended the conditions say what they say of
      the words, except for the unsigned orders after a negative first operand: those
      find it lower whatever it is compared with. */
  lemma FlagsOfNegative(a: int, b: int, code: nat)
    requires -HALF <= a < WORD && -HALF <= b < WORD && code < 14
    ensures (Condition(code, Compare(a, b)) <==> Related(code, a % WORD, b % WORD)) <==>
              (a < 0 && (code == 2 || code == 3) ==> a % WORD < b % WORD) &&
              (a < 0 && (code == 8 || code == 9) ==> a % WORD <= b % WORD)
  {
    CompareOfNegative(a, b);
    FlagsOnWords(a >= 0, a % WORD, b % WORD, code);
  }

  lemma FlagsOnWords(right: bool, x: int, y: int, code: nat)
    requires IsWord(x) && IsWord(y) && code < 14
    ensures var f := Compare(x, y);
            (Condition(code, f.(c := right && f.c)) <==> Related(code, x, y)) <==>
              (!right && (code == 2 || code == 3) ==> x < y) && (!right && (code == 8 || code == 9) ==> x <= y)
  {
    ConditionsDecide(x, y, code);
    CompareFlags(x, y);
  }

  lemma NotOfMasked(b: int)
    requires -HALF <= b < WORD
    ensures Not(b) == Not(b % WORD) && IsWord(Not(b))
  {
    Wraps(b);
    Wraps(-b - 1);
    Wraps(-(b % WORD) - 1);
  }

  lemma BranchDecodes(cfg: Setup, s: State, code: nat, offset: nat, pc: int)
    requires code < 14 && offset < 256
    ensures Execute(cfg, s, 0xd000 + 256 * code + offset, pc)
         == Went((if Condition(code, s.f) then Set(s, 15, (pc + 4 + Sign(offset, 8) * 2) % WORD) else s, false))
  {
    var h := 0xd000 + 256 * code + offset;
    DivUnique(h, 256, 0xd0 + code, offset);
    assert h / 4096 == 13 && (h / 256) % 16 == code && h % 256 == offset;
  }

  /** The state past a compare of `a` with `b` at `pc`: only the flags and the program
      counter change. */
  function Compared(s: State, a: int, b: int, pc: int): State {
    Set(s, 15, pc + 2).(f := Compare(a, b))
  }

  lemma CompareSteps(cfg: Setup, s: State, h: nat, pc: int, a: int, b: int)
    requires Comparing(h) && pc == s.r[15] && Load(cfg, s, pc, 2, false) == Went((s, h))
    requires a == Left(s, h, pc) && b == Right(s, h, pc)
    ensures Step(cfg, s) == Went((Compared(s, a, b, pc), false))
  {
    SameOperands(s, Set(s, 15, pc + 2), h, pc);
    ComparesOnlyFlags(cfg, Set(s, 15, pc + 2), h, pc);
  }

  lemma SameInstruction(cfg: Setup, s: State, t: State, address: int, h: nat)
    requires t.memory == s.memory && Load(cfg, s, address, 2, false) == Went((s, h))
    ensures Load(cfg, t, address, 2, false) == Went((t, h))
  {
  }

  /** A branch behind a compare of two words is taken exactly where they are so
      related: `t` is the state between them. */
  lemma CompareThenBranch(cfg: Setup, s: State, h: nat, code: nat, offset: nat, pc: int, a: int, b: int, t: State)
    requires Comparing(h) && code < 14 && offset < 256 && pc == s.r[15]
    requires Load(cfg, s, pc, 2, false) == Went((s, h)) && Step(cfg, s) == Went((t, false))
    requires Load(cfg, s, pc + 2, 2, false) == Went((s, 0xd000 + 256 * code + offset))
    requires a == Left(s, h, pc) && b == Right(s, h, pc) && IsWord(a) && IsWord(b)
    ensures var there := (pc + 6 + Sign(offset, 8) * 2) % WORD;
            Step(cfg, t) == Went((Set(t, 15, if Related(code, a, b) then there else pc + 4), false))
  {
    CompareSteps(cfg, s, h, pc, a, b);
    SameInstruction(cfg, s, t, pc + 2, 0xd000 + 256 * code + offset);
    BranchesOn(cfg, t, a, b, code, offset, pc + 2);
  }

  /** A branch on flags that compare two words. */
  lemma BranchesOn(cfg: Setup, s: State, a: int, b: int, code: nat, offset: nat, pc: int)
    requires code < 14 && offset < 256 && s.r[15] == pc && s.f == Compare(a, b) && IsWord(a) && IsWord(b)
    requires Load(cfg, s, pc, 2, false) == Went((s, 0xd000 + 256 * code + offset))
    ensures var there := (pc + 4 + Sign(offset, 8) * 2) % WORD;
            Step(cfg, s) == Went((Set(s, 15, if Related(code, a, b) then there else pc + 2), false))
  {
    ConditionsDecide(a, b, code);
    BranchSteps(cfg, s, code, offset, pc);
  }

  lemma BranchSteps(cfg: Setup, s: State, code: nat, offset: nat, pc: int)
    requires code < 14 && offset < 256 && s.r[15] == pc
    requires Load(cfg, s, pc, 2, false) == Went((s, 0xd000 + 256 * code + offset))
    ensures Step(cfg, s)
         == Went((Set(s, 15, if Condition(code, s.f) then (pc + 4 + Sign(offset, 8) * 2) % WORD else pc + 2), false))
  {
    BranchDecodes(cfg, Set(s, 15, pc + 2), code, offset, pc);
    Overwrites(s, pc + 2, (pc + 4 + Sign(offset, 8) * 2) % WORD);
  }

  lemma Overwrites(s: State, once: int, twice: int)
    ensures Set(Set(s, 15, once), 15, twice) == Set(s, 15, twice)
  {
  }

  lemma SameOperands(s: State, t: State, h: nat, pc: int)
    requires Comparing(h) && forall i :: 0 <= i < 15 ==> t.r[i] == s.r[i]
    ensures Left(t, h, pc) == Left(s, h, pc) && Right(t, h, pc) == Right(s, h, pc)
  {
  }
}
