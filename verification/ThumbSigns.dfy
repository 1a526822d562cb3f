/** The registers that a sign-extending instruction leaves negative: exactly when a
    run has none, and what additions and shifts make of one. */
module ThumbSigns {
  import opened Options
  import opened ThumbWords
  import opened ThumbMachine
  import opened ThumbRanges
  import opened ThumbBits

  // ------------------------------------------------------------------
  // Exactly when a run holds words

  function Loaded(cfg: Setup, s: State, address: int, width: nat): nat
    requires Width(width)
  {
    var loaded := Load(cfg, s, address, width, true);
    if loaded.Went? then loaded.value.1 else 0
  }

  /** If the instruction extends a sign, the sign bit of what it reads is clear. */
  predicate SignIsClear(cfg: Setup, s: State, h: nat) {
    var value, op := s.r[(h / 8) % 8], (h / 64) % 4;
    if h / 4096 == 5 && (h / 512) % 8 == 3 then Loaded(cfg, s, RegisterAddress(s, h), 1) < 0x80
    else if h / 4096 == 5 && (h / 512) % 8 == 7 then Loaded(cfg, s, RegisterAddress(s, h), 2) < 0x8000
    else if h / 256 == 0xb2 && op == 0 then value % 0x1_0000 < 0x8000
    else if h / 256 == 0xb2 && op == 1 then value % 0x100 < 0x80
    else h / 256 == 0xba && op == 3 ==> value % 0x100 < 0x80
  }

  function RegisterAddress(s: State, h: nat): int {
    (s.r[(h / 8) % 8] + s.r[(h / 64) % 8]) % WORD
  }

  lemma ReverseIsWord(s: State, h: nat)
    requires Ranged(s, 0) && (h / 64) % 4 == 3
    ensures Reverse(s, h).Went?
    ensures Ranged(Reverse(s, h).value, 0) <==> s.r[(h / 8) % 8] % 0x100 < 0x80
  {
    SetIsWord(s, h % 8, Swapped(s.r[(h / 8) % 8], 3));
    SwappedRange(s.r[(h / 8) % 8], 3);
  }

  lemma SetIsWord(s: State, d: nat, value: int)
    requires Ranged(s, 0) && d < 8
    ensures Ranged(Set(s, d, value), 0) <==> IsWord(value)
  {
    assert Set(s, d, value).r[d] == value;
  }

  lemma SignedLoadIsWord(cfg: Setup, s: State, h: nat, pc: int, op: nat)
    requires Ranged(s, 0) && h / 4096 == 5 && op == (h / 512) % 8 && (op == 3 || op == 7)
    requires Execute(cfg, s, h, pc).Went?
    ensures Ranged(Execute(cfg, s, h, pc).value.0, 0) <==> SignIsClear(cfg, s, h)
  {
    var address, width := RegisterAddress(s, h), if op == 3 then 1 else 2;
    RegisterOffsetIs(cfg, s, h, op, address);
    LoadSignedIsWord(cfg, s, h % 8, address, width);
  }

  lemma SignedRegisterIsWord(cfg: Setup, s: State, h: nat)
    requires Ranged(s, 0) && SignExtending(h) && h / 4096 == 11 && Miscellaneous(cfg, s, h).Went?
    ensures Ranged(Miscellaneous(cfg, s, h).value.0, 0) <==> SignIsClear(cfg, s, h)
  {
    if h / 256 == 0xb2 {
      ExtendIsWord(s, h);
    } else {
      ReverseIsWord(s, h);
    }
  }

  /** An instruction leaves r0 to r12 words exactly when the sign it extends, if
      any, is clear. */
  lemma ExecuteIsWord(cfg: Setup, s: State, h: nat, pc: int)
    requires Ranged(s, 0) && Execute(cfg, s, h, pc).Went?
    ensures Ranged(Execute(cfg, s, h, pc).value.0, 0) <==> SignIsClear(cfg, s, h)
  {
    if !SignExtending(h) {
      ExecuteRanged(cfg, s, h, pc, 0);
    } else if h / 4096 == 5 {
      SignedLoadIsWord(cfg, s, h, pc, (h / 512) % 8);
    } else {
      assert h / 4096 == 11;
      SignedRegisterIsWord(cfg, s, h);
    }
  }

  /** The same of a step. */
  predicate ReadsClear(cfg: Setup, s: State) {
    SignIsClear(cfg, s, Fetched(cfg, s))
  }

  lemma StepIsWord(cfg: Setup, s: State)
    requires Ranged(s, 0) && Step(cfg, s).Went?
    ensures Ranged(Step(cfg, s).value.0, 0) <==> ReadsClear(cfg, s)
  {
    var t := Set(s, 15, s.r[15] + 2);
    SetRanged(s, 15, s.r[15] + 2, 0);
    ExecuteIsWord(cfg, t, Fetched(cfg, s), s.r[15]);
    SameRead(cfg, s, t, Fetched(cfg, s));
  }

  lemma SameRead(cfg: Setup, s: State, t: State, h: nat)
    requires t.memory == s.memory && forall i :: 0 <= i < 8 ==> t.r[i] == s.r[i]
    ensures SignIsClear(cfg, s, h) == SignIsClear(cfg, t, h)
  {
  }

  /** A step that goes through reads no sign that is set. */
  ghost predicate ExtendsClear(cfg: Setup, s: State) {
    Step(cfg, s).Went? ==> ReadsClear(cfg, s)
  }

  /** Every state of a run from words holds words if and only if every sign-extending
      step of it reads a value with its sign bit clear. */
  lemma RunHoldsWords(cfg: Setup, s: State, limit: nat, until: Option<int -> bool>)
    requires Ranged(s, 0)
    ensures Always(MachineOf(cfg), s, limit, until, x => Ranged(x, 0))
       <==> Throughout(MachineOf(cfg), s, limit, until, x => ExtendsClear(cfg, x))
  {
    var step, such, inv := MachineOf(cfg), (x: State) => ExtendsClear(cfg, x), (x: State) => Ranged(x, 0);
    forall x: State | inv(x)
      ensures such(x) <==> (step(x).Went? ==> inv(step(x).value.0))
    {
      if Step(cfg, x).Went? {
        StepIsWord(cfg, x);
      }
    }
    AlwaysExactly(step, s, limit, until, such, inv);
  }

  // ------------------------------------------------------------------
  // Shifts of a negative register

  ghost predicate Negative(value: int, word: int) {
    -HALF <= value < 0 && word == value + WORD
  }

  lemma {:induction false} DownOfWord(value: int, word: int, n: nat)
    requires Negative(value, word) && n <= 32
    ensures Down(word, n) == Down(value, n) + Pow2(32 - n)
  {
    Pow2Facts();
    if n > 0 {
      DownOfWord(value, word, n - 1);
    }
  }

  lemma {:induction false} DownOfNegative(value: int, n: nat)
    requires -HALF <= value < 0
    ensures -HALF <= Down(value, n) < 0 && (n >= 31 ==> Down(value, n) == -1)
  {
    if n > 31 {
      DownOfNegative(value, n - 1);
    } else if n == 31 {
      Pow2Facts();
      DownIsFloor(value, n);
    } else if n > 0 {
      DownOfNegative(value, n - 1);
    }
  }

  lemma {:induction false} UpOfWord(value: int, word: int, n: nat)
    requires word % WORD == value % WORD
    ensures Up(word, n) % WORD == Up(value, n) % WORD
  {
    if n > 0 {
      UpOfWord(value, word, n - 1);
      DoubleOfMasked(Up(word, n - 1));
      DoubleOfMasked(Up(value, n - 1));
    }
  }

  /** LSL does the same to a negative register as to its word. */
  lemma LslOfNegative(value: int, word: int, n: nat, carry: bool)
    requires Negative(value, word)
    ensures Shift(0, value, n, carry).0 % WORD == Shift(0, word, n, carry).0 % WORD
    ensures Shift(0, value, n, carry).1 == Shift(0, word, n, carry).1
  {
    Wraps(value);
    UpOfWord(value, word, n);
    if 0 < n <= 32 {
      DownOfWord(value, word, 32 - n);
    }
  }

  /** LSR shifts ones in, so the result is right only where nothing of the register
      is left, or all of it; the carry always is. */
  lemma LsrOfNegative(value: int, word: int, n: nat, carry: bool)
    requires Negative(value, word)
    ensures Shift(1, value, n, carry).0 % WORD == Shift(1, word, n, carry).0 % WORD <==> n == 0 || n >= 32
    ensures Shift(1, value, n, carry).1 == Shift(1, word, n, carry).1
  {
    Wraps(value);
    if 0 < n <= 32 {
      DownOfWord(value, word, n - 1);
      assert Pow2(32 - (n - 1)) == 2 * Pow2(32 - n);
    }
    if 0 < n < 32 {
      DownOfNegative(value, n);
      Wraps(Down(value, n));
      WordFalls(word, n);
    }
  }

  lemma WordFalls(word: int, n: nat)
    requires IsWord(word) && n > 0
    ensures 0 <= Down(word, n) < HALF
  {
    DownHalf(word, n - 1);
    DownRange(word / 2, n - 1, 0);
    DownBelow(word / 2, n - 1);
  }

  lemma {:induction false} DownBelow(x: int, n: nat)
    requires 0 <= x < HALF
    ensures 0 <= Down(x, n) < HALF
  {
    if n > 0 {
      DownBelow(x, n - 1);
    }
  }

  /** ASR reads the register as signed, which is the same number. */
  lemma AsrOfNegative(value: int, word: int, n: nat, carry: bool)
    requires Negative(value, word)
    ensures Shift(2, value, n, carry).0 % WORD == Shift(2, word, n, carry).0 % WORD
    ensures Shift(2, value, n, carry).1 == Shift(2, word, n, carry).1
  {
    Wraps(value);
    SignedReading(value);
  }

  lemma {:induction false} UpBit(x: int, n: nat, i: nat)
    ensures BitOf(Up(x, n), i) <==> i >= n && BitOf(x, i - n)
  {
    if n > 0 && i > 0 {
      BitOfHalf(Up(x, n), i);
      UpBit(x, n - 1, i - 1);
    }
  }

  lemma DownBit(x: int, n: nat, i: nat)
    ensures BitOf(Down(x, n), i) == BitOf(x, n + i)
  {
    DownDown(x, n, i, n + i);
  }

  /** The rotation the source computes, of integers of either sign. */
  function Turned(x: int, turn: nat): nat
    requires turn < 32
  {
    Bitwise(Or, Down(x, turn), Up(x, 32 - turn), WIDTH)
  }

  lemma TurnedBit(x: int, turn: nat, i: nat)
    requires turn < 32 && i < 32
    ensures BitOf(Turned(x, turn), i) <==> BitOf(x, turn + i) || (i >= 32 - turn && BitOf(x, i - (32 - turn)))
  {
    BitwiseBit(Or, Down(x, turn), Up(x, 32 - turn), WIDTH, i);
    DownBit(x, turn, i);
    UpBit(x, 32 - turn, i);
  }

  lemma BitsOfNegative(value: int, word: int, i: nat)
    requires Negative(value, word)
    ensures i < 32 ==> BitOf(word, i) == BitOf(value, i)
    ensures i >= 32 ==> BitOf(value, i) && !BitOf(word, i)
  {
    Wraps(value);
    if i < 32 {
      MaskedBit(value, i);
    } else {
      DownOfNegative(value, i);
      WordEnds(word);
      DownDown(word, 32, i - 32, i);
      DownOfZero(i - 32);
    }
  }

  /** The low bits are all set. */
  ghost predicate LowBitsSet(value: int, n: nat) {
    forall j :: 0 <= j < n ==> BitOf(value, j)
  }

  lemma TurnedBitOfNegative(value: int, word: int, turn: nat, i: nat)
    requires Negative(value, word) && turn < 32 && i < 32
    ensures BitOf(Turned(value, turn), i) <==> i >= 32 - turn || BitOf(Turned(word, turn), i)
    ensures i >= 32 - turn ==> BitOf(Turned(word, turn), i) == BitOf(value, i - (32 - turn))
  {
    TurnedBit(value, turn, i);
    TurnedBit(word, turn, i);
    BitsOfNegative(value, word, turn + i);
    if i >= 32 - turn {
      BitsOfNegative(value, word, i - (32 - turn));
    }
  }

  lemma TurnedOfNegative(value: int, word: int, turn: nat)
    requires Negative(value, word) && turn < 32
    ensures Turned(value, turn) == Turned(word, turn) <==> LowBitsSet(value, turn)
    ensures Turned(value, turn) >= HALF
    ensures Turned(word, turn) >= HALF <==> turn == 0 || BitOf(value, turn - 1)
  {
    Pow2Facts();
    if LowBitsSet(value, turn) {
      forall i | 0 <= i < 32
        ensures BitOf(Turned(value, turn), i) == BitOf(Turned(word, turn), i)
      {
        TurnedBitOfNegative(value, word, turn, i);
      }
      SameWords(Turned(value, turn), Turned(word, turn));
    }
    if Turned(value, turn) == Turned(word, turn) {
      forall j | 0 <= j < turn
        ensures BitOf(value, j)
      {
        TurnedBitOfNegative(value, word, turn, j + (32 - turn));
      }
    }
    TurnedTop(value, word, turn);
  }

  lemma TurnedTop(value: int, word: int, turn: nat)
    requires Negative(value, word) && turn < 32
    ensures Turned(value, turn) >= HALF
    ensures Turned(word, turn) >= HALF <==> turn == 0 || BitOf(value, turn - 1)
  {
    Pow2Facts();
    TopBit(Turned(value, turn));
    TopBit(Turned(word, turn));
    TurnedBit(value, turn, 31);
    TurnedBit(word, turn, 31);
    BitsOfNegative(value, word, turn + 31);
    DownOfNegative(value, 31);
    if turn > 0 {
      BitsOfNegative(value, word, turn - 1);
    }
  }

  lemma ShiftIsTurned(x: int, n: nat, turn: nat, carry: bool)
    requires n > 0 && turn == n % 32
    ensures Shift(3, x, n, carry).0 % WORD == Turned(x, turn) && Shift(3, x, n, carry).1 == (Turned(x, turn) >= HALF)
  {
    Pow2Facts();
  }

  /** ROR is right where what it turns round is all ones, its carry where the last
      bit turned round is one. */
  lemma RorOfNegative(value: int, word: int, n: nat, turn: nat, carry: bool)
    requires Negative(value, word) && turn == n % 32
    ensures Shift(3, value, n, carry).0 % WORD == Shift(3, word, n, carry).0 % WORD <==> LowBitsSet(value, turn)
    ensures Shift(3, value, n, carry).1 == Shift(3, word, n, carry).1 <==> turn == 0 || BitOf(value, turn - 1)
  {
    if n == 0 {
      Wraps(value);
    } else {
      ShiftIsTurned(value, n, turn, carry);
      ShiftIsTurned(word, n, turn, carry);
      TurnedOfNegative(value, word, turn);
    }
  }

  /** An immediate shift of a negative register writes the right word and flags, up
      to the mask, unless it is LSR by less than 32; what it writes is a word except
      there and where LSL by nothing moves the register. */
  lemma ShiftImmediateOfNegative(s: State, h: nat, word: int)
    requires Negative(s.r[(h / 8) % 8], word) && (h / 2048) % 4 < 3
    ensures var t, u := ShiftImmediate(s, h), ShiftImmediate(Set(s, (h / 8) % 8, word), h);
            && (t.r[h % 8] % WORD == u.r[h % 8] % WORD && t.f == u.f <==> (h / 2048) % 4 != 1 || (h / 64) % 32 == 0)
            && t.f.c == u.f.c
    ensures IsWord(ShiftImmediate(s, h).r[h % 8]) <==>
              ((h / 2048) % 4 == 0 ==> (h / 64) % 32 != 0) && ((h / 2048) % 4 == 1 ==> (h / 64) % 32 == 0)
  {
    var kind, field, value := (h / 2048) % 4, (h / 64) % 32, s.r[(h / 8) % 8];
    if kind == 0 {
      LslOfNegative(value, word, field, s.f.c);
    } else if kind == 1 {
      LsrOfNegative(value, word, if field == 0 then 32 else field, s.f.c);
      DownOfNegative(value, field);
    } else {
      AsrOfNegative(value, word, if field == 0 then 32 else field, s.f.c);
    }
  }

  // ------------------------------------------------------------------
  // A compare gone wrong

  /** SXTB r0, r0 and CMP r0, #0. */
  const EXTEND_AND_COMPARE: Memory := map[0 := 0x40, 1 := 0xb2, 2 := 0x00, 3 := 0x28]

  const BARE := Setup([(0, 4)], [], (address: int, width: nat) => 0, false)

  function Started(value: int): State {
    State([value, 0, 0, 0, 0, 0, 0, 0, 0, 0, 0, 0, 0, 0, 0, 0],
          Flags(false, false, false, false), EXTEND_AND_COMPARE, [])
  }

  lemma FetchesProgram(s: State)
    requires s.memory == EXTEND_AND_COMPARE
    ensures Load(BARE, s, 0, 2, false) == Went((s, 0xb240)) && Load(BARE, s, 2, 2, false) == Went((s, 0x2800))
  {
    assert BARE.regions[0] == (0, 4);
    assert Inside(BARE, 0, 2) && Inside(BARE, 2, 2);
    assert Bytes(s.memory, 2, 0) == 0 && Bytes(s.memory, 4, 0) == 0;
    assert Bytes(s.memory, 1, 1) == 0xb2 && Bytes(s.memory, 3, 1) == 0x28;
  }

  lemma ExtendsByte(s: State)
    requires s.r[0] == 0x80 && s.r[15] == 0 && s.memory == EXTEND_AND_COMPARE
    ensures Step(BARE, s) == Went((Set(Set(s, 15, 2), 0, -0x80), false))
  {
    FetchesProgram(s);
    SignOfByte();
    assert Extend(Set(s, 15, 2), 0xb240) == Set(Set(s, 15, 2), 0, -0x80);
  }

  lemma SignOfByte()
    ensures Sign(0x80, 8) == -0x80
  {
    Pow2Facts();
    assert Pow2(8) == 2 * Pow2(7);
  }

  lemma ComparesZero(s: State)
    requires s.r[15] == 2 && s.memory == EXTEND_AND_COMPARE
    ensures Step(BARE, s) == Went((Set(s, 15, 4).(f := Compare(s.r[0], 0)), false))
  {
    FetchesProgram(s);
  }

  /** A run of the two over 0x80: no word is below zero, yet after it the compare says
      lower; with the word in the register it would not. */
  lemma SignedCompareHappens()
    ensures var end := Run(BARE, Started(0x80), 3, Some(pc => pc == 4));
            && end.Went? && end.value.r[0] == -0x80
            && Condition(3, end.value.f) && !Condition(3, Compare(-0x80 % WORD, 0))
  {
    var s, until := Started(0x80), Some((pc: int) => pc == 4);
    ExtendsByte(s);
    var t := Set(Set(s, 15, 2), 0, -0x80);
    ComparesZero(t);
    var u := Set(t, 15, 4).(f := Compare(-0x80, 0));
    var step := MachineOf(BARE);
    assert RunOf(step, u, 1, until) == Went(u);
    assert RunOf(step, t, 2, until) == Went(u);
    assert RunOf(step, s, 3, until) == Went(u);
    assert Not(0) == WORD - 1;
  }
}
