/** What the data-processing instructions compute: each bit of a bitwise result,
    products and negations modulo the width, and nothing else changed. */
module ThumbBits {
  import opened ThumbWords
  import opened ThumbMachine
  import opened ThumbRanges

  // ------------------------------------------------------------------
  // Bits

  lemma BitOfHalf(x: int, i: nat)
    requires i > 0
    ensures BitOf(x, i) == BitOf(x / 2, i - 1)
  {
    DownHalf(x, i - 1);
  }

  predicate Joined(op: BitOp, p: bool, q: bool) {
    match op
    case And => p && q
    case Or => p || q
    case Xor => p != q
  }

  lemma BitwiseHalf(op: BitOp, a: int, b: int, bits: nat)
    requires bits > 0
    ensures Bitwise(op, a, b, bits) / 2 == Bitwise(op, a / 2, b / 2, bits - 1)
    ensures BitOf(Bitwise(op, a, b, bits), 0) == Joined(op, BitOf(a, 0), BitOf(b, 0))
  {
  }

  lemma {:induction false} BitwiseBit(op: BitOp, a: int, b: int, bits: nat, i: nat)
    requires i < bits
    ensures BitOf(Bitwise(op, a, b, bits), i) == Joined(op, BitOf(a, i), BitOf(b, i))
    decreases i
  {
    BitwiseHalf(op, a, b, bits);
    if i > 0 {
      BitOfHalf(a, i);
      BitOfHalf(b, i);
      BitOfHalf(Bitwise(op, a, b, bits), i);
      BitwiseBit(op, a / 2, b / 2, bits - 1, i - 1);
    }
  }

  lemma {:induction false} LowBit(x: int, bits: nat, i: nat)
    requires i < bits
    ensures BitOf(Low(x, bits), i) == BitOf(x, i)
    decreases i
  {
    if i > 0 {
      BitOfHalf(x, i);
      BitOfHalf(Low(x, bits), i);
      LowBit(x / 2, bits - 1, i - 1);
    }
  }

  lemma MaskedBit(x: int, i: nat)
    requires i < 32
    ensures BitOf(x % WORD, i) == BitOf(x, i)
  {
    LowOfWord(x, WIDTH);
    LowBit(x, WIDTH, i);
  }

  lemma {:induction false} ComplementBit(x: int, i: nat)
    ensures Down(-x - 1, i) == -Down(x, i) - 1
    ensures BitOf(-x - 1, i) == !BitOf(x, i)
  {
    if i > 0 {
      ComplementBit(x, i - 1);
    }
  }

  /** Numbers of so many bits are told apart by one of them. */
  lemma {:induction false} SameBits(x: int, y: int, bits: nat)
    requires 0 <= x < Pow2(bits) && 0 <= y < Pow2(bits) && forall i :: 0 <= i < bits ==> BitOf(x, i) == BitOf(y, i)
    ensures x == y
  {
    if bits > 0 {
      assert BitOf(x, 0) == BitOf(y, 0);
      forall i | 0 <= i < bits - 1
        ensures BitOf(x / 2, i) == BitOf(y / 2, i)
      {
        BitOfHalf(x, i + 1);
        BitOfHalf(y, i + 1);
      }
      SameBits(x / 2, y / 2, bits - 1);
    }
  }

  lemma SameWords(x: int, y: int)
    requires IsWord(x) && IsWord(y) && forall i :: 0 <= i < 32 ==> BitOf(x, i) == BitOf(y, i)
    ensures x == y
  {
    Pow2Facts();
    SameBits(x, y, 32);
  }

  // ------------------------------------------------------------------
  // Data processing

  predicate IsLogical(op: nat) {
    op == 0 || op == 1 || op == 12 || op == 14 || op == 15
  }

  predicate IsShift(op: nat) {
    op == 2 || op == 3 || op == 4 || op == 7
  }

  /** Only the destination and the flags change, and a test or compare changes
      only the flags. */
  lemma OnlyDestination(s: State, op: nat, m: nat, d: nat)
    requires op < 16 && m < 8 && d < 8
    ensures var t := DataProcessing(s, op, m, d);
            && (forall i :: 0 <= i < 16 && i != d ==> t.r[i] == s.r[i])
            && (op == 8 || op == 10 || op == 11 ==> t.r == s.r)
            && t.memory == s.memory && t.accesses == s.accesses
  {
  }

  /** N and Z describe what is written, and of the others logic leaves C and V
      alone and a shift V. */
  lemma DescribesResult(s: State, op: nat, m: nat, d: nat)
    requires op < 16 && m < 8 && d < 8
    ensures var t := DataProcessing(s, op, m, d);
            && (IsLogical(op) || op == 8 || op == 13 ==> t.f.c == s.f.c)
            && (IsLogical(op) || op == 8 || op == 13 || IsShift(op) ==> t.f.v == s.f.v)
            && (op != 8 && op != 10 && op != 11 ==>
                  IsWord(t.r[d]) && (t.f.n <==> t.r[d] >= HALF) && (t.f.z <==> t.r[d] == 0))
  {
  }

  /** Every bit of AND, EOR, ORR, BIC and MVN, of any two registers. */
  lemma LogicalBits(s: State, op: nat, m: nat, d: nat, i: nat)
    requires IsLogical(op) && m < 8 && d < 8 && i < 32
    ensures var x, y, z := BitOf(s.r[d], i), BitOf(s.r[m], i), BitOf(DataProcessing(s, op, m, d).r[d], i);
            && (op == 0 ==> (z <==> x && y))
            && (op == 1 ==> (z <==> x != y))
            && (op == 12 ==> (z <==> x || y))
            && (op == 14 ==> (z <==> x && !y))
            && (op == 15 ==> (z <==> !y))
  {
    var a, b := s.r[d], s.r[m];
    ComplementBit(b, i);
    if op == 15 {
      MaskedBit(-b - 1, i);
    } else {
      var join, c := if op == 1 then Xor else if op == 12 then Or else And, if op == 14 then -b - 1 else b;
      BitwiseBit(join, a, c, WIDTH, i);
      MaskedBit(Bitwise(join, a, c, WIDTH), i);
    }
  }

  /** No bit is in both of two words. */
  ghost predicate Apart(a: int, b: int) {
    forall i :: 0 <= i < 32 ==> !(BitOf(a, i) && BitOf(b, i))
  }

  lemma AndOfApart(a: int, b: int)
    ensures Bitwise(And, a, b, WIDTH) == 0 <==> Apart(a, b)
  {
    var both := Bitwise(And, a, b, WIDTH);
    Pow2Facts();
    forall i | 0 <= i < 32
      ensures BitOf(both, i) == (BitOf(a, i) && BitOf(b, i)) && !BitOf(0, i)
    {
      BitwiseBit(And, a, b, WIDTH, i);
      DownOfZero(i);
    }
    if Apart(a, b) {
      SameWords(both, 0);
    }
  }

  /** TST: Z says that the operands have no bit in common, N that they share the top one. */
  lemma TestBits(s: State, m: nat, d: nat)
    requires m < 8 && d < 8
    ensures var f := DataProcessing(s, 8, m, d).f;
            (f.z <==> Apart(s.r[d], s.r[m])) && (f.n <==> BitOf(s.r[d], 31) && BitOf(s.r[m], 31))
  {
    AndOfApart(s.r[d], s.r[m]);
    Pow2Facts();
    BitwiseBit(And, s.r[d], s.r[m], WIDTH, 31);
    TopBit(Bitwise(And, s.r[d], s.r[m], WIDTH));
  }

  lemma ProductOfMasked(a: int, b: int)
    ensures (a * b) % WORD == ((a % WORD) * (b % WORD)) % WORD
  {
    var p, q, x, y := a / WORD, b / WORD, a % WORD, b % WORD;
    var k := p * b + x * q;
    assert a * b == WORD * k + x * y by {
      assert a * b == (WORD * p + x) * b == WORD * (p * b) + x * b;
      assert x * b == x * (WORD * q + y) == WORD * (x * q) + x * y;
    }
    DivUnique(a * b, WORD, k + (x * y) / WORD, (x * y) % WORD);
  }

  /** MULS: the product of the words, whatever sign the registers have. */
  lemma MultiplyIsProduct(s: State, m: nat, d: nat)
    requires m < 8 && d < 8
    ensures DataProcessing(s, 13, m, d).r[d] == ((s.r[d] % WORD) * (s.r[m] % WORD)) % WORD
  {
    ProductOfMasked(s.r[d], s.r[m]);
  }

  /** RSBS: what added to the operand gives zero; C says the operand is zero and V
      that it is the one word without an opposite. */
  lemma NegateIsOpposite(s: State, m: nat, d: nat)
    requires m < 8 && d < 8
    ensures var t := DataProcessing(s, 9, m, d); var b := s.r[m] % WORD;
            && t.r[d] == (if b == 0 then 0 else WORD - b)
            && (t.f.c <==> b == 0) && (t.f.v <==> b == HALF)
  {
    var b := s.r[m];
    assert Not(b) == WORD - 1 - b % WORD by {
      DivUnique(-b - 1, WORD, -(b / WORD) - 1, WORD - 1 - b % WORD);
    }
    AddIsExact(Not(b), 0, 1);
    SignedReading(Not(b));
  }

  /** ADCS on words. */
  lemma AddsCarry(s: State, m: nat, d: nat)
    requires m < 8 && d < 8 && IsWord(s.r[d]) && IsWord(s.r[m])
    ensures var t := DataProcessing(s, 5, m, d); var sum := s.r[d] + s.r[m] + (if s.f.c then 1 else 0);
            t.r[d] == sum % WORD && (t.f.c <==> sum >= WORD)
  {
    var carry := if s.f.c then 1 else 0;
    AddIsExact(s.r[d], s.r[m], carry);
    Wraps(s.r[d] + s.r[m] + carry);
  }

  /** SBCS on words: C is the absence of a borrow, before and after. */
  lemma SubtractsBorrow(s: State, m: nat, d: nat)
    requires m < 8 && d < 8 && IsWord(s.r[d]) && IsWord(s.r[m])
    ensures var t := DataProcessing(s, 6, m, d); var difference := s.r[d] - s.r[m] - (if s.f.c then 0 else 1);
            t.r[d] == difference % WORD && (t.f.c <==> difference >= 0)
  {
    var a, b, carry := s.r[d], s.r[m], if s.f.c then 1 else 0;
    NotOfWord(b);
    AddIsExact(a, Not(b), carry);
    Wraps(a - b - 1 + carry);
  }

  /** CMN compares with the opposite: the flags are those of the sum. */
  lemma ComparesSum(s: State, m: nat, d: nat)
    requires m < 8 && d < 8 && IsWord(s.r[d]) && IsWord(s.r[m])
    ensures var f := DataProcessing(s, 11, m, d).f; var sum := s.r[d] + s.r[m];
            && (f.z <==> sum % WORD == 0) && (f.c <==> sum >= WORD) && (f.n <==> sum % WORD >= HALF)
            && (f.v <==> !(-HALF <= ToSigned(s.r[d]) + ToSigned(s.r[m]) < HALF))
  {
    AddIsExact(s.r[d], s.r[m], 0);
    Wraps(s.r[d] + s.r[m]);
  }

  lemma ShiftsWithinWords(kind: nat, value: int, amount: nat, carry: bool)
    requires kind < 4 && IsWord(value)
    ensures Shift(kind, value, amount, carry) == Shifts(kind, value, amount, carry)
    ensures IsWord(Shift(kind, value, amount, carry).0)
  {
    ShiftIsShifts(kind, value, amount, carry);
    ShiftRange(kind, value, amount, carry, 0);
  }

  lemma ShiftsRegister(s: State, op: nat, m: nat, d: nat, kind: nat, shifted: (int, bool))
    requires IsShift(op) && m < 8 && d < 8 && kind == (if op == 7 then 3 else op - 2)
    requires shifted == Shift(kind, s.r[d], s.r[m] % 256, s.f.c) && IsWord(shifted.0)
    ensures DataProcessing(s, op, m, d).r[d] == shifted.0 && DataProcessing(s, op, m, d).f.c == shifted.1
  {
    Wraps(shifted.0);
  }

  /** LSLS, LSRS, ASRS and RORS by a register: as many one-bit shifts as its low byte says. */
  lemma RegisterShifts(s: State, op: nat, m: nat, d: nat)
    requires IsShift(op) && m < 8 && d < 8 && IsWord(s.r[d])
    ensures var t := DataProcessing(s, op, m, d);
            (t.r[d], t.f.c) == Shifts(if op == 7 then 3 else op - 2, s.r[d], s.r[m] % 256, s.f.c)
  {
    var kind := if op == 7 then 3 else op - 2;
    ShiftsWithinWords(kind, s.r[d], s.r[m] % 256, s.f.c);
    ShiftsRegister(s, op, m, d, kind, Shifts(kind, s.r[d], s.r[m] % 256, s.f.c));
  }

  // ------------------------------------------------------------------
  // Reversal

  /** The byte that a reversal moves to `i`. */
  function Mate(op: nat, i: nat): nat
    requires op < 2 && i < 4
  {
    if op == 0 then 3 - i else if i % 2 == 0 then i + 1 else i - 1
  }

  /** The bytes of `y` are those of `x` with the mates changed round. */
  ghost predicate Mates(op: nat, x: int, y: int)
    requires op < 2
  {
    IsWord(x) && IsWord(y) && forall i: nat :: i < 4 ==> ByteOf(y, i) == ByteOf(x, Mate(op, i))
  }

  /** REV and REV16 change the bytes of a word round, each for its mate. */
  lemma SwappedBytes(value: int, op: nat)
    requires IsWord(value) && op < 2
    ensures Mates(op, value, Swapped(value, op))
  {
    var b0, b1, b2, b3 := ByteOf(value, 0), ByteOf(value, 1), ByteOf(value, 2), ByteOf(value, 3);
    if op == 0 {
      BytesOfWord(b0, b1, b2, b3);
    } else {
      BytesOfWord(b2, b3, b0, b1);
    }
  }

  lemma MateBack(op: nat, x: int, y: int, z: int, i: nat)
    requires op < 2 && Mates(op, x, y) && Mates(op, y, z) && i < 4
    ensures ByteOf(x, i) == ByteOf(z, i)
  {
    var j := Mate(op, i);
    assert Mate(op, j) == i;
    assert ByteOf(z, i) == ByteOf(y, j) && ByteOf(y, j) == ByteOf(x, Mate(op, j));
  }

  lemma MatesBack(op: nat, x: int, y: int, z: int)
    requires op < 2 && Mates(op, x, y) && Mates(op, y, z)
    ensures x == z
  {
    MateBack(op, x, y, z, 0);
    MateBack(op, x, y, z, 1);
    MateBack(op, x, y, z, 2);
    MateBack(op, x, y, z, 3);
    WordOfBytes(x);
    WordOfBytes(z);
  }

  /** REVSH: the two low bytes change places and the result is a signed halfword. */
  lemma SwappedHalfword(value: int)
    requires IsWord(value)
    ensures var half := ByteOf(value, 0) * 0x100 + ByteOf(value, 1);
            Swapped(value, 3) == (if ByteOf(value, 0) >= 0x80 then half - 0x1_0000 else half)
  {
    Pow2Facts();
    assert Pow2(16) == 2 * Pow2(15);
  }

  lemma BytesOfWord(b3: nat, b2: nat, b1: nat, b0: nat)
    requires b3 < 256 && b2 < 256 && b1 < 256 && b0 < 256
    ensures var w := Word(b3, b2, b1, b0);
            IsWord(w) && ByteOf(w, 0) == b0 && ByteOf(w, 1) == b1 && ByteOf(w, 2) == b2 && ByteOf(w, 3) == b3
  {
    var w := Word(b3, b2, b1, b0);
    DivUnique(w, 0x100, b3 * 0x1_0000 + b2 * 0x100 + b1, b0);
    DivUnique(w, 0x1_0000, b3 * 0x100 + b2, b1 * 0x100 + b0);
    DivUnique(w, 0x100_0000, b3, b2 * 0x1_0000 + b1 * 0x100 + b0);
  }

  lemma WordOfBytes(value: int)
    requires IsWord(value)
    ensures Word(ByteOf(value, 3), ByteOf(value, 2), ByteOf(value, 1), ByteOf(value, 0)) == value
  {
    DivDiv(value, 0x100, 0x100);
    DivDiv(value, 0x1_0000, 0x100);
  }

  lemma SwappedTwice(value: int, op: nat)
    requires IsWord(value) && op < 2
    ensures IsWord(Swapped(value, op)) && Swapped(Swapped(value, op), op) == value
  {
    SwappedBytes(value, op);
    var once := Swapped(value, op);
    SwappedBytes(once, op);
    MatesBack(op, value, once, Swapped(once, op));
  }

  /** REV undoes REV and REV16 undoes REV16, whatever the registers. */
  lemma ReversedTwice(s: State, h: nat, again: nat)
    requires IsWord(s.r[(h / 8) % 8]) && (h / 64) % 4 < 2
    requires (again / 64) % 4 == (h / 64) % 4 && (again / 8) % 8 == h % 8
    ensures Reverse(s, h).Went? && Reverse(Reverse(s, h).value, again).Went?
    ensures Reverse(Reverse(s, h).value, again).value.r[again % 8] == s.r[(h / 8) % 8]
  {
    SwappedTwice(s.r[(h / 8) % 8], (h / 64) % 4);
  }

  // ------------------------------------------------------------------
  // Branch with link

  /** The two halves of a BL. */
  predicate LinkPair(first: nat, second: nat) {
    first / 2048 == 0x1e && second / 16384 == 3 && (second / 4096) % 2 == 1
  }

  function FirstHalf(sign: nat, high: nat): nat {
    0xf000 + sign * 1024 + high
  }

  function SecondHalf(j1: nat, j2: nat, low: nat): nat {
    0xd000 + j1 * 8192 + j2 * 2048 + low
  }

  /** The bit beside the sign that says whether it is the sign again. */
  function Again(sign: nat, bit: nat): nat {
    if bit == sign then 1 else 0
  }

  /** How an offset is spread over the halves. */
  function LinkWords(offset: int): (nat, nat) {
    Spread(offset % 0x200_0000)
  }

  function Spread(v: nat): (nat, nat) {
    var u := v / 2;
    var top := u / 2048 / 1024;
    (FirstHalf(top / 4, (u / 2048) % 1024),
     SecondHalf(Again(top / 4, (top / 2) % 2), Again(top / 4, top % 2), u % 2048))
  }

  lemma SignOfLink(u: nat)
    requires u < 0x200_0000
    ensures Sign(u, 25) == if u >= 0x100_0000 then u - 0x200_0000 else u
  {
    Pow2Facts();
    Pow2Adds(16, 8);
    assert Pow2(25) == 2 * Pow2(24);
  }

  /** The number the fields of an offset make, and the fields of that number. */
  function Joint(sign: nat, i1: nat, i2: nat, high: nat, low: nat): nat {
    sign * 0x100_0000 + i1 * 0x80_0000 + i2 * 0x40_0000 + high * 4096 + low * 2
  }

  lemma JointFields(sign: nat, i1: nat, i2: nat, high: nat, low: nat)
    requires sign < 2 && i1 < 2 && i2 < 2 && high < 1024 && low < 2048
    ensures var v := Joint(sign, i1, i2, high, low); var top := 4 * sign + 2 * i1 + i2;
            v < 0x200_0000 && v % 2 == 0 && (v / 2) % 2048 == low && v / 2 / 2048 == top * 1024 + high
  {
    DivUnique(Joint(sign, i1, i2, high, low) / 2, 2048, (4 * sign + 2 * i1 + i2) * 1024 + high, low);
  }

  lemma TopFields(sign: nat, i1: nat, i2: nat, high: nat)
    requires sign < 2 && i1 < 2 && i2 < 2 && high < 1024
    ensures var top := 4 * sign + 2 * i1 + i2;
            && (top * 1024 + high) / 1024 == top && (top * 1024 + high) % 1024 == high
            && top / 4 == sign && (top / 2) % 2 == i1 && top % 2 == i2
  {
    DivUnique((4 * sign + 2 * i1 + i2) * 1024 + high, 1024, 4 * sign + 2 * i1 + i2, high);
  }

  lemma JointOfFields(v: nat)
    requires v < 0x200_0000 && v % 2 == 0
    ensures var u := v / 2; var top := u / 2048 / 1024;
            top < 8 && v == Joint(top / 4, (top / 2) % 2, top % 2, (u / 2048) % 1024, u % 2048)
  {
    var u := v / 2;
    var top := u / 2048 / 1024;
    assert u == u / 2048 * 2048 + u % 2048 && u / 2048 == top * 1024 + (u / 2048) % 1024;
    assert top == 4 * (top / 4) + 2 * ((top / 2) % 2) + top % 2;
  }

  lemma HalfFields(sign: nat, high: nat, j1: nat, j2: nat, low: nat)
    requires sign < 2 && high < 1024 && j1 < 2 && j2 < 2 && low < 2048
    ensures var first := FirstHalf(sign, high);
            first / 2048 == 0x1e && (first / 1024) % 2 == sign && first % 1024 == high
    ensures var second := SecondHalf(j1, j2, low);
            && second / 16384 == 3 && (second / 4096) % 2 == 1
            && (second / 8192) % 2 == j1 && (second / 2048) % 2 == j2 && second % 2048 == low
  {
  }

  lemma HalvesOfFields(first: nat, second: nat)
    requires LinkPair(first, second)
    ensures first == FirstHalf((first / 1024) % 2, first % 1024)
    ensures second == SecondHalf((second / 8192) % 2, (second / 2048) % 2, second % 2048)
  {
  }

  lemma LinkOffsetIsJoint(first: nat, second: nat)
    ensures var sign := (first / 1024) % 2;
            LinkOffset(first, second) == Sign(Joint(sign, Again(sign, (second / 8192) % 2),
                                                    Again(sign, (second / 2048) % 2), first % 1024, second % 2048), 25)
  {
  }

  lemma WordsOfJoint(sign: nat, j1: nat, j2: nat, high: nat, low: nat)
    requires sign < 2 && high < 1024 && j1 < 2 && j2 < 2 && low < 2048
    ensures var offset := Sign(Joint(sign, Again(sign, j1), Again(sign, j2), high, low), 25);
            && offset % 2 == 0 && -0x100_0000 <= offset < 0x100_0000
            && LinkWords(offset) == (FirstHalf(sign, high), SecondHalf(j1, j2, low))
  {
    var i1, i2 := Again(sign, j1), Again(sign, j2);
    var v := Joint(sign, i1, i2, high, low);
    JointFields(sign, i1, i2, high, low);
    SignOfLink(v);
    WrapsLink(Sign(v, 25), v);
    SpreadOfJoint(sign, j1, j2, high, low);
  }

  lemma SpreadOfJoint(sign: nat, j1: nat, j2: nat, high: nat, low: nat)
    requires sign < 2 && high < 1024 && j1 < 2 && j2 < 2 && low < 2048
    ensures Spread(Joint(sign, Again(sign, j1), Again(sign, j2), high, low))
         == (FirstHalf(sign, high), SecondHalf(j1, j2, low))
  {
    JointFields(sign, Again(sign, j1), Again(sign, j2), high, low);
    TopFields(sign, Again(sign, j1), Again(sign, j2), high);
  }

  lemma WrapsLink(offset: int, v: nat)
    requires v < 0x200_0000 && (offset == v || offset == v - 0x200_0000)
    ensures offset % 0x200_0000 == v && offset % 2 == v % 2
  {
  }

  /** A BL reaches every even offset of 25 bits, */
  lemma LinkOffsetOnto(offset: int)
    requires offset % 2 == 0 && -0x100_0000 <= offset < 0x100_0000
    ensures var words := LinkWords(offset); LinkPair(words.0, words.1) && LinkOffset(words.0, words.1) == offset
  {
    var v := if offset < 0 then offset + 0x200_0000 else offset;
    var u, top := v / 2, v / 2 / 2048 / 1024;
    WrapsLink(offset, v);
    JointOfFields(v);
    SignOfLink(v);
    LinkOffsetOfWords(v, top / 4, (top / 2) % 2, top % 2, (u / 2048) % 1024, u % 2048);
  }

  lemma LinkOffsetOfWords(u: nat, sign: nat, i1: nat, i2: nat, high: nat, low: nat)
    requires sign < 2 && i1 < 2 && i2 < 2 && high < 1024 && low < 2048 && u == Joint(sign, i1, i2, high, low)
    ensures var first, second := FirstHalf(sign, high), SecondHalf(Again(sign, i1), Again(sign, i2), low);
            LinkPair(first, second) && LinkOffset(first, second) == Sign(u, 25)
  {
    HalfFields(sign, high, Again(sign, i1), Again(sign, i2), low);
    LinkOffsetIsJoint(FirstHalf(sign, high), SecondHalf(Again(sign, i1), Again(sign, i2), low));
  }

  /** nothing else, and each in one way. */
  lemma LinkOffsetOnce(first: nat, second: nat)
    requires LinkPair(first, second)
    ensures var offset := LinkOffset(first, second);
            offset % 2 == 0 && -0x100_0000 <= offset < 0x100_0000 && LinkWords(offset) == (first, second)
  {
    LinkOffsetIsJoint(first, second);
    HalvesOfFields(first, second);
    WordsOfJoint((first / 1024) % 2, (second / 8192) % 2, (second / 2048) % 2, first % 1024, second % 2048);
  }

  lemma LinkGoes(cfg: Setup, s: State, first: nat, second: nat, pc: int)
    requires LinkPair(first, second)
    ensures Wide(cfg, s, first, second, pc)
         == Went(Landed(s, (pc + 4 + LinkOffset(first, second)) % WORD, pc + 4 + (1 - (pc + 4) % 2)))
  {
    var there, back := (pc + 4 + LinkOffset(first, second)) % WORD, pc + 4 + (1 - (pc + 4) % 2);
    assert Wide(cfg, s, first, second, pc).value.r == Landed(s, there, back).r;
  }

  function Landed(s: State, there: int, back: int): State {
    s.(r := s.r[15 := there][14 := back])
  }

  /** So a BL from an even place goes where its offset says if that is a word, LR
      comes back behind it, and nothing else changes. */
  lemma LinkReaches(cfg: Setup, s: State, pc: int, target: int, first: nat, second: nat)
    requires IsWord(target) && pc % 2 == 0 && LinkPair(first, second) && LinkOffset(first, second) == target - (pc + 4)
    ensures Wide(cfg, s, first, second, pc) == Went(Landed(s, target, pc + 5))
  {
    LinkGoes(cfg, s, first, second, pc);
    Lands(pc, LinkOffset(first, second), target);
  }

  lemma Lands(pc: int, offset: int, target: int)
    requires IsWord(target) && pc % 2 == 0 && offset == target - (pc + 4)
    ensures (pc + 4 + offset) % WORD == target && pc + 4 + (1 - (pc + 4) % 2) == pc + 5
  {
    Wraps(target);
  }
}
