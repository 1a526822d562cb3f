/** The arithmetic of the ARMv6-M evaluator: addition with carry, shifts, the
    condition codes and what chains of them compute.  Registers are unbounded
    integers, as in the source, and every mask is written out. */
module ThumbWords {

  const WIDTH: nat := 32
  const WORD := 0x1_0000_0000
  const HALF := 0x8000_0000

  function Pow2(n: nat): (p: nat)
    ensures p > 0
  {
    if n == 0 then 1 else 2 * Pow2(n - 1)
  }

  predicate IsWord(x: int) {
    0 <= x < WORD
  }

  function ToSigned(value: int): int {
    if value % WORD >= HALF then value % WORD - WORD else value % WORD
  }

  /** `value` read as a two's complement number of so many bits. */
  function Sign(value: int, bits: nat): int
    requires bits > 0
  {
    if (value / Pow2(bits - 1)) % 2 == 1 then value - Pow2(bits) else value
  }

  /** `~value & 0xffffffff`. */
  function Not(value: int): nat {
    (-value - 1) % WORD
  }

  // Bitwise operations on the low bits of two integers of either sign.

  datatype BitOp = And | Or | Xor

  function OneBit(op: BitOp, a: int, b: int): nat {
    match op
    case And => if a % 2 == 1 && b % 2 == 1 then 1 else 0
    case Or => if a % 2 == 1 || b % 2 == 1 then 1 else 0
    case Xor => if a % 2 == b % 2 then 0 else 1
  }

  function Bitwise(op: BitOp, a: int, b: int, bits: nat): (w: nat)
    ensures w < Pow2(bits)
    decreases bits, a
  {
    if bits == 0 then 0 else OneBit(op, a, b) + 2 * Bitwise(op, a / 2, b / 2, bits - 1)
  }

  // ------------------------------------------------------------------
  // Powers of two

  lemma {:induction false} Pow2Adds(a: nat, b: nat)
    ensures Pow2(a + b) == Pow2(a) * Pow2(b)
  {
    if a > 0 {
      Pow2Adds(a - 1, b);
      assert a + b - 1 == a - 1 + b;
    }
  }

  lemma Pow2Facts()
    ensures Pow2(1) == 2 && Pow2(4) == 16 && Pow2(8) == 256 && Pow2(16) == 0x1_0000
    ensures Pow2(31) == HALF && Pow2(32) == WORD
  {
    assert Pow2(8) == 256;
    Pow2Adds(8, 8);
    Pow2Adds(16, 16);
    assert Pow2(32) == 2 * Pow2(31);
  }

  lemma DivDiv(x: int, a: nat, b: nat)
    requires a > 0 && b > 0
    ensures a * b > 0 && x / a / b == x / (a * b)
  {
    var q, s := x / a, x % a;
    var q', s' := q / b, q % b;
    assert x == a * q + s && q == b * q' + s';
    assert x == a * (b * q' + s') + s;
    assert a * (b * q' + s') == (a * b) * q' + a * s' by { Distribute(a, b, q', s'); }
    assert 0 <= a * s' + s < a * b by { Bound(a, b, s', s); }
    DivUnique(x, a * b, q', a * s' + s);
  }

  lemma Distribute(a: nat, b: nat, q: int, s: int)
    ensures a * (b * q + s) == (a * b) * q + a * s
  {
    assert a * (b * q + s) == a * (b * q) + a * s;
    assert a * (b * q) == (a * b) * q;
  }

  lemma Bound(a: nat, b: nat, s: int, t: int)
    requires 0 <= s < b && 0 <= t < a
    ensures 0 <= a * s + t < a * b
  {
    assert a * s <= a * (b - 1);
    assert a * (b - 1) == a * b - a;
  }

  lemma MultipleIsFar(d: int, m: int)
    requires d > 0
    ensures m >= 1 ==> d * m >= d
    ensures m <= -1 ==> d * m <= -d
  {
  }

  lemma DivUnique(x: int, d: int, q: int, rest: int)
    requires d > 0 && 0 <= rest < d && x == d * q + rest
    ensures x / d == q && x % d == rest
  {
    var k := x / d;
    assert x == d * k + x % d;
    assert d * k - d * q == d * (k - q);
    MultipleIsFar(d, k - q);
  }

  /** `value << n`. */
  function Up(value: int, n: nat): int {
    if n == 0 then value else 2 * Up(value, n - 1)
  }

  /** `value >> n`, of integers of either sign. */
  function Down(value: int, n: nat): int {
    if n == 0 then value else Down(value, n - 1) / 2
  }

  lemma {:induction false} UpIsProduct(value: int, n: nat)
    ensures Up(value, n) == value * Pow2(n)
  {
    if n > 0 {
      UpIsProduct(value, n - 1);
      assert 2 * (value * Pow2(n - 1)) == value * (2 * Pow2(n - 1));
    }
  }

  /** Shifting right is division that rounds down. */
  lemma {:induction false} DownIsFloor(value: int, n: nat)
    ensures Down(value, n) == value / Pow2(n)
  {
    if n > 0 {
      DownIsFloor(value, n - 1);
      DivDiv(value, Pow2(n - 1), 2);
    }
  }

  /** Masking a value at most one word out. */
  lemma Wraps(x: int)
    requires -WORD <= x < 2 * WORD
    ensures x % WORD == if x < 0 then x + WORD else if x < WORD then x else x - WORD
  {
  }

  lemma SignedReading(x: int)
    requires -HALF <= x < WORD
    ensures ToSigned(x) == if x >= HALF then x - WORD else x
    ensures ToSigned(x % WORD) == ToSigned(x)
  {
    Wraps(x);
  }

  // ------------------------------------------------------------------
  // Addition with carry: DDI 0419, section A2.2.1

  datatype Flags = Flags(n: bool, z: bool, c: bool, v: bool)

  datatype Sum = Sum(result: nat, flags: Flags)

  function AddWithCarry(a: int, b: int, carry: int): Sum {
    var unsigned := a + b + carry;
    var result := unsigned % WORD;
    var signed := ToSigned(a) + ToSigned(b) + carry;
    Sum(result, Flags(result >= HALF, result == 0, unsigned > WORD - 1, ToSigned(result) != signed))
  }

  /** On words the result and the carry are the sum, N and Z describe the result
      and V says that the sum of the signed readings does not fit. */
  lemma AddIsExact(a: int, b: int, carry: int)
    requires IsWord(a) && IsWord(b) && 0 <= carry <= 1
    ensures var s := AddWithCarry(a, b, carry);
            && IsWord(s.result) && s.result + (if s.flags.c then WORD else 0) == a + b + carry
            && (s.flags.n <==> ToSigned(s.result) < 0) && (s.flags.z <==> s.result == 0)
            && (s.flags.v <==> !(-HALF <= ToSigned(a) + ToSigned(b) + carry < HALF))
  {
    SignedReading(a);
    SignedReading(b);
    Wraps(a + b + carry);
    SignedReading(AddWithCarry(a, b, carry).result);
  }

  /** A register left negative by a sign-extending instruction may lose the carry:
      the result, N, Z and V are still those of the words, and the carry is exactly
      when no operand is negative, or one is and the sum of the readings too. */
  lemma AddOfNegative(a: int, b: int, carry: int)
    requires -HALF <= a < WORD && -HALF <= b < WORD && 0 <= carry <= 1
    ensures var raw, word := AddWithCarry(a, b, carry), AddWithCarry(a % WORD, b % WORD, carry);
            && raw.result == word.result && raw.flags.n == word.flags.n && raw.flags.z == word.flags.z
            && raw.flags.v == word.flags.v
            && (raw.flags.c == word.flags.c <==>
                  (a >= 0 && b >= 0) || ((a < 0) != (b < 0) && a + b + carry < 0))
  {
    Wraps(a);
    Wraps(b);
    SignedReading(a);
    SignedReading(b);
    SameMasked(a, b, carry);
  }

  lemma SameMasked(a: int, b: int, carry: int)
    ensures (a + b + carry) % WORD == (a % WORD + b % WORD + carry) % WORD
  {
    var x, y := a % WORD, b % WORD;
    var sum := x + y + carry;
    DivUnique(a + b + carry, WORD, a / WORD + b / WORD + sum / WORD, sum % WORD);
  }

  // ------------------------------------------------------------------
  // Conditions: DDI 0419, section A6.3

  function Condition(code: nat, f: Flags): bool
    requires code < 15
  {
    if code == 0 then f.z
    else if code == 1 then !f.z
    else if code == 2 then f.c
    else if code == 3 then !f.c
    else if code == 4 then f.n
    else if code == 5 then !f.n
    else if code == 6 then f.v
    else if code == 7 then !f.v
    else if code == 8 then f.c && !f.z
    else if code == 9 then !f.c || f.z
    else if code == 10 then f.n == f.v
    else if code == 11 then f.n != f.v
    else if code == 12 then !f.z && f.n == f.v
    else if code == 13 then f.z || f.n != f.v
    else true
  }

  /** The flags every compare form leaves. */
  function Compare(a: int, b: int): Flags {
    AddWithCarry(a, Not(b), 1).flags
  }

  /** The result and the carry of a compare. */
  lemma CompareResult(a: int, b: int)
    requires IsWord(a) && IsWord(b)
    ensures var s := AddWithCarry(a, Not(b), 1);
            s.result == (a - b) % WORD && (s.flags.c <==> a >= b) && s.result == if a >= b then a - b else a - b + WORD
  {
    NotOfWord(b);
    AddIsExact(a, Not(b), 1);
    Wraps(a - b);
  }

  /** What the flags of a compare say of the two words. */
  lemma CompareFlags(a: int, b: int)
    requires IsWord(a) && IsWord(b)
    ensures var f := Compare(a, b); var x, y := ToSigned(a), ToSigned(b);
            && (f.z <==> a == b) && (f.c <==> a >= b) && (f.n <==> (a - b) % WORD >= HALF)
            && (f.v <==> !(-HALF <= x - y < HALF)) && (f.n == f.v <==> x >= y) && (x == y <==> a == b)
  {
    var s := AddWithCarry(a, Not(b), 1);
    CompareResult(a, b);
    NotOfWord(b);
    AddIsExact(a, Not(b), 1);
    SignedReading(a);
    SignedReading(b);
    SignedReading(Not(b));
    SignedReading(s.result);
  }

  /** What each condition is for: equality, unsigned order, sign and overflow of the
      difference, signed order. */
  predicate Related(code: nat, a: int, b: int)
    requires code < 14
  {
    var x, y := ToSigned(a), ToSigned(b);
    match code
    case 0 => a == b
    case 1 => a != b
    case 2 => a >= b
    case 3 => a < b
    case 4 => (a - b) % WORD >= HALF
    case 5 => (a - b) % WORD < HALF
    case 6 => !(-HALF <= x - y < HALF)
    case 7 => -HALF <= x - y < HALF
    case 8 => a > b
    case 9 => a <= b
    case 10 => x >= y
    case 11 => x < y
    case 12 => x > y
    case _ => x <= y
  }

  /** After a compare of two words the fourteen conditions decide the fourteen relations. */
  lemma ConditionsDecide(a: int, b: int, code: nat)
    requires IsWord(a) && IsWord(b) && code < 14
    ensures Condition(code, Compare(a, b)) <==> Related(code, a, b)
  {
    CompareFlags(a, b);
  }

  lemma NotOfWord(b: int)
    requires IsWord(b)
    ensures Not(b) == WORD - 1 - b && IsWord(Not(b))
  {
    Wraps(-b - 1);
  }

  // ------------------------------------------------------------------
  // Many limbs, least significant first

  ghost predicate AllWords(limbs: seq<int>) {
    forall i :: 0 <= i < |limbs| ==> IsWord(limbs[i])
  }

  function Value(limbs: seq<int>): int {
    if limbs == [] then 0 else limbs[0] + WORD * Value(limbs[1..])
  }

  /** ADDS on the first limbs and ADCS on the others. */
  function AddChain(a: seq<int>, b: seq<int>, carry: bool): (r: (seq<int>, bool))
    requires |a| == |b|
    ensures |r.0| == |a|
  {
    if a == [] then ([], carry)
    else
      var s := AddWithCarry(a[0], b[0], if carry then 1 else 0);
      var rest := AddChain(a[1..], b[1..], s.flags.c);
      ([s.result] + rest.0, rest.1)
  }

  /** SUBS on the first limbs and SBCS on the others. */
  function SubChain(a: seq<int>, b: seq<int>, carry: bool): (r: (seq<int>, bool))
    requires |a| == |b|
    ensures |r.0| == |a|
  {
    if a == [] then ([], carry)
    else
      var s := AddWithCarry(a[0], Not(b[0]), if carry then 1 else 0);
      var rest := SubChain(a[1..], b[1..], s.flags.c);
      ([s.result] + rest.0, rest.1)
  }

  function Power(k: nat): (p: nat)
    ensures p > 0
  {
    if k == 0 then 1 else WORD * Power(k - 1)
  }

  lemma {:induction false} ValueBounds(limbs: seq<int>)
    requires AllWords(limbs)
    ensures 0 <= Value(limbs) < Power(|limbs|)
  {
    if limbs != [] {
      ValueBounds(limbs[1..]);
    }
  }

  /** The chain is the sum: every limb of it, and the carry out of the last. */
  lemma {:induction false} AddChainIsSum(a: seq<int>, b: seq<int>, carry: bool)
    requires |a| == |b| && AllWords(a) && AllWords(b)
    ensures var r := AddChain(a, b, carry);
            && AllWords(r.0)
            && Value(r.0) + (if r.1 then Power(|a|) else 0) == Value(a) + Value(b) + (if carry then 1 else 0)
  {
    if a != [] {
      var s := AddWithCarry(a[0], b[0], if carry then 1 else 0);
      AddIsExact(a[0], b[0], if carry then 1 else 0);
      AddChainIsSum(a[1..], b[1..], s.flags.c);
      var rest := AddChain(a[1..], b[1..], s.flags.c);
      assert ([s.result] + rest.0)[1..] == rest.0;
    }
  }

  /** The chain is the difference modulo the width, and C is the absence of a borrow. */
  lemma {:induction false} SubChainIsDifference(a: seq<int>, b: seq<int>, carry: bool)
    requires |a| == |b| && AllWords(a) && AllWords(b)
    ensures var r := SubChain(a, b, carry);
            && AllWords(r.0)
            && Value(r.0) == Value(a) - Value(b) - (if carry then 0 else 1) + (if r.1 then 0 else Power(|a|))
  {
    if a != [] {
      var s := AddWithCarry(a[0], Not(b[0]), if carry then 1 else 0);
      NotOfWord(b[0]);
      AddIsExact(a[0], Not(b[0]), if carry then 1 else 0);
      SubChainIsDifference(a[1..], b[1..], s.flags.c);
      var rest := SubChain(a[1..], b[1..], s.flags.c);
      assert ([s.result] + rest.0)[1..] == rest.0;
    }
  }

  /** So C after the chain says there was no borrow, and the limbs are the
      difference modulo the width. */
  lemma SubChainBorrows(a: seq<int>, b: seq<int>)
    requires |a| == |b| && AllWords(a) && AllWords(b)
    ensures var r := SubChain(a, b, true);
            && (r.1 <==> Value(a) >= Value(b))
            && 0 <= Value(r.0) < Power(|a|)
            && Value(r.0) == Value(a) - Value(b) + (if r.1 then 0 else Power(|a|))
  {
    SubChainIsDifference(a, b, true);
    var r := SubChain(a, b, true);
    ValueBounds(r.0);
  }

  /** C after the chain is the carry out, and the limbs are the sum modulo the width. */
  lemma AddChainCarries(a: seq<int>, b: seq<int>)
    requires |a| == |b| && AllWords(a) && AllWords(b)
    ensures var r := AddChain(a, b, false);
            && (r.1 <==> Value(a) + Value(b) >= Power(|a|))
            && 0 <= Value(r.0) < Power(|a|)
            && Value(r.0) == Value(a) + Value(b) - (if r.1 then Power(|a|) else 0)
  {
    AddChainIsSum(a, b, false);
    var r := AddChain(a, b, false);
    ValueBounds(r.0);
  }

  // ------------------------------------------------------------------
  // Shifts

  function Least(a: nat, b: nat): nat {
    if a < b then a else b
  }

  function Odd(x: int): bool {
    x % 2 == 1
  }

  /** Kinds 0 to 3 are LSL, LSR, ASR and ROR. */
  function Shift(kind: nat, value: int, amount: nat, carry: bool): (int, bool) {
    if amount == 0 then (value, carry)
    else if kind == 0 then
      (if amount < 32 then Up(value, amount) % WORD else 0, amount <= 32 && Odd(Down(value, 32 - amount)))
    else if kind == 1 then
      (if amount < 32 then Down(value, amount) else 0, amount <= 32 && Odd(Down(value, amount - 1)))
    else if kind == 2 then
      (Down(ToSigned(value), Least(amount, 31)) % WORD, Odd(Down(ToSigned(value), Least(amount, 32) - 1)))
    else
      var turn := amount % 32;
      var result := Bitwise(Or, Down(value, turn), Up(value, 32 - turn), WIDTH);
      (result, result >= HALF)
  }

  /** One bit of each shift, and the bit that falls out. */
  function ShiftOne(kind: nat, value: int): (int, bool) {
    if kind == 0 then ((2 * value) % WORD, value >= HALF)
    else if kind == 1 then (value / 2, Odd(value))
    else if kind == 2 then ((ToSigned(value) / 2) % WORD, Odd(value))
    else (value / 2 + (if Odd(value) then HALF else 0), Odd(value))
  }

  function Shifts(kind: nat, value: int, amount: nat, carry: bool): (int, bool)
    decreases amount
  {
    if amount == 0 then (value, carry) else ShiftOne(kind, Shifts(kind, value, amount - 1, carry).0)
  }

  // Up and Down undo each other, bit by bit.

  lemma {:induction false} DownDouble(x: int, n: nat)
    ensures Down(2 * x, n + 1) == Down(x, n)
  {
    if n > 0 {
      DownDouble(x, n - 1);
    }
  }

  lemma {:induction false} DownHalf(x: int, n: nat)
    ensures Down(x, n + 1) == Down(x / 2, n)
  {
    if n > 0 {
      DownHalf(x, n - 1);
    }
  }

  lemma {:induction false} DownDown(x: int, a: nat, b: nat, c: nat)
    requires c == a + b
    ensures Down(Down(x, a), b) == Down(x, c)
    decreases b
  {
    if b > 0 {
      DownDown(x, a, b - 1, c - 1);
    }
  }

  /** Low bits below a shifted value do not reach past it. */
  lemma {:induction false} DownSum(x: int, value: int, j: nat, m: nat, c: nat)
    requires x >= 0 && Down(x, j) == 0 && c == j + m
    ensures Down(x + Up(value, j), c) == Down(value, m)
    decreases j
  {
    if j > 0 {
      DownHalf(x, j - 1);
      DownHalf(x + Up(value, j), c - 1);
      assert (x + Up(value, j)) / 2 == x / 2 + Up(value, j - 1);
      DownSum(x / 2, value, j - 1, m, c - 1);
    }
  }

  /** A word has nothing above bit 31. */
  lemma WordEnds(value: int)
    requires IsWord(value)
    ensures Down(value, 32) == 0 && 0 <= Down(value, 31) <= 1 && Down(value, 31) == value / HALF
  {
    Pow2Facts();
    DownIsFloor(value, 31);
  }

  lemma {:induction false} DownPositive(x: int, n: nat)
    requires x >= 0
    ensures Down(x, n) >= 0
  {
    if n > 0 {
      DownPositive(x, n - 1);
    }
  }

  lemma TopBit(x: int)
    ensures Down(x, 31) == x / HALF
    ensures x % WORD >= HALF <==> Odd(Down(x, 31))
  {
    Pow2Facts();
    DownIsFloor(x, 31);
  }

  lemma LslOneMore(value: int, n: nat, carry: bool)
    requires IsWord(value)
    ensures Shift(0, value, n + 1, carry) == ShiftOne(0, Shift(0, value, n, carry).0)
  {
    if n < 32 {
      DownOfZero(n);
      DownSum(0, value, n, 31 - n, 31);
      TopBit(Up(value, n));
      DoubleOfMasked(Up(value, n));
      if n == 31 {
        LastBitLeft(value);
      }
    }
  }

  lemma DoubleOfMasked(x: int)
    ensures (2 * (x % WORD)) % WORD == (2 * x) % WORD
  {
  }

  lemma LastBitLeft(value: int)
    ensures (2 * Up(value, 31)) % WORD == 0
  {
    Pow2Facts();
    UpIsProduct(value, 31);
  }

  lemma {:induction false} DownOfZero(n: nat)
    ensures Down(0, n) == 0
  {
    if n > 0 {
      DownOfZero(n - 1);
    }
  }

  lemma LsrOneMore(value: int, n: nat, carry: bool)
    requires IsWord(value)
    ensures Shift(1, value, n + 1, carry) == ShiftOne(1, Shift(1, value, n, carry).0)
  {
    WordEnds(value);
  }

  lemma {:induction false} AsrFits(x: int, n: nat)
    requires -HALF <= x < HALF
    ensures -HALF <= Down(x, n) < HALF
  {
    if n > 0 {
      AsrFits(x, n - 1);
    }
  }

  lemma AsrOneMore(value: int, n: nat, carry: bool)
    requires IsWord(value)
    ensures Shift(2, value, n + 1, carry) == ShiftOne(2, Shift(2, value, n, carry).0)
  {
    var x, k := ToSigned(value), Least(n, 31);
    SignedReading(value);
    AsrFits(x, k);
    SignedReading(Down(x, k));
    Wraps(Down(x, k));
    assert Shift(2, value, n, carry).0 == Down(x, k) % WORD;
    TopBit(x);
  }

  // The low bits of a number, and what Or does where no bit is in both.

  function Low(x: int, bits: nat): nat
    decreases bits, x
  {
    if bits == 0 then 0 else x % 2 + 2 * Low(x / 2, bits - 1)
  }

  lemma {:induction false} LowIsRemainder(x: int, bits: nat)
    ensures Low(x, bits) == x % Pow2(bits)
    decreases bits
  {
    if bits > 0 {
      LowIsRemainder(x / 2, bits - 1);
      TwiceAndBit(x / 2, x % 2, Pow2(bits - 1));
    }
  }

  lemma TwiceAndBit(a: int, b: int, m: int)
    requires m > 0 && 0 <= b <= 1
    ensures (2 * a + b) % (2 * m) == 2 * (a % m) + b
  {
    var q := a / m;
    assert a == m * q + a % m;
    assert (2 * m) * q == 2 * (m * q);
    DivUnique(2 * a + b, 2 * m, q, 2 * (a % m) + b);
  }

  lemma {:induction false} OrOfNothing(y: int, bits: nat)
    ensures Bitwise(Or, 0, y, bits) == Low(y, bits)
    decreases bits
  {
    if bits > 0 {
      OrOfNothing(y / 2, bits - 1);
    }
  }

  lemma {:induction false} OrIsSum(x: int, value: int, j: nat, bits: nat)
    requires x >= 0 && Down(x, j) == 0
    ensures Bitwise(Or, x, Up(value, j), bits) == Low(x + Up(value, j), bits)
    decreases bits
  {
    if j == 0 {
      OrOfNothing(value, bits);
    } else if bits > 0 {
      DownHalf(x, j - 1);
      OrIsSum(x / 2, value, j - 1, bits - 1);
    }
  }

  /** Rotation by arithmetic: what is shifted down, with what came off below it. */
  function Rotated(value: int, turn: nat): int
    requires turn <= 32
  {
    (Down(value, turn) + Up(value, 32 - turn)) % WORD
  }

  lemma RorIsRotated(value: int, turn: nat, bits: nat)
    requires IsWord(value) && turn < 32 && bits == WIDTH
    ensures Bitwise(Or, Down(value, turn), Up(value, 32 - turn), bits) == Rotated(value, turn)
  {
    NothingAbove(value, turn);
    OrOfParts(Down(value, turn), value, 32 - turn, bits);
  }

  lemma NothingAbove(value: int, turn: nat)
    requires IsWord(value) && turn < 32
    ensures Down(value, turn) >= 0 && Down(Down(value, turn), 32 - turn) == 0
  {
    WordEnds(value);
    DownPositive(value, turn);
    DownDown(value, turn, 32 - turn, 32);
  }

  lemma OrOfParts(d: int, value: int, j: nat, bits: nat)
    requires bits == WIDTH && d >= 0 && Down(d, j) == 0
    ensures Bitwise(Or, d, Up(value, j), bits) == (d + Up(value, j)) % WORD
  {
    OrIsSum(d, value, j, bits);
    LowOfWord(d + Up(value, j), bits);
  }

  lemma LowOfWord(x: int, bits: nat)
    requires bits == WIDTH
    ensures Low(x, bits) == x % WORD
  {
    Pow2Facts();
    LowIsRemainder(x, bits);
  }

  lemma RotateOnce(value: int, turn: nat)
    requires IsWord(value) && turn < 32
    ensures ShiftOne(3, Rotated(value, turn)) == (Rotated(value, turn + 1), Rotated(value, turn + 1) >= HALF)
  {
    WordEnds(value);
    var d, u := Down(value, turn + 1), Up(value, 31 - turn);
    DownPositive(value, turn + 1);
    DownDown(value, turn + 1, 31 - turn, 32);
    DownSum(d, value, 31 - turn, turn, 31);
    TopBit(d + u);
    var b := Down(value, turn) % 2;
    HalfOfDouble(d + u, b);
    RotatedParts(value, turn, d, u, b);
  }

  lemma RotatedParts(value: int, turn: nat, d: int, u: int, b: int)
    requires turn < 32 && d == Down(value, turn + 1) && u == Up(value, 31 - turn) && b == Down(value, turn) % 2
    ensures Rotated(value, turn) == (2 * (d + u) + b) % WORD && Rotated(value, turn + 1) == (d + u) % WORD
  {
    assert Down(value, turn) == 2 * d + b && Up(value, 32 - turn) == 2 * u;
  }

  lemma HalfOfDouble(x: int, b: int)
    requires 0 <= b <= 1 && (x % WORD >= HALF <==> b == 1)
    ensures var y := (2 * x + b) % WORD; y % 2 == b && y / 2 + (if b == 1 then HALF else 0) == x % WORD
  {
    var q, w := x / WORD, x % WORD;
    assert 2 * x + b == WORD * (2 * q) + (2 * w + b);
    if w >= HALF {
      DivUnique(2 * x + b, WORD, 2 * q + 1, 2 * w + b - WORD);
    } else {
      DivUnique(2 * x + b, WORD, 2 * q, 2 * w + b);
    }
  }

  lemma RotatedAround(value: int)
    requires IsWord(value)
    ensures Rotated(value, 0) == value && Rotated(value, 32) == value
  {
    Pow2Facts();
    UpIsProduct(value, 32);
    WordEnds(value);
  }

  lemma RorOneMore(value: int, n: nat, carry: bool)
    requires IsWord(value)
    ensures Shift(3, value, n + 1, carry) == ShiftOne(3, Shift(3, value, n, carry).0)
  {
    RorShift(value, n, carry);
    RorShift(value, n + 1, carry);
    RorJoin(Shift(3, value, n, carry), Shift(3, value, n + 1, carry), value, n);
  }

  lemma RorJoin(before: (int, bool), after: (int, bool), value: int, n: nat)
    requires IsWord(value) && before.0 == Rotated(value, n % 32)
    requires after.0 == Rotated(value, (n + 1) % 32) && after.1 == (after.0 >= HALF)
    ensures after == ShiftOne(3, before.0)
  {
    RotateOnce(value, n % 32);
    NextTurn(value, n);
  }

  lemma NextTurn(value: int, n: nat)
    requires IsWord(value)
    ensures Rotated(value, (n + 1) % 32) == Rotated(value, n % 32 + 1)
  {
    RotatedAround(value);
    if n % 32 == 31 {
      assert (n + 1) % 32 == 0;
    } else {
      assert (n + 1) % 32 == n % 32 + 1;
    }
  }

  lemma RorShift(value: int, n: nat, carry: bool)
    requires IsWord(value)
    ensures Shift(3, value, n, carry).0 == Rotated(value, n % 32)
    ensures n > 0 ==> Shift(3, value, n, carry).1 == (Shift(3, value, n, carry).0 >= HALF)
  {
    RotatedAround(value);
    RorIsRotated(value, n % 32, WIDTH);
  }

  lemma OneMore(kind: nat, value: int, n: nat, carry: bool)
    requires kind < 4 && IsWord(value)
    ensures Shift(kind, value, n + 1, carry) == ShiftOne(kind, Shift(kind, value, n, carry).0)
  {
    if kind == 0 {
      LslOneMore(value, n, carry);
    } else if kind == 1 {
      LsrOneMore(value, n, carry);
    } else if kind == 2 {
      AsrOneMore(value, n, carry);
    } else {
      RorOneMore(value, n, carry);
    }
  }

  /** Every shift by every amount -- none, 32 and more than 32 included -- of every
      word is that many one-bit shifts. */
  lemma {:induction false} ShiftIsShifts(kind: nat, value: int, amount: nat, carry: bool)
    requires kind < 4 && IsWord(value)
    ensures Shift(kind, value, amount, carry) == Shifts(kind, value, amount, carry)
    decreases amount
  {
    if amount > 0 {
      ShiftIsShifts(kind, value, amount - 1, carry);
      Onward(kind, value, amount - 1, amount, carry);
    }
  }

  lemma Onward(kind: nat, value: int, n: nat, m: nat, carry: bool)
    requires kind < 4 && IsWord(value) && m == n + 1
    ensures Shift(kind, value, m, carry) == ShiftOne(kind, Shift(kind, value, n, carry).0)
  {
    OneMore(kind, value, n, carry);
  }
}
