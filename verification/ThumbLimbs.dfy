/** Wide arithmetic by instructions: the limbs of two numbers go through any two
    registers, the first by ADDS or SUBS and the others by ADCS or SBCS. */
module ThumbLimbs {
  import opened ThumbWords
  import opened ThumbMachine

  /** ADDS Rd, Rn, Rm. */
  predicate IsAdds(h: nat) { h / 512 == 0x0c }

  /** SUBS Rd, Rn, Rm. */
  predicate IsSubs(h: nat) { h / 512 == 0x0d }

  /** ADCS Rd, Rm. */
  predicate IsAdcs(h: nat) { h / 64 == 0x105 }

  /** SBCS Rd, Rm. */
  predicate IsSbcs(h: nat) { h / 64 == 0x106 }

  /** The first operand of these four, */
  function First(h: nat): nat {
    if IsAdds(h) || IsSubs(h) then (h / 8) % 8 else h % 8
  }

  /** the second, */
  function Second(h: nat): nat {
    if IsAdds(h) || IsSubs(h) then (h / 64) % 8 else (h / 8) % 8
  }

  /** and the destination. */
  function Destination(h: nat): nat {
    h % 8
  }

  /** The limbs in the operands of `h`. */
  function Placing(s: State, h: nat, a: int, b: int): State {
    Set(Set(s, First(h), a), Second(h), b)
  }

  /** Execute `h` on the first pair of limbs and `rest` on the others; the results and C. */
  function Chained(cfg: Setup, s: State, h: nat, rest: nat, a: seq<int>, b: seq<int>): Outcome<(seq<int>, bool)>
    requires |a| == |b|
    decreases a
  {
    if a == [] then Went(([], s.f.c))
    else
      var done :- Execute(cfg, Placing(s, h, a[0], b[0]), h, s.r[15]);
      var others :- Chained(cfg, done.0, rest, rest, a[1..], b[1..]);
      Went(([done.0.r[Destination(h)]] + others.0, others.1))
  }

  /** Each of the four computes its sum into its destination, and the flags. */
  lemma Summing(cfg: Setup, s: State, h: nat, pc: int, a: int, b: int)
    requires (IsAdds(h) || IsSubs(h) || IsAdcs(h) || IsSbcs(h)) && First(h) != Second(h)
    ensures var carry := if IsAdds(h) then 0 else if IsSubs(h) then 1 else if s.f.c then 1 else 0;
            var operand := if IsAdds(h) || IsAdcs(h) then b else Not(b);
            Execute(cfg, Placing(s, h, a, b), h, pc)
            == Went((SetSum(Placing(s, h, a, b), Destination(h), AddWithCarry(a, operand, carry)), false))
  {
    var t := Placing(s, h, a, b);
    assert t.r[First(h)] == a && t.r[Second(h)] == b;
    if IsAdds(h) || IsSubs(h) {
      PlainDecodes(cfg, t, h, pc);
    } else {
      CarriedDecodes(cfg, t, h, pc);
    }
  }

  lemma PlainDecodes(cfg: Setup, s: State, h: nat, pc: int)
    requires IsAdds(h) || IsSubs(h)
    ensures var a, b := s.r[First(h)], s.r[Second(h)];
            var sum := if IsAdds(h) then AddWithCarry(a, b, 0) else AddWithCarry(a, Not(b), 1);
            Execute(cfg, s, h, pc) == Went((SetSum(s, Destination(h), sum), false))
  {
    assert h / 2048 == 3 && (h / 1024) % 2 == 0 && ((h / 512) % 2 == 1 <==> IsSubs(h));
  }

  lemma CarriedDecodes(cfg: Setup, s: State, h: nat, pc: int)
    requires IsAdcs(h) || IsSbcs(h)
    ensures var a, b, carry := s.r[First(h)], s.r[Second(h)], if s.f.c then 1 else 0;
            var sum := AddWithCarry(a, if IsAdcs(h) then b else Not(b), carry);
            Execute(cfg, s, h, pc) == Went((SetSum(s, Destination(h), sum), false))
  {
    assert h / 1024 == 0x10 && (h / 64) % 16 == if IsAdcs(h) then 5 else 6;
    DataProcessingGroup(cfg, s, h, pc, (h / 64) % 16);
  }

  lemma DataProcessingGroup(cfg: Setup, s: State, h: nat, pc: int, op: nat)
    requires h / 1024 == 0x10 && op == (h / 64) % 16
    ensures Execute(cfg, s, h, pc) == Went((DataProcessing(s, op, (h / 8) % 8, h % 8), false))
  {
  }

  lemma {:induction false} AdcsLimbs(cfg: Setup, s: State, h: nat, a: seq<int>, b: seq<int>)
    requires |a| == |b| && IsAdcs(h) && First(h) != Second(h)
    ensures Chained(cfg, s, h, h, a, b) == Went(AddChain(a, b, s.f.c))
    decreases a
  {
    if a != [] {
      Summing(cfg, s, h, s.r[15], a[0], b[0]);
      AdcsLimbs(cfg, Execute(cfg, Placing(s, h, a[0], b[0]), h, s.r[15]).value.0, h, a[1..], b[1..]);
    }
  }

  lemma {:induction false} SbcsLimbs(cfg: Setup, s: State, h: nat, a: seq<int>, b: seq<int>)
    requires |a| == |b| && IsSbcs(h) && First(h) != Second(h)
    ensures Chained(cfg, s, h, h, a, b) == Went(SubChain(a, b, s.f.c))
    decreases a
  {
    if a != [] {
      Summing(cfg, s, h, s.r[15], a[0], b[0]);
      SbcsLimbs(cfg, Execute(cfg, Placing(s, h, a[0], b[0]), h, s.r[15]).value.0, h, a[1..], b[1..]);
    }
  }

  /** ADDS and then ADCS, over any number of limbs and in any registers, is the sum;
      C is the carry out. */
  lemma AddLimbs(cfg: Setup, s: State, h: nat, rest: nat, a: seq<int>, b: seq<int>)
    requires IsAdds(h) && IsAdcs(rest) && First(h) != Second(h) && First(rest) != Second(rest)
    requires |a| == |b| && a != [] && AllWords(a) && AllWords(b)
    ensures Chained(cfg, s, h, rest, a, b).Went?
    ensures var r := Chained(cfg, s, h, rest, a, b).value;
            && AllWords(r.0) && |r.0| == |a|
            && Value(r.0) + (if r.1 then Power(|a|) else 0) == Value(a) + Value(b)
            && (r.1 <==> Value(a) + Value(b) >= Power(|a|))
  {
    Summing(cfg, s, h, s.r[15], a[0], b[0]);
    AdcsLimbs(cfg, Execute(cfg, Placing(s, h, a[0], b[0]), h, s.r[15]).value.0, rest, a[1..], b[1..]);
    assert Chained(cfg, s, h, rest, a, b) == Went(AddChain(a, b, false));
    AddChainIsSum(a, b, false);
    AddChainCarries(a, b);
  }

  /** SUBS and then SBCS is the difference modulo the width; C is the absence of a borrow. */
  lemma SubLimbs(cfg: Setup, s: State, h: nat, rest: nat, a: seq<int>, b: seq<int>)
    requires IsSubs(h) && IsSbcs(rest) && First(h) != Second(h) && First(rest) != Second(rest)
    requires |a| == |b| && a != [] && AllWords(a) && AllWords(b)
    ensures Chained(cfg, s, h, rest, a, b).Went?
    ensures var r := Chained(cfg, s, h, rest, a, b).value;
            && AllWords(r.0) && |r.0| == |a|
            && Value(r.0) == Value(a) - Value(b) + (if r.1 then 0 else Power(|a|))
            && (r.1 <==> Value(a) >= Value(b))
  {
    Summing(cfg, s, h, s.r[15], a[0], b[0]);
    SbcsLimbs(cfg, Execute(cfg, Placing(s, h, a[0], b[0]), h, s.r[15]).value.0, rest, a[1..], b[1..]);
    assert Chained(cfg, s, h, rest, a, b) == Went(SubChain(a, b, true));
    SubChainIsDifference(a, b, true);
    SubChainBorrows(a, b);
  }
}
