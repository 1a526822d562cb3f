/** Does one lexical rule derive exactly this text?  The matcher has the unpruned
    recogniser's shape, but an entry in progress answers nothing instead of
    refusing. */
module Lexical {
  import opened Grammars
  import opened Analyses
  import opened Unpruned
  import opened Straight

  type Answers = map<Key, set<nat>>

  class Matcher {
    const r: Reading
    // The derivation asked for is not circular, so nothing is lost.
    ghost const whole: bool
    var seen: Answers
    ghost var pending: set<Key>

    /** Everything answered is a derivation by questions answered for good, none of
        which comes round, and all of them when nothing is lost. */
    ghost predicate Answering()
      reads this
    {
      && r.g.Valid() && seen.Keys <= AllKeys(r) && pending <= seen.Keys
      && forall u {:trigger Unseal(u)} :: Unseal(u) ==>
           && (forall k :: k in seen ==> InRange(r, k))
           && (forall k :: k in pending ==> seen[k] == {})
           && (forall k :: k in seen - pending ==> Right(r, whole, k, seen[k], Done()))
    }

    /** The questions answered for good. */
    ghost function Done(): set<Key>
      reads this
    {
      seen.Keys - pending
    }

    /** The entries in progress are the calls being made, outermost first. */
    ghost predicate Making(path: seq<Key>)
      reads this
    {
      Asking(r, path) && pending == OnPath(path) && (whole && path != [] ==> !Circular(r, path[0]))
    }

    constructor (reading: Reading, ghost exact: bool)
      requires reading.g.Valid()
      ensures r == reading && whole == exact && Answering() && Making([])
    {
      r, whole, seen, pending := reading, exact, map[], {};
    }

    method Item(n: NodeId, at: nat, ghost path: seq<Key>) returns (ends: set<nat>)
      requires Answering() && Making(path) && Asking(r, path + [(n, at)])
      requires whole ==> !Circular(r, (path + [(n, at)])[0])
      modifies this`seen, this`pending
      ensures Answering() && Making(path) && old(seen.Keys) <= seen.Keys && old(Done()) <= Done()
      ensures InRange(r, (n, at)) && Right(r, whole, (n, at), ends, Done())
      decreases AllKeys(r) - seen.Keys, 0
    {
      assert (path + [(n, at)])[|path|] == (n, at);
      if (n, at) in seen {
        ends := seen[(n, at)];
        assert Unseal(0);
        if (n, at) in pending {
          CircleFound(r, path, (n, at));
        }
        return;
      }
      assert (n, at) !in OnPath(path);
      Begin(n, at, path);
      ends := Expand(n, at, path);
      Finish(n, at, path, ends);
    }

    method Begin(n: NodeId, at: nat, ghost path: seq<Key>)
      requires Answering() && Making(path) && Asking(r, path + [(n, at)]) && (n, at) !in seen
      requires whole ==> !Circular(r, (path + [(n, at)])[0])
      modifies this`seen, this`pending
      ensures Answering() && InRange(r, (n, at)) && Making(path + [(n, at)]) && Done() == old(Done())
      ensures old(seen.Keys) <= seen.Keys && AllKeys(r) - seen.Keys < AllKeys(r) - old(seen.Keys)
    {
      assert Unseal(0);
      assert (path + [(n, at)])[|path|] == (n, at);
      assert (n, at) in path + [(n, at)] && InRange(r, (n, at));
      assert n in UpTo(|r.g.nodes|) && at in UpTo(r.input.Length() + 1);
      assert (n, at) in AllKeys(r);
      seen, pending := seen[(n, at) := {}], pending + {(n, at)};
      assert Done() == old(Done());
      assert OnPath(path + [(n, at)]) == OnPath(path) + {(n, at)};
    }

    method Finish(n: NodeId, at: nat, ghost path: seq<Key>, ends: set<nat>)
      requires Answering() && Making(path + [(n, at)]) && (n, at) !in path && Asking(r, path)
      requires InRange(r, (n, at)) && Right(r, whole, (n, at), ends, Done() + {(n, at)})
      modifies this`seen, this`pending
      ensures Answering() && Making(path) && old(seen.Keys) <= seen.Keys && Done() == old(Done()) + {(n, at)}
    {
      assert Unseal(0);
      ghost var before, more := seen, Done() + {(n, at)};
      forall k | k in Done()
        ensures Right(r, whole, k, before[k], more)
      {
        AllGoMore(r, k, before[k], Done(), more);
      }
      assert OnPath(path + [(n, at)]) == OnPath(path) + {(n, at)};
      assert path != [] ==> path[0] == (path + [(n, at)])[0];
      seen, pending := seen[(n, at) := ends], pending - {(n, at)};
      assert Done() == more;
    }

    method Expand(n: NodeId, at: nat, ghost path: seq<Key>) returns (ends: set<nat>)
      requires Answering() && InRange(r, (n, at)) && Making(path + [(n, at)])
      modifies this`seen, this`pending
      ensures Answering() && Making(path + [(n, at)]) && old(seen.Keys) <= seen.Keys && old(Done()) <= Done()
      ensures Right(r, whole, (n, at), ends, Done() + {(n, at)})
      decreases AllKeys(r) - seen.Keys, 3
    {
      var node := r.g.nodes[n];
      ChildrenBelow(r.g, n);
      match node {
        case Alt(_) => ends := AltEnds(n, at, path);
        case Seq(_) => ends := SeqEnds(n, at, path);
        case Opt(body) =>
          EndsOpt(r, n, at);
          Ask(path, n, at, body, at);
          var found := Item(body, at, path + [(n, at)]);
          ends := {at} + found;
          OptsGo(r, n, at, body, found, Done());
        case Star(body) =>
          EndsStar(r, n, at);
          ends := Repeat(n, body, at, path, false);
        case Plus(body) =>
          EndsPlus(r, n, at);
          ends := Repeat(n, body, at, path, true);
        case Rule(name) =>
          var target := Expansion(r.g, r.input.Layer(), name);
          if target.Some? {
            EndsRule(r, n, at, target.value);
            Ask(path, n, at, target.value, at);
            ends := Item(target.value, at, path + [(n, at)]);
            RulesGo(r, n, at, target.value, ends, Done());
          } else {
            EndsTerminal(r, n, at);
            ends := Terminal(r.input, node, at);
            TerminalsGo(r, n, at, Done());
          }
        case _ =>
          EndsTerminal(r, n, at);
          ends := Terminal(r.input, node, at);
          TerminalsGo(r, n, at, Done());
      }
    }

    lemma Ask(path: seq<Key>, n: NodeId, at: nat, m: NodeId, q: nat)
      requires Making(path + [(n, at)]) && InRange(r, (n, at)) && Asks(r, (n, at), (m, q))
      ensures Asking(r, path + [(n, at)] + [(m, q)])
      ensures (path + [(n, at)] + [(m, q)])[0] == (path + [(n, at)])[0]
      ensures whole ==> !Circular(r, (path + [(n, at)] + [(m, q)])[0])
    {
      AskingMore(r, path, (n, at), (m, q));
    }

    method AltEnds(n: NodeId, at: nat, ghost path: seq<Key>) returns (ends: set<nat>)
      requires Answering() && InRange(r, (n, at)) && Making(path + [(n, at)]) && r.g.nodes[n].Alt?
      modifies this`seen, this`pending
      ensures Answering() && Making(path + [(n, at)]) && old(seen.Keys) <= seen.Keys && old(Done()) <= Done()
      ensures Right(r, whole, (n, at), ends, Done() + {(n, at)})
      decreases AllKeys(r) - seen.Keys, 2
    {
      EndsAlt(r, n, at);
      var arms := r.g.nodes[n].arms;
      ends := {};
      for i := 0 to |arms|
        invariant Answering() && Making(path + [(n, at)]) && old(seen.Keys) <= seen.Keys && old(Done()) <= Done()
        invariant PartOf(whole, ends, EndsAny(r, arms[..i], at)) && AllGo(r, (n, at), ends, Done() + {(n, at)})
      {
        ghost var before := Done();
        Ask(path, n, at, arms[i], at);
        var found := Item(arms[i], at, path + [(n, at)]);
        AllGoMore(r, (n, at), ends, before + {(n, at)}, Done() + {(n, at)});
        ArmsGo(r, n, at, i, found, Done());
        ends := ends + found;
        EndsAnySnoc(r, arms, i, at);
      }
      assert arms[..|arms|] == arms;
    }

    method SeqEnds(n: NodeId, at: nat, ghost path: seq<Key>) returns (reached: set<nat>)
      requires Answering() && InRange(r, (n, at)) && Making(path + [(n, at)]) && r.g.nodes[n].Seq?
      modifies this`seen, this`pending
      ensures Answering() && Making(path + [(n, at)]) && old(seen.Keys) <= seen.Keys && old(Done()) <= Done()
      ensures Right(r, whole, (n, at), reached, Done() + {(n, at)})
      decreases AllKeys(r) - seen.Keys, 2
    {
      EndsSeq(r, n, at);
      EndsNoItems(r, at);
      NoItemsGo(r, at, Done());
      var items := r.g.nodes[n].items;
      reached := {at};
      assert items[..0] == [];
      for i := 0 to |items|
        invariant Answering() && Making(path + [(n, at)]) && old(seen.Keys) <= seen.Keys && old(Done()) <= Done()
        invariant PartOf(whole, reached, EndsItems(r, items[..i], at)) && AllGoItems(r, items[..i], at, reached, Done())
      {
        ghost var before, from := Done(), reached;
        EndsItemsSnoc(r, items, i, at);
        reached := Following(n, items[i], at, reached, path);
        AllGoItemsMore(r, items[..i], at, from, before, Done());
        ItemsGo(r, items, i, at, from, reached, Done());
        if reached == {} {
          if whole {
            EndsItemsStop(r, items, i + 1, at);
          }
          return;
        }
      }
      assert items[..|items|] == items;
      SeqsGo(r, n, at, reached, Done());
    }

    method Following(n: NodeId, child: NodeId, at: nat, from: set<nat>, ghost path: seq<Key>)
      returns (following: set<nat>)
      requires Answering() && InRange(r, (n, at)) && Making(path + [(n, at)])
      requires forall q :: q in from ==> Asks(r, (n, at), (child, q)) && Ok(r, child, q)
      modifies this`seen, this`pending
      ensures Answering() && Making(path + [(n, at)]) && old(seen.Keys) <= seen.Keys && old(Done()) <= Done()
      ensures PartOf(whole, following, Step(r, child, from))
      ensures forall e :: e in following ==> GoesOn(r, child, from, e, Done())
      decreases AllKeys(r) - seen.Keys, 1
    {
      var left := from;
      following := {};
      while left != {}
        invariant left <= from
        invariant Answering() && Making(path + [(n, at)]) && old(seen.Keys) <= seen.Keys && old(Done()) <= Done()
        invariant PartOf(whole, following, Step(r, child, from - left))
        invariant forall e :: e in following ==> GoesOn(r, child, from, e, Done())
        decreases left
      {
        var position :| position in left;
        ghost var before := Done();
        Ask(path, n, at, child, position);
        var ends := Item(child, position, path + [(n, at)]);
        GoesOnKept(r, child, from, following, before, Done());
        StepAdds(r, child, from - left, position);
        following, left := following + ends, left - {position};
        assert from - left == from - (left + {position}) + {position};
      }
      assert from - left == from;
    }

    method Repeat(n: NodeId, body: NodeId, at: nat, ghost path: seq<Key>, atLeastOne: bool) returns (reached: set<nat>)
      requires Answering() && InRange(r, (n, at)) && Making(path + [(n, at)])
      requires r.g.nodes[n] == (if atLeastOne then Plus(body) else Star(body)) && body < n
      modifies this`seen, this`pending
      ensures Answering() && Making(path + [(n, at)]) && old(seen.Keys) <= seen.Keys && old(Done()) <= Done()
      ensures PartOf(whole, reached, EndsMany(r, body, at) - (if atLeastOne then {at} else {}))
      ensures AllGo(r, (n, at), reached, Done() + {(n, at)})
      decreases AllKeys(r) - seen.Keys, 2
    {
      reached := if atLeastOne then {} else {at};
      var frontier := {at};
      ManyNone(r, body, at);
      NoneGoes(r, body, at, Done());
      while frontier != {}
        invariant Answering() && Making(path + [(n, at)]) && old(seen.Keys) <= seen.Keys && old(Done()) <= Done()
        invariant Reaching(r, body, at, reached, frontier, atLeastOne)
        invariant AllGoMany(r, body, at, reached + {at}, Done())
        invariant whole ==> Iterating(r, body, at, reached, frontier, atLeastOne)
        decreases UpTo(r.input.Length() + 1) - reached, frontier
      {
        ghost var before := Done();
        var following := Fresh(n, body, at, frontier, reached, path);
        AllGoManyMore(r, body, at, reached + {at}, before, Done());
        IterationsGoOn(r, body, at, reached + {at}, frontier, following, Done());
        assert reached + following + {at} == reached + {at} + following;
        ReachingStep(r, body, at, reached, frontier, following, atLeastOne);
        if whole {
          IterationStep(r, body, at, reached, frontier, following, atLeastOne);
        }
        reached, frontier := reached + following, following;
      }
      if whole {
        IterationEnds(r, body, at, reached, atLeastOne);
      }
      RepeatsGo(r, n, at, body, reached, Done());
    }

    method Fresh(n: NodeId, body: NodeId, at: nat, frontier: set<nat>, reached: set<nat>, ghost path: seq<Key>)
      returns (following: set<nat>)
      requires Answering() && InRange(r, (n, at)) && Making(path + [(n, at)])
      requires forall q :: q in frontier ==> Asks(r, (n, at), (body, q)) && Ok(r, body, q)
      modifies this`seen, this`pending
      ensures Answering() && Making(path + [(n, at)]) && old(seen.Keys) <= seen.Keys && old(Done()) <= Done()
      ensures PartOf(whole, following, Consuming(r, body, frontier) - reached)
      ensures forall e :: e in following ==> GoesFurther(r, body, frontier, e, Done())
      decreases AllKeys(r) - seen.Keys, 1
    {
      var left := frontier;
      following := {};
      while left != {}
        invariant left <= frontier
        invariant Answering() && Making(path + [(n, at)]) && old(seen.Keys) <= seen.Keys && old(Done()) <= Done()
        invariant PartOf(whole, following, Consuming(r, body, frontier - left) - reached)
        invariant forall e :: e in following ==> GoesFurther(r, body, frontier, e, Done())
        decreases left
      {
        var position :| position in left;
        ghost var before := Done();
        Ask(path, n, at, body, position);
        var ends := Item(body, position, path + [(n, at)]);
        GoesFurtherKept(r, body, frontier, following, before, Done());
        ConsumingAdds(r, body, frontier - left, position);
        following, left := following + (set end | end in ends && end !in reached && end != position), left - {position};
        assert frontier - left == frontier - (left + {position}) + {position};
      }
      assert frontier - left == frontier;
    }
  }

  /** Part of the answer, and all of it when nothing is lost. */
  ghost predicate PartOf(whole: bool, part: set<nat>, all: set<nat>) {
    part <= all && (whole ==> part == all)
  }

  ghost predicate Right(r: Reading, whole: bool, k: Key, ends: set<nat>, keys: set<Key>) {
    InRange(r, k) && PartOf(whole, ends, Ends(r, k.0, k.1)) && AllGo(r, k, ends, keys)
  }

  ghost predicate Reaching(r: Reading, body: NodeId, at: nat, reached: set<nat>, frontier: set<nat>, atLeastOne: bool) {
    && Ok(r, body, at)
    && frontier <= reached + {at}
    && reached <= EndsMany(r, body, at)
    && (atLeastOne ==> at !in reached)
    && (forall q :: q in frontier ==> q in EndsMany(r, body, at))
  }

  lemma ReachingStep(r: Reading, body: NodeId, at: nat, reached: set<nat>, frontier: set<nat>, following: set<nat>,
                     atLeastOne: bool)
    requires Reaching(r, body, at, reached, frontier, atLeastOne) && frontier != {}
    requires following <= Consuming(r, body, frontier) - reached
    ensures Reaching(r, body, at, reached + following, following, atLeastOne)
    ensures UpTo(r.input.Length() + 1) - (reached + following) < UpTo(r.input.Length() + 1) - reached
         || (reached + following == reached && following == {})
  {
    forall e | e in following
      ensures e in EndsMany(r, body, at) && at < e <= r.input.Length()
    {
      var m :| m in frontier && e in Ends(r, body, m) && e != m;
      ManySnoc(r, body, at, m, e);
    }
    if following != {} {
      var e :| e in following;
      assert e in UpTo(r.input.Length() + 1) - reached;
    }
  }

  // ------------------------------------------------------------------
  // The verdict

  /** `lexical_matches`.  A yes is always a derivation in which no question comes
      round, left-recursive grammars included; a no is the absence of any derivation
      unless deriving the rule is circular. */
  method LexicalMatches(g: Grammar, rule: string, text: string) returns (yes: bool)
    requires g.Valid()
    ensures yes ==> rule in g.trees && Derives(Reading(g, Characters(text)), g.trees[rule], 0, |text|)
    ensures yes ==> DerivesStraight(Reading(g, Characters(text)), g.trees[rule], 0, |text|)
    ensures rule in g.trees && !Circular(Reading(g, Characters(text)), (g.trees[rule], 0)) ==>
              (yes <==> Derives(Reading(g, Characters(text)), g.trees[rule], 0, |text|))
  {
    if rule !in g.trees {
      return false;
    }
    var r := Reading(g, Characters(text));
    var matcher := new Matcher(r, !Circular(r, (g.trees[rule], 0)));
    var ends := matcher.Item(g.trees[rule], 0, []);
    EndsAreDerivations(r, g.trees[rule], 0, |text|);
    yes := |text| in ends;
    if yes {
      GoesMore(r, g.trees[rule], 0, |text|, matcher.Done(), AllKeys(r));
    }
  }

  // ------------------------------------------------------------------
  // What left recursion loses

  /** `run ::= run "a" | "b"`. */
  const LEFT: Grammar :=
    Grammar([Rule("run"), Lit("a"), Lit("b"), Seq([0, 1]), Seq([2]), Alt([3, 4])], map["run" := 5])

  const BA := Reading(LEFT, Characters("ba"))

  lemma LeftSeesLetters()
    ensures Terminal(BA.input, Lit("a"), 1) == {2} && Terminal(BA.input, Lit("b"), 0) == {1}
  {
    assert "ba"[0..1] == "b" && "ba"[1..2] == "a";
  }

  lemma LeftShort()
    ensures Ok(BA, 5, 0) && Yields(BA, Arm(1, Then(1, Leaf, Done)), 5, 0, 1)
  {
    LeftSeesLetters();
    assert Yields(BA, Leaf, 2, 0, 1);
    assert YieldsItems(BA, Done, [], 1, 1);
    assert [2][1..] == [];
    assert YieldsItems(BA, Then(1, Leaf, Done), [2], 0, 1);
    assert Yields(BA, Then(1, Leaf, Done), 4, 0, 1);
  }

  /** The rule derives the two letters, */
  lemma LeftDerives()
    ensures Ok(BA, 5, 0) && Derives(BA, 5, 0, 2)
  {
    LeftSeesLetters();
    LeftShort();
    var short := Arm(1, Then(1, Leaf, Done));
    assert Yields(BA, Inner(short), 0, 0, 1);
    assert Yields(BA, Leaf, 1, 1, 2);
    assert [1][1..] == [] && [0, 1][1..] == [1];
    assert YieldsItems(BA, Done, [], 2, 2);
    assert YieldsItems(BA, Then(2, Leaf, Done), [1], 1, 2);
    var long := Then(1, Inner(short), Then(2, Leaf, Done));
    assert YieldsItems(BA, long, [0, 1], 0, 2);
    assert Yields(BA, long, 3, 0, 2);
    assert Yields(BA, Arm(0, long), 5, 0, 2);
  }

  lemma ShortArmEnds(p: Proof, e: nat)
    requires YieldsItems(BA, p, [2], 0, e)
    ensures e == 1
  {
    LeftSeesLetters();
    assert Yields(BA, p.head, 2, 0, p.mid);
    assert BA.g.nodes[2] == Lit("b");
    assert [2][1..] == [] && YieldsItems(BA, p.tail, [], p.mid, e);
  }

  lemma LongArmCalls(p: Proof, e: nat)
    requires YieldsItems(BA, p, [0, 1], 0, e)
    ensures p.Then? && p.mid <= 2 && Yields(BA, p.head, 0, 0, p.mid) && p.head.Inner?
  {
    assert BA.g.nodes[0] == Rule("run");
  }

  /** A call of the rule asks for the rule. */
  lemma CallAsks(p: Proof, keys: set<Key>)
    requires p.Inner? && Ok(BA, 0, 0) && AsksIn(BA, p, 0, 0, keys)
    ensures (5, 0) in keys
  {
    assert BA.g.nodes[0] == Rule("run");
    assert AsksIn(BA, p.body, 5, 0, keys - {(0, 0)});
  }

  /** but only by asking for itself where it is asked for. */
  lemma LeftComesRound(p: Proof, keys: set<Key>)
    requires Ok(BA, 5, 0) && Yields(BA, p, 5, 0, 2)
    ensures !AsksIn(BA, p, 5, 0, keys)
  {
    assert BA.g.nodes[5] == Alt([3, 4]) && BA.g.nodes[3] == Seq([0, 1]) && BA.g.nodes[4] == Seq([2]);
    var others := keys - {(5, 0)};
    if p.index == 1 {
      assert Yields(BA, p.body, 4, 0, 2);
      ShortArmEnds(p.body, 2);
    } else {
      assert Yields(BA, p.body, 3, 0, 2);
      LongArmCalls(p.body, 2);
      if AsksIn(BA, p, 5, 0, keys) {
        assert AsksIn(BA, p.body, 3, 0, others) && ItemsAskIn(BA, p.body, [0, 1], 0, others - {(3, 0)});
        CallAsks(p.body.head, others - {(3, 0)});
      }
    }
  }

  lemma LeftIsNotStraight()
    ensures Ok(BA, 5, 0) && !DerivesStraight(BA, 5, 0, 2)
  {
    forall p | Yields(BA, p, 5, 0, 2)
      ensures !AsksIn(BA, p, 5, 0, AllKeys(BA))
    {
      LeftComesRound(p, AllKeys(BA));
    }
  }

  /** So the matcher says no to a text that the rule derives. */
  method LeftRecursionIsMissed() returns (yes: bool)
    ensures Ok(BA, 5, 0) && Derives(BA, 5, 0, 2) && !yes
  {
    LeftDerives();
    LeftIsNotStraight();
    yes := LexicalMatches(LEFT, "run", "ba");
  }

  /** A grammar whose lexical rules cannot reach themselves without consuming is
      matched completely: no text makes a derivation circular. */
  lemma ConsumingRulesAreWhole(g: Grammar, ids: set<NodeId>, nullable: set<NodeId>, n: NodeId, text: string)
    requires Region(g, TextLayer, ids) && NullableClosed(g, TextLayer, ids, nullable) && n in ids
    requires !LeadingCalls(g, TextLayer, ids, nullable).Cyclic()
    ensures !Circular(Reading(g, Characters(text)), (n, 0))
  {
    if Circular(Reading(g, Characters(text)), (n, 0)) {
      CircularIsCyclic(Reading(g, Characters(text)), ids, nullable, (n, 0));
    }
  }
}
