/** Derivations in which no question comes round to itself: no node derives from one
    place inside a derivation of the same node from the same place. */
module Straight {
  import opened Options
  import opened Grammars
  import opened Unpruned

  /** Every path down the tree asks only such questions, and none of them twice. */
  ghost predicate AsksIn(r: Reading, p: Proof, n: NodeId, at: nat, keys: set<Key>)
    requires Ok(r, n, at)
    decreases p, 1
  {
    ChildrenBelow(r.g, n);
    var others := keys - {(n, at)};
    (n, at) in keys &&
    match r.g.nodes[n]
    case Alt(arms) => p.Arm? && p.index < |arms| && AsksIn(r, p.body, arms[p.index], at, others)
    case Seq(items) => ItemsAskIn(r, p, items, at, others)
    case Opt(body) => p.Done? || (p.Inner? && AsksIn(r, p.body, body, at, others))
    case Star(body) => ManyAskIn(r, p, body, at, others)
    case Plus(body) => ManyAskIn(r, p, body, at, others)
    case Rule(name) =>
      var target := Expansion(r.g, r.input.Layer(), name);
      target.Some? ==> p.Inner? && AsksIn(r, p.body, target.value, at, others)
    case _ => true
  }

  ghost predicate ItemsAskIn(r: Reading, p: Proof, items: seq<NodeId>, at: nat, keys: set<Key>)
    requires OkAll(r, items, at)
    decreases p, 0
  {
    items == [] ||
    (p.Then? && p.mid <= r.input.Length() && AsksIn(r, p.head, items[0], at, keys)
     && ItemsAskIn(r, p.tail, items[1..], p.mid, keys))
  }

  ghost predicate ManyAskIn(r: Reading, p: Proof, body: NodeId, at: nat, keys: set<Key>)
    requires Ok(r, body, at)
    decreases p, 0
  {
    match p
    case Then(mid, head, tail) =>
      at < mid <= r.input.Length() && AsksIn(r, head, body, at, keys) && ManyAskIn(r, tail, body, mid, keys)
    case _ => true
  }

  // ------------------------------------------------------------------
  // More questions allow more

  lemma {:induction false} AskMore(r: Reading, p: Proof, n: NodeId, at: nat, keys: set<Key>, more: set<Key>)
    requires Ok(r, n, at) && AsksIn(r, p, n, at, keys) && keys <= more
    ensures AsksIn(r, p, n, at, more)
    decreases p, 1
  {
    ChildrenBelow(r.g, n);
    var k := (n, at);
    match r.g.nodes[n]
    case Alt(arms) => AskMore(r, p.body, arms[p.index], at, keys - {k}, more - {k});
    case Seq(items) => ItemsAskMore(r, p, items, at, keys - {k}, more - {k});
    case Opt(body) => if p.Inner? { AskMore(r, p.body, body, at, keys - {k}, more - {k}); }
    case Star(body) => ManyAskMore(r, p, body, at, keys - {k}, more - {k});
    case Plus(body) => ManyAskMore(r, p, body, at, keys - {k}, more - {k});
    case Rule(name) =>
      var target := Expansion(r.g, r.input.Layer(), name);
      if target.Some? {
        AskMore(r, p.body, target.value, at, keys - {k}, more - {k});
      }
    case _ =>
  }

  lemma {:induction false} ItemsAskMore(r: Reading, p: Proof, items: seq<NodeId>, at: nat, keys: set<Key>,
                                           more: set<Key>)
    requires OkAll(r, items, at) && ItemsAskIn(r, p, items, at, keys) && keys <= more
    ensures ItemsAskIn(r, p, items, at, more)
    decreases p, 0
  {
    if items != [] {
      AskMore(r, p.head, items[0], at, keys, more);
      ItemsAskMore(r, p.tail, items[1..], p.mid, keys, more);
    }
  }

  lemma {:induction false} ManyAskMore(r: Reading, p: Proof, body: NodeId, at: nat, keys: set<Key>, more: set<Key>)
    requires Ok(r, body, at) && ManyAskIn(r, p, body, at, keys) && keys <= more
    ensures ManyAskIn(r, p, body, at, more)
    decreases p, 0
  {
    if p.Then? {
      AskMore(r, p.head, body, at, keys, more);
      ManyAskMore(r, p.tail, body, p.mid, keys, more);
    }
  }

  // ------------------------------------------------------------------
  // The ends of such derivations

  /** `e` is an end by a derivation that stays with these questions. */
  ghost predicate Goes(r: Reading, n: NodeId, at: nat, e: nat, keys: set<Key>)
    requires Ok(r, n, at)
  {
    exists p :: Yields(r, p, n, at, e) && AsksIn(r, p, n, at, keys)
  }

  ghost predicate GoesItems(r: Reading, items: seq<NodeId>, at: nat, e: nat, keys: set<Key>)
    requires OkAll(r, items, at)
  {
    exists p :: YieldsItems(r, p, items, at, e) && ItemsAskIn(r, p, items, at, keys)
  }

  ghost predicate GoesMany(r: Reading, body: NodeId, at: nat, e: nat, keys: set<Key>)
    requires Ok(r, body, at)
  {
    exists p :: YieldsMany(r, p, body, at, e) && ManyAskIn(r, p, body, at, keys)
  }

  /** A derivation none of whose questions comes round. */
  ghost predicate DerivesStraight(r: Reading, n: NodeId, at: nat, e: nat)
    requires Ok(r, n, at)
  {
    Goes(r, n, at, e, AllKeys(r))
  }

  lemma GoesMore(r: Reading, n: NodeId, at: nat, e: nat, keys: set<Key>, more: set<Key>)
    requires Ok(r, n, at) && Goes(r, n, at, e, keys) && keys <= more
    ensures Goes(r, n, at, e, more)
  {
    var p :| Yields(r, p, n, at, e) && AsksIn(r, p, n, at, keys);
    AskMore(r, p, n, at, keys, more);
  }

  // Below, `keys` are the questions the parts may ask, and the whole asks its own too.

  lemma ArmGoes(r: Reading, n: NodeId, at: nat, e: nat, i: nat, keys: set<Key>)
    requires Ok(r, n, at) && r.g.nodes[n].Alt? && i < |r.g.nodes[n].arms| && (n, at) !in keys
    requires Ok(r, r.g.nodes[n].arms[i], at) && Goes(r, r.g.nodes[n].arms[i], at, e, keys)
    ensures Goes(r, n, at, e, keys + {(n, at)})
  {
    var arm := r.g.nodes[n].arms[i];
    var p :| Yields(r, p, arm, at, e) && AsksIn(r, p, arm, at, keys);
    assert keys + {(n, at)} - {(n, at)} == keys;
    assert Yields(r, Arm(i, p), n, at, e) && AsksIn(r, Arm(i, p), n, at, keys + {(n, at)});
  }

  lemma SeqGoes(r: Reading, n: NodeId, at: nat, e: nat, keys: set<Key>)
    requires Ok(r, n, at) && r.g.nodes[n].Seq? && (n, at) !in keys && OkAll(r, r.g.nodes[n].items, at)
    requires GoesItems(r, r.g.nodes[n].items, at, e, keys)
    ensures Goes(r, n, at, e, keys + {(n, at)})
  {
    var items := r.g.nodes[n].items;
    var p :| YieldsItems(r, p, items, at, e) && ItemsAskIn(r, p, items, at, keys);
    assert keys + {(n, at)} - {(n, at)} == keys;
    assert Yields(r, p, n, at, e) && AsksIn(r, p, n, at, keys + {(n, at)});
  }

  lemma OptGoes(r: Reading, n: NodeId, at: nat, e: nat, body: NodeId, keys: set<Key>)
    requires Ok(r, n, at) && r.g.nodes[n] == Opt(body) && (n, at) !in keys && Ok(r, body, at)
    requires e == at || Goes(r, body, at, e, keys)
    ensures Goes(r, n, at, e, keys + {(n, at)})
  {
    assert keys + {(n, at)} - {(n, at)} == keys;
    if e == at {
      assert Yields(r, Done, n, at, e) && AsksIn(r, Done, n, at, keys + {(n, at)});
    } else {
      var p :| Yields(r, p, body, at, e) && AsksIn(r, p, body, at, keys);
      assert Yields(r, Inner(p), n, at, e) && AsksIn(r, Inner(p), n, at, keys + {(n, at)});
    }
  }

  lemma RuleGoes(r: Reading, n: NodeId, at: nat, e: nat, target: NodeId, keys: set<Key>)
    requires Ok(r, n, at) && r.g.nodes[n].Rule? && (n, at) !in keys && Ok(r, target, at)
    requires Expansion(r.g, r.input.Layer(), r.g.nodes[n].name) == Some(target) && Goes(r, target, at, e, keys)
    ensures Goes(r, n, at, e, keys + {(n, at)})
  {
    var p :| Yields(r, p, target, at, e) && AsksIn(r, p, target, at, keys);
    assert keys + {(n, at)} - {(n, at)} == keys;
    assert Yields(r, Inner(p), n, at, e) && AsksIn(r, Inner(p), n, at, keys + {(n, at)});
  }

  lemma TerminalGoes(r: Reading, n: NodeId, at: nat, e: nat, keys: set<Key>)
    requires Ok(r, n, at) && IsTerminal(r.g, r.input.Layer(), r.g.nodes[n])
    requires e in Terminal(r.input, r.g.nodes[n], at)
    ensures Goes(r, n, at, e, keys + {(n, at)})
  {
    assert Yields(r, Leaf, n, at, e) && AsksIn(r, Leaf, n, at, keys + {(n, at)});
  }

  lemma ManyGoes(r: Reading, n: NodeId, at: nat, e: nat, body: NodeId, keys: set<Key>)
    requires Ok(r, n, at) && (r.g.nodes[n] == Star(body) || (r.g.nodes[n] == Plus(body) && e != at))
    requires (n, at) !in keys && Ok(r, body, at) && GoesMany(r, body, at, e, keys)
    ensures Goes(r, n, at, e, keys + {(n, at)})
  {
    var p :| YieldsMany(r, p, body, at, e) && ManyAskIn(r, p, body, at, keys);
    assert keys + {(n, at)} - {(n, at)} == keys;
    assert Yields(r, p, n, at, e) && AsksIn(r, p, n, at, keys + {(n, at)});
  }

  lemma NoItemsGo(r: Reading, at: nat, keys: set<Key>)
    requires r.g.Valid() && at <= r.input.Length()
    ensures GoesItems(r, [], at, at, keys)
  {
    assert YieldsItems(r, Done, [], at, at) && ItemsAskIn(r, Done, [], at, keys);
  }

  lemma ItemsThenGoes(r: Reading, items: seq<NodeId>, k: nat, at: nat, mid: nat, e: nat, keys: set<Key>)
    requires OkAll(r, items, at) && k < |items| && GoesItems(r, items[..k], at, mid, keys)
    requires Ok(r, items[k], mid) && Goes(r, items[k], mid, e, keys)
    ensures GoesItems(r, items[..k + 1], at, e, keys)
  {
    var p :| YieldsItems(r, p, items[..k], at, mid) && ItemsAskIn(r, p, items[..k], at, keys);
    var q :| Yields(r, q, items[k], mid, e) && AsksIn(r, q, items[k], mid, keys);
    YieldsBounds(r, q, items[k], mid, e);
    assert items[..k + 1] == items[..k] + [items[k]];
    var joined := ThenItem(r, p, items[..k], at, mid, q, items[k], e, keys);
  }

  lemma {:induction false} ThenItem(r: Reading, p: Proof, items: seq<NodeId>, at: nat, mid: nat, q: Proof, last: NodeId,
                                    e: nat, keys: set<Key>) returns (joined: Proof)
    requires OkAll(r, items, at) && OkAll(r, items + [last], at) && Ok(r, last, mid) && e <= r.input.Length()
    requires YieldsItems(r, p, items, at, mid) && ItemsAskIn(r, p, items, at, keys)
    requires Yields(r, q, last, mid, e) && AsksIn(r, q, last, mid, keys)
    ensures YieldsItems(r, joined, items + [last], at, e) && ItemsAskIn(r, joined, items + [last], at, keys)
    decreases p
  {
    if items == [] {
      assert [last][1..] == [] && items + [last] == [last];
      assert YieldsItems(r, Done, [], e, e) && ItemsAskIn(r, Done, [], e, keys);
      joined := Then(e, q, Done);
    } else {
      assert (items + [last])[1..] == items[1..] + [last];
      var rest := ThenItem(r, p.tail, items[1..], p.mid, mid, q, last, e, keys);
      joined := Then(p.mid, p.head, rest);
    }
  }

  lemma NoneGoes(r: Reading, body: NodeId, at: nat, keys: set<Key>)
    requires Ok(r, body, at)
    ensures GoesMany(r, body, at, at, keys)
  {
    assert YieldsMany(r, Done, body, at, at) && ManyAskIn(r, Done, body, at, keys);
  }

  lemma ManyThenGoes(r: Reading, body: NodeId, at: nat, mid: nat, e: nat, keys: set<Key>)
    requires Ok(r, body, at) && GoesMany(r, body, at, mid, keys)
    requires Ok(r, body, mid) && Goes(r, body, mid, e, keys) && e != mid
    ensures GoesMany(r, body, at, e, keys)
  {
    var p :| YieldsMany(r, p, body, at, mid) && ManyAskIn(r, p, body, at, keys);
    var q :| Yields(r, q, body, mid, e) && AsksIn(r, q, body, mid, keys);
    YieldsBounds(r, q, body, mid, e);
    var joined := ThenOne(r, p, body, at, mid, q, e, keys);
  }

  lemma {:induction false} ThenOne(r: Reading, p: Proof, body: NodeId, at: nat, mid: nat, q: Proof, e: nat,
                                   keys: set<Key>)
    returns (joined: Proof)
    requires Ok(r, body, at) && Ok(r, body, mid) && mid < e <= r.input.Length()
    requires YieldsMany(r, p, body, at, mid) && ManyAskIn(r, p, body, at, keys)
    requires Yields(r, q, body, mid, e) && AsksIn(r, q, body, mid, keys)
    ensures YieldsMany(r, joined, body, at, e) && ManyAskIn(r, joined, body, at, keys)
    decreases p
  {
    if p.Done? {
      assert YieldsMany(r, Done, body, e, e) && ManyAskIn(r, Done, body, e, keys);
      joined := Then(e, q, Done);
    } else {
      var rest := ThenOne(r, p.tail, body, p.mid, mid, q, e, keys);
      joined := Then(p.mid, p.head, rest);
    }
  }

  // ------------------------------------------------------------------
  // Sets of ends

  ghost predicate AllGo(r: Reading, k: Key, ends: set<nat>, keys: set<Key>) {
    InRange(r, k) && forall e :: e in ends ==> Goes(r, k.0, k.1, e, keys)
  }

  ghost predicate AllGoItems(r: Reading, items: seq<NodeId>, at: nat, ends: set<nat>, keys: set<Key>) {
    OkAll(r, items, at) && forall e :: e in ends ==> GoesItems(r, items, at, e, keys)
  }

  ghost predicate AllGoMany(r: Reading, body: NodeId, at: nat, ends: set<nat>, keys: set<Key>) {
    Ok(r, body, at) && forall e :: e in ends ==> GoesMany(r, body, at, e, keys)
  }

  /** From one of these places the node goes on to `e`. */
  ghost predicate GoesOn(r: Reading, n: NodeId, from: set<nat>, e: nat, keys: set<Key>) {
    exists q :: q in from && Ok(r, n, q) && Goes(r, n, q, e, keys)
  }

  /** And somewhere else than where it was. */
  ghost predicate GoesFurther(r: Reading, n: NodeId, from: set<nat>, e: nat, keys: set<Key>) {
    exists q :: q in from && q != e && Ok(r, n, q) && Goes(r, n, q, e, keys)
  }

  lemma AllGoMore(r: Reading, k: Key, ends: set<nat>, keys: set<Key>, more: set<Key>)
    requires AllGo(r, k, ends, keys) && keys <= more
    ensures AllGo(r, k, ends, more)
  {
    forall e | e in ends
      ensures Goes(r, k.0, k.1, e, more)
    {
      GoesMore(r, k.0, k.1, e, keys, more);
    }
  }

  lemma AllGoItemsMore(r: Reading, items: seq<NodeId>, at: nat, ends: set<nat>, keys: set<Key>, more: set<Key>)
    requires AllGoItems(r, items, at, ends, keys) && keys <= more
    ensures AllGoItems(r, items, at, ends, more)
  {
    forall e | e in ends
      ensures GoesItems(r, items, at, e, more)
    {
      var p :| YieldsItems(r, p, items, at, e) && ItemsAskIn(r, p, items, at, keys);
      ItemsAskMore(r, p, items, at, keys, more);
    }
  }

  lemma AllGoManyMore(r: Reading, body: NodeId, at: nat, ends: set<nat>, keys: set<Key>, more: set<Key>)
    requires AllGoMany(r, body, at, ends, keys) && keys <= more
    ensures AllGoMany(r, body, at, ends, more)
  {
    forall e | e in ends
      ensures GoesMany(r, body, at, e, more)
    {
      var p :| YieldsMany(r, p, body, at, e) && ManyAskIn(r, p, body, at, keys);
      ManyAskMore(r, p, body, at, keys, more);
    }
  }

  lemma GoesOnMore(r: Reading, n: NodeId, from: set<nat>, wider: set<nat>, e: nat, keys: set<Key>, more: set<Key>)
    requires keys <= more && from <= wider
    ensures GoesOn(r, n, from, e, keys) ==> GoesOn(r, n, wider, e, more)
    ensures GoesFurther(r, n, from, e, keys) ==> GoesFurther(r, n, wider, e, more)
  {
    forall q | q in from && Ok(r, n, q) && Goes(r, n, q, e, keys)
      ensures Goes(r, n, q, e, more)
    {
      GoesMore(r, n, q, e, keys, more);
    }
  }

  lemma ArmsGo(r: Reading, n: NodeId, at: nat, i: nat, found: set<nat>, keys: set<Key>)
    requires Ok(r, n, at) && r.g.nodes[n].Alt? && i < |r.g.nodes[n].arms| && (n, at) !in keys
    requires AllGo(r, (r.g.nodes[n].arms[i], at), found, keys)
    ensures AllGo(r, (n, at), found, keys + {(n, at)})
  {
    forall e | e in found
      ensures Goes(r, n, at, e, keys + {(n, at)})
    {
      ArmGoes(r, n, at, e, i, keys);
    }
  }

  lemma ItemsGo(r: Reading, items: seq<NodeId>, k: nat, at: nat, from: set<nat>, following: set<nat>, keys: set<Key>)
    requires OkAll(r, items, at) && k < |items| && AllGoItems(r, items[..k], at, from, keys)
    requires forall e :: e in following ==> GoesOn(r, items[k], from, e, keys)
    ensures AllGoItems(r, items[..k + 1], at, following, keys)
  {
    forall e | e in following
      ensures GoesItems(r, items[..k + 1], at, e, keys)
    {
      var q :| q in from && Ok(r, items[k], q) && Goes(r, items[k], q, e, keys);
      ItemsThenGoes(r, items, k, at, q, e, keys);
    }
  }

  lemma SeqsGo(r: Reading, n: NodeId, at: nat, ends: set<nat>, keys: set<Key>)
    requires Ok(r, n, at) && r.g.nodes[n].Seq? && (n, at) !in keys && AllGoItems(r, r.g.nodes[n].items, at, ends, keys)
    ensures AllGo(r, (n, at), ends, keys + {(n, at)})
  {
    forall e | e in ends
      ensures Goes(r, n, at, e, keys + {(n, at)})
    {
      SeqGoes(r, n, at, e, keys);
    }
  }

  lemma IterationsGo(r: Reading, body: NodeId, at: nat, reached: set<nat>, following: set<nat>, keys: set<Key>)
    requires AllGoMany(r, body, at, reached, keys)
    requires forall e :: e in following ==> GoesFurther(r, body, reached, e, keys)
    ensures AllGoMany(r, body, at, reached + following, keys)
  {
    forall e | e in following
      ensures GoesMany(r, body, at, e, keys)
    {
      var q :| q in reached && q != e && Ok(r, body, q) && Goes(r, body, q, e, keys);
      ManyThenGoes(r, body, at, q, e, keys);
    }
  }

  lemma RepeatsGo(r: Reading, n: NodeId, at: nat, body: NodeId, ends: set<nat>, keys: set<Key>)
    requires Ok(r, n, at) && (r.g.nodes[n] == Star(body) || (r.g.nodes[n] == Plus(body) && at !in ends))
    requires (n, at) !in keys && AllGoMany(r, body, at, ends, keys)
    ensures AllGo(r, (n, at), ends, keys + {(n, at)})
  {
    forall e | e in ends
      ensures Goes(r, n, at, e, keys + {(n, at)})
    {
      ManyGoes(r, n, at, e, body, keys);
    }
  }

  lemma OptsGo(r: Reading, n: NodeId, at: nat, body: NodeId, found: set<nat>, keys: set<Key>)
    requires Ok(r, n, at) && r.g.nodes[n] == Opt(body) && (n, at) !in keys && AllGo(r, (body, at), found, keys)
    ensures AllGo(r, (n, at), {at} + found, keys + {(n, at)})
  {
    forall e | e in {at} + found
      ensures Goes(r, n, at, e, keys + {(n, at)})
    {
      OptGoes(r, n, at, e, body, keys);
    }
  }

  lemma RulesGo(r: Reading, n: NodeId, at: nat, target: NodeId, ends: set<nat>, keys: set<Key>)
    requires Ok(r, n, at) && r.g.nodes[n].Rule? && (n, at) !in keys && AllGo(r, (target, at), ends, keys)
    requires Expansion(r.g, r.input.Layer(), r.g.nodes[n].name) == Some(target)
    ensures AllGo(r, (n, at), ends, keys + {(n, at)})
  {
    forall e | e in ends
      ensures Goes(r, n, at, e, keys + {(n, at)})
    {
      RuleGoes(r, n, at, e, target, keys);
    }
  }

  lemma TerminalsGo(r: Reading, n: NodeId, at: nat, keys: set<Key>)
    requires Ok(r, n, at) && IsTerminal(r.g, r.input.Layer(), r.g.nodes[n])
    ensures AllGo(r, (n, at), Terminal(r.input, r.g.nodes[n], at), keys + {(n, at)})
  {
    forall e | e in Terminal(r.input, r.g.nodes[n], at)
      ensures Goes(r, n, at, e, keys + {(n, at)})
    {
      TerminalGoes(r, n, at, e, keys);
    }
  }

  lemma GoesOnKept(r: Reading, n: NodeId, from: set<nat>, ends: set<nat>, keys: set<Key>, more: set<Key>)
    requires keys <= more && forall e :: e in ends ==> GoesOn(r, n, from, e, keys)
    ensures forall e :: e in ends ==> GoesOn(r, n, from, e, more)
  {
    forall e | e in ends
      ensures GoesOn(r, n, from, e, more)
    {
      GoesOnMore(r, n, from, from, e, keys, more);
    }
  }

  lemma GoesFurtherKept(r: Reading, n: NodeId, from: set<nat>, ends: set<nat>, keys: set<Key>, more: set<Key>)
    requires keys <= more && forall e :: e in ends ==> GoesFurther(r, n, from, e, keys)
    ensures forall e :: e in ends ==> GoesFurther(r, n, from, e, more)
  {
    forall e | e in ends
      ensures GoesFurther(r, n, from, e, more)
    {
      GoesOnMore(r, n, from, from, e, keys, more);
    }
  }

  lemma IterationsGoOn(r: Reading, body: NodeId, at: nat, reached: set<nat>, frontier: set<nat>, following: set<nat>,
                       keys: set<Key>)
    requires AllGoMany(r, body, at, reached, keys) && frontier <= reached
    requires forall e :: e in following ==> GoesFurther(r, body, frontier, e, keys)
    ensures AllGoMany(r, body, at, reached + following, keys)
  {
    forall e | e in following
      ensures GoesFurther(r, body, reached, e, keys)
    {
      GoesOnMore(r, body, frontier, reached, e, keys, keys);
    }
    IterationsGo(r, body, at, reached, following, keys);
  }
}
