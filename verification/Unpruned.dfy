/** The unpruned recogniser: one memo table for one token list, an entry that is
    still in progress, and a refusal when an entry in progress is asked for. */
module Unpruned {
  import opened Options
  import opened Grammars
  import opened Analyses
  import opened Searches

  /** An answer, or the refusal of a left-recursive production. */
  datatype Result<+T> = Success(value: T) | LeftRecursion(rule: string) {
    predicate IsFailure() {
      LeftRecursion?
    }

    function PropagateFailure<U>(): Result<U>
      requires LeftRecursion?
    {
      LeftRecursion(rule)
    }

    function Extract(): T
      requires Success?
    {
      value
    }
  }

  function LeadingCalls(g: Grammar, layer: Layer, ids: set<NodeId>, nullable: set<NodeId>): Calls {
    Calls(ids, (n: NodeId) => if n < |g.nodes| then Leading(g, layer, g.nodes[n], nullable) else [])
  }

  lemma LeadingCallsValid(g: Grammar, layer: Layer, ids: set<NodeId>, nullable: set<NodeId>)
    requires Region(g, layer, ids)
    ensures LeadingCalls(g, layer, ids, nullable).Valid()
  {
    var calls := LeadingCalls(g, layer, ids, nullable);
    forall a: NodeId, b: NodeId | calls.Edge(a, b)
      ensures b in ids
    {
      LeadingAreRefs(g, layer, g.nodes[a], nullable, b);
    }
  }

  /** A child of a sequence reached with nothing consumed is a leading call. */
  lemma ReachedLeads(r: Reading, ids: set<NodeId>, nullable: set<NodeId>, items: seq<NodeId>, k: nat, at: nat)
    requires OkAll(r, items, at) && Region(r.g, r.input.Layer(), ids)
    requires forall i :: 0 <= i < |items| ==> items[i] in ids
    requires NullableClosed(r.g, r.input.Layer(), ids, nullable)
    requires k < |items| && at in EndsItems(r, items[..k], at)
    ensures items[k] in LeadingItems(items, nullable)
  {
    var p :| YieldsItems(r, p, items[..k], at, at);
    NullableCoversItems(r, ids, nullable, p, items[..k], at);
    assert forall i :: 0 <= i < k ==> items[..k][i] == items[i];
    LeadingAt(items, nullable, k);
  }

  // ------------------------------------------------------------------
  // The calls a derivation makes

  type Key = (NodeId, nat)

  ghost predicate InRange(r: Reading, k: Key) {
    Ok(r, k.0, k.1)
  }

  /** Answering `a` asks for `b`. */
  ghost predicate Asks(r: Reading, a: Key, b: Key)
    requires InRange(r, a)
  {
    ChildrenBelow(r.g, a.0);
    match r.g.nodes[a.0]
    case Alt(arms) => b.0 in arms && b.1 == a.1
    case Seq(items) => exists i :: 0 <= i < |items| && b.0 == items[i] && b.1 in EndsItems(r, items[..i], a.1)
    case Opt(body) => b == (body, a.1)
    case Star(body) => b.0 == body && b.1 in EndsMany(r, body, a.1)
    case Plus(body) => b.0 == body && b.1 in EndsMany(r, body, a.1)
    case Rule(name) => Expansion(r.g, r.input.Layer(), name) == Some(b.0) && b.1 == a.1
    case _ => false
  }

  /** Each asks for the next. */
  ghost predicate Asking(r: Reading, path: seq<Key>) {
    && (forall k :: k in path ==> InRange(r, k))
    && (forall i, j :: 0 <= i && j == i + 1 < |path| ==> Asks(r, path[i], path[j]))
  }

  ghost predicate Repeats(path: seq<Key>) {
    exists i, j :: 0 <= i < j < |path| && path[i] == path[j]
  }

  /** Answering `root` asks, sooner or later, for something it is answering. */
  ghost predicate Circular(r: Reading, root: Key) {
    exists path :: path != [] && path[0] == root && Asking(r, path) && Repeats(path)
  }

  lemma AskedInRange(r: Reading, a: Key, b: Key)
    requires InRange(r, a) && Asks(r, a, b)
    ensures InRange(r, b) && a.1 <= b.1
  {
    ChildrenBelow(r.g, a.0);
  }

  lemma AskingMore(r: Reading, path: seq<Key>, k: Key, b: Key)
    requires Asking(r, path + [k]) && Asks(r, k, b)
    ensures Asking(r, path + [k] + [b])
  {
    AskedInRange(r, k, b);
    assert (path + [k])[|path|] == k;
  }

  /** The measure: a call is made with fewer tokens left, or it is a leading call. */
  lemma AskingDescends(r: Reading, ids: set<NodeId>, nullable: set<NodeId>, a: Key, b: Key)
    requires InRange(r, a) && Asks(r, a, b) && a.0 in ids
    requires Region(r.g, r.input.Layer(), ids) && NullableClosed(r.g, r.input.Layer(), ids, nullable)
    ensures b.0 in ids
    ensures a.1 < b.1 || (a.1 == b.1 && LeadingCalls(r.g, r.input.Layer(), ids, nullable).Edge(a.0, b.0))
  {
    var layer, node := r.input.Layer(), r.g.nodes[a.0];
    ChildrenBelow(r.g, a.0);
    AskedInRange(r, a, b);
    if node.Seq? {
      assert forall i :: 0 <= i < |node.items| ==> node.items[i] in Refs(r.g, layer, node);
      var i :| 0 <= i < |node.items| && b.0 == node.items[i] && b.1 in EndsItems(r, node.items[..i], a.1);
      if a.1 == b.1 {
        ReachedLeads(r, ids, nullable, node.items, i, a.1);
      }
    } else {
      assert b.0 in Leading(r.g, layer, node, nullable);
      LeadingAreRefs(r.g, layer, node, nullable, b.0);
    }
  }

  lemma {:induction false} AskingWalk(r: Reading, ids: set<NodeId>, nullable: set<NodeId>, path: seq<Key>, i: nat,
                                      j: nat)
    returns (walk: seq<NodeId>)
    requires Asking(r, path) && i <= j < |path| && path[i].0 in ids
    requires Region(r.g, r.input.Layer(), ids) && NullableClosed(r.g, r.input.Layer(), ids, nullable)
    ensures path[i].1 <= path[j].1 && path[j].0 in ids && |walk| == j - i + 1
    ensures path[i].1 == path[j].1 ==>
              LeadingCalls(r.g, r.input.Layer(), ids, nullable).Walk(walk) && walk[0] == path[i].0
              && walk[j - i] == path[j].0
    decreases j - i
  {
    if i == j {
      walk := [path[i].0];
    } else {
      var k := i + 1;
      assert Asks(r, path[i], path[k]);
      AskingDescends(r, ids, nullable, path[i], path[k]);
      var rest := AskingWalk(r, ids, nullable, path, k, j);
      walk := [path[i].0] + rest;
    }
  }

  /** A circular derivation needs a left-recursive grammar. */
  lemma CircularIsCyclic(r: Reading, ids: set<NodeId>, nullable: set<NodeId>, root: Key)
    requires Circular(r, root) && root.0 in ids
    requires Region(r.g, r.input.Layer(), ids) && NullableClosed(r.g, r.input.Layer(), ids, nullable)
    ensures LeadingCalls(r.g, r.input.Layer(), ids, nullable).Cyclic()
  {
    var path :| path != [] && path[0] == root && Asking(r, path) && Repeats(path);
    var i: nat, j: nat :| i < j < |path| && path[i] == path[j];
    var walk := CircleIsCycle(r, ids, nullable, path, i, j);
  }

  lemma CircleIsCycle(r: Reading, ids: set<NodeId>, nullable: set<NodeId>, path: seq<Key>, i: nat, j: nat)
    returns (walk: seq<NodeId>)
    requires Asking(r, path) && i < j < |path| && path[i] == path[j] && path[0].0 in ids
    requires Region(r.g, r.input.Layer(), ids) && NullableClosed(r.g, r.input.Layer(), ids, nullable)
    ensures LeadingCalls(r.g, r.input.Layer(), ids, nullable).Cycle(walk)
  {
    AskingStays(r, ids, nullable, path, i);
    walk := AskingWalk(r, ids, nullable, path, i, j);
    RoundIsCycle(LeadingCalls(r.g, r.input.Layer(), ids, nullable), walk);
  }

  lemma AskingStays(r: Reading, ids: set<NodeId>, nullable: set<NodeId>, path: seq<Key>, i: nat)
    requires Asking(r, path) && i < |path| && path[0].0 in ids
    requires Region(r.g, r.input.Layer(), ids) && NullableClosed(r.g, r.input.Layer(), ids, nullable)
    ensures path[i].0 in ids
  {
    var walk := AskingWalk(r, ids, nullable, path, 0, i);
  }

  lemma RoundIsCycle(calls: Calls, walk: seq<NodeId>)
    requires calls.Walk(walk) && |walk| >= 2 && walk[0] == walk[|walk| - 1]
    ensures calls.Cycle(walk)
  {
  }

  // ------------------------------------------------------------------
  // The memo table

  ghost function AllKeys(r: Reading): set<Key> {
    set n, p | n in UpTo(|r.g.nodes|) && p in UpTo(r.input.Length() + 1) :: (n, p)
  }

  type Table = map<Key, Option<set<nat>>>

  /** The calls being made. */
  ghost function InProgress(seen: Table): set<Key> {
    set k | k in seen && seen[k].None?
  }

  ghost function OnPath(path: seq<Key>): set<Key> {
    set k | k in path
  }

  /** `b` is answered, and was before `a` is. */
  ghost predicate Answered(seen: Table, b: Key) {
    b in seen && seen[b].Some?
  }

  /** Entries are added and finished, never lost. */
  ghost predicate Grows(before: Table, after: Table) {
    before.Keys <= after.Keys && forall k :: Answered(before, k) ==> Answered(after, k)
  }

  /** The body has been called at each of these positions. */
  ghost predicate Tried(seen: Table, body: NodeId, positions: set<nat>) {
    forall q :: q in positions ==> Answered(seen, (body, q))
  }

  lemma TriedMore(before: Table, after: Table, body: NodeId, reached: set<nat>, frontier: set<nat>, following: set<nat>,
                  at: nat)
    requires Tried(before, body, reached + {at} - frontier) && Grows(before, after) && Tried(after, body, frontier)
    ensures Tried(after, body, reached + following + {at} - following)
  {
  }

  /** Every finished entry is exact, and was finished after everything it asked for. */
  ghost predicate Exact(r: Reading, seen: Table, rank: map<Key, nat>, clock: nat) {
    && r.g.Valid()
    && seen.Keys <= AllKeys(r)
    && (forall k :: k in seen ==> InRange(r, k))
    && (forall k :: Answered(seen, k) ==> seen[k].value == Ends(r, k.0, k.1))
    && (forall k :: Answered(seen, k) <==> k in rank)
    && (forall k :: k in rank ==> rank[k] < clock)
    && (forall a, b :: a in rank && InRange(r, a) && Asks(r, a, b) ==> b in rank && rank[b] < rank[a])
  }

  /** Everything `a` asks for is answered. */
  ghost predicate Provided(r: Reading, seen: Table, a: Key)
    requires InRange(r, a)
  {
    forall b :: Asks(r, a, b) ==> Answered(seen, b)
  }

  lemma BeginEntry(r: Reading, seen: Table, rank: map<Key, nat>, clock: nat, k: Key)
    requires Exact(r, seen, rank, clock) && InRange(r, k) && k !in seen
    ensures Exact(r, seen[k := None], rank, clock)
    ensures InProgress(seen[k := None]) == InProgress(seen) + {k}
    ensures AllKeys(r) - seen[k := None].Keys < AllKeys(r) - seen.Keys
  {
    assert k in AllKeys(r) - seen.Keys;
    assert forall m :: Answered(seen[k := None], m) <==> Answered(seen, m);
  }

  lemma FinishEntry(r: Reading, seen: Table, rank: map<Key, nat>, clock: nat, k: Key, ends: set<nat>)
    requires Exact(r, seen, rank, clock) && InRange(r, k) && k in InProgress(seen)
    requires ends == Ends(r, k.0, k.1) && Provided(r, seen, k)
    ensures Exact(r, seen[k := Some(ends)], rank[k := clock], clock + 1)
    ensures InProgress(seen[k := Some(ends)]) == InProgress(seen) - {k}
    ensures seen[k := Some(ends)].Keys == seen.Keys
  {
    var after, ranks := seen[k := Some(ends)], rank[k := clock];
    assert forall m :: Answered(after, m) <==> Answered(seen, m) || m == k;
    assert k !in rank;
    forall a, b | a in ranks && InRange(r, a) && Asks(r, a, b)
      ensures b in ranks && ranks[b] < ranks[a]
    {
      if a == k {
        assert Answered(seen, b);
      }
    }
  }

  lemma {:induction false} RanksFall(r: Reading, seen: Table, rank: map<Key, nat>, clock: nat, path: seq<Key>, i: nat,
                                     j: nat)
    requires Exact(r, seen, rank, clock) && Asking(r, path) && i <= j < |path| && path[i] in rank
    ensures path[j] in rank && (i < j ==> rank[path[j]] < rank[path[i]])
    decreases j - i
  {
    if i < j {
      var k := i + 1;
      assert Asks(r, path[i], path[k]);
      RanksFall(r, seen, rank, clock, path, k, j);
    }
  }

  /** An answered call was not circular. */
  lemma AnsweredIsNotCircular(r: Reading, seen: Table, rank: map<Key, nat>, clock: nat, root: Key)
    requires Exact(r, seen, rank, clock) && Answered(seen, root)
    ensures !Circular(r, root)
  {
    if Circular(r, root) {
      var path :| path != [] && path[0] == root && Asking(r, path) && Repeats(path);
      var i, j :| 0 <= i < j < |path| && path[i] == path[j];
      RanksFall(r, seen, rank, clock, path, 0, i);
      RanksFall(r, seen, rank, clock, path, i, j);
    }
  }

  /** Asking for something in progress closes a circle. */
  lemma CircleFound(r: Reading, path: seq<Key>, k: Key)
    requires Asking(r, path + [k]) && k in path
    ensures Circular(r, path[0])
  {
    var i :| 0 <= i < |path| && path[i] == k;
    var all := path + [k];
    assert all[i] == all[|path|];
    assert Repeats(all);
  }

  class Recogniser {
    const r: Reading
    var seen: Table
    // When each entry was finished: what the entries in the table depend on.
    ghost var rank: map<Key, nat>
    ghost var clock: nat

    ghost predicate Sound()
      reads this
    {
      && r.input.Tokens? && r.g.Valid() && seen.Keys <= AllKeys(r)
      && forall k {:trigger Unseal(k)} :: Unseal(k) ==> Exact(r, seen, rank, clock)
    }

    /** The entries in progress are the calls being made, outermost first. */
    ghost predicate Making(path: seq<Key>)
      reads this
    {
      Asking(r, path) && InProgress(seen) == OnPath(path)
    }

    constructor (reading: Reading)
      requires reading.input.Tokens? && reading.g.Valid()
      ensures r == reading && Sound() && Making([])
    {
      r, seen, rank, clock := reading, map[], map[], 0;
    }

    lemma NotCircular(k: Key)
      requires Sound() && Answered(seen, k)
      ensures !Circular(r, k)
    {
      assert Unseal(0);
      AnsweredIsNotCircular(r, seen, rank, clock, k);
    }

    /** The ends of every derivation of `n` from `at`, for every grammar: an entry
        in progress or cached never changes an answer.  The only other outcome is
        the refusal, and then the outermost call asks for something it is itself
        answering. */
    method Item(n: NodeId, at: nat, ghost path: seq<Key>) returns (answer: Result<set<nat>>)
      requires Sound() && Making(path) && Asking(r, path + [(n, at)])
      modifies this`seen, this`rank, this`clock
      ensures answer.Success? ==> Sound() && Making(path) && Grows(old(seen), seen)
      ensures answer.Success? ==> Answered(seen, (n, at)) && InRange(r, (n, at)) && answer.value == Ends(r, n, at)
      ensures answer.LeftRecursion? ==> Circular(r, (path + [(n, at)])[0])
      decreases AllKeys(r) - seen.Keys, 0
    {
      var key := (n, at);
      assert (path + [key])[|path|] == key;
      assert InRange(r, key);
      var node := r.g.nodes[n];
      if key in seen {
        if seen[key].None? {
          assert key in InProgress(seen);
          CircleFound(r, path, key);
          return LeftRecursion(if node.Rule? then node.name else "?");
        }
        assert Answered(seen, key) && Unseal(0);
        return Success(seen[key].value);
      }
      assert key !in OnPath(path);
      Begin(n, at, path);
      var ends :- Expand(n, at, path);
      Finish(n, at, path, ends);
      return Success(ends);
    }

    method Begin(n: NodeId, at: nat, ghost path: seq<Key>)
      requires Sound() && Making(path) && Asking(r, path + [(n, at)]) && (n, at) !in seen
      modifies this`seen
      ensures Sound() && InRange(r, (n, at)) && Making(path + [(n, at)]) && Grows(old(seen), seen)
      ensures AllKeys(r) - seen.Keys < AllKeys(r) - old(seen).Keys
    {
      assert Unseal(0);
      assert (path + [(n, at)])[|path|] == (n, at);
      BeginEntry(r, seen, rank, clock, (n, at));
      seen := seen[(n, at) := None];
      assert OnPath(path + [(n, at)]) == OnPath(path) + {(n, at)};
    }

    method Finish(n: NodeId, at: nat, ghost path: seq<Key>, ends: set<nat>)
      requires Sound() && Making(path + [(n, at)]) && (n, at) !in path && Asking(r, path)
      requires InRange(r, (n, at)) && Provided(r, seen, (n, at)) && ends == Ends(r, n, at)
      modifies this`seen, this`rank, this`clock
      ensures Sound() && Making(path) && Grows(old(seen), seen) && Answered(seen, (n, at))
    {
      assert Unseal(0);
      assert OnPath(path + [(n, at)]) == OnPath(path) + {(n, at)};
      FinishEntry(r, seen, rank, clock, (n, at), ends);
      seen := seen[(n, at) := Some(ends)];
      rank, clock := rank[(n, at) := clock], clock + 1;
    }

    /** What `Item` computes once its own entry is in progress. */
    method Expand(n: NodeId, at: nat, ghost path: seq<Key>) returns (answer: Result<set<nat>>)
      requires Sound() && InRange(r, (n, at)) && Making(path + [(n, at)])
      modifies this`seen, this`rank, this`clock
      ensures answer.Success? ==> Sound() && Making(path + [(n, at)]) && Grows(old(seen), seen)
      ensures answer.Success? ==> Provided(r, seen, (n, at)) && answer.value == Ends(r, n, at)
      ensures answer.LeftRecursion? ==> Circular(r, (path + [(n, at)])[0])
      decreases AllKeys(r) - seen.Keys, 3
    {
      var node := r.g.nodes[n];
      ChildrenBelow(r.g, n);
      match node {
        case Alt(arms) => answer := AltEnds(n, at, path);
        case Seq(items) => answer := SeqEnds(n, at, path);
        case Opt(body) =>
          EndsOpt(r, n, at);
          AskingMore(r, path, (n, at), (body, at));
          var found :- Item(body, at, path + [(n, at)]);
          answer := Success({at} + found);
        case Star(body) =>
          EndsStar(r, n, at);
          answer := Repeat(n, body, at, path, false);
        case Plus(body) =>
          EndsPlus(r, n, at);
          answer := Repeat(n, body, at, path, true);
        case Rule(name) =>
          var target := Expansion(r.g, TokenLayer, name);
          if target.Some? {
            EndsRule(r, n, at, target.value);
            AskingMore(r, path, (n, at), (target.value, at));
            answer := Item(target.value, at, path + [(n, at)]);
          } else {
            EndsTerminal(r, n, at);
            answer := Success(Terminal(r.input, node, at));
          }
        case _ =>
          EndsTerminal(r, n, at);
          answer := Success(Terminal(r.input, node, at));
      }
    }

    method AltEnds(n: NodeId, at: nat, ghost path: seq<Key>) returns (answer: Result<set<nat>>)
      requires Sound() && InRange(r, (n, at)) && Making(path + [(n, at)]) && r.g.nodes[n].Alt?
      modifies this`seen, this`rank, this`clock
      ensures answer.Success? ==> Sound() && Making(path + [(n, at)]) && Grows(old(seen), seen)
      ensures answer.Success? ==> Provided(r, seen, (n, at)) && answer.value == Ends(r, n, at)
      ensures answer.LeftRecursion? ==> Circular(r, (path + [(n, at)])[0])
      decreases AllKeys(r) - seen.Keys, 2
    {
      EndsAlt(r, n, at);
      var arms, ends := r.g.nodes[n].arms, {};
      for i := 0 to |arms|
        invariant Sound() && Making(path + [(n, at)]) && Grows(old(seen), seen)
        invariant ends == EndsAny(r, arms[..i], at)
        invariant forall k :: 0 <= k < i ==> Answered(seen, (arms[k], at))
      {
        AskingMore(r, path, (n, at), (arms[i], at));
        var found :- Item(arms[i], at, path + [(n, at)]);
        ends := ends + found;
        EndsAnySnoc(r, arms, i, at);
      }
      assert arms[..|arms|] == arms;
      return Success(ends);
    }

    method SeqEnds(n: NodeId, at: nat, ghost path: seq<Key>) returns (answer: Result<set<nat>>)
      requires Sound() && InRange(r, (n, at)) && Making(path + [(n, at)]) && r.g.nodes[n].Seq?
      modifies this`seen, this`rank, this`clock
      ensures answer.Success? ==> Sound() && Making(path + [(n, at)]) && Grows(old(seen), seen)
      ensures answer.Success? ==> Provided(r, seen, (n, at)) && answer.value == Ends(r, n, at)
      ensures answer.LeftRecursion? ==> Circular(r, (path + [(n, at)])[0])
      decreases AllKeys(r) - seen.Keys, 2
    {
      EndsSeq(r, n, at);
      EndsNoItems(r, at);
      var items, reached := r.g.nodes[n].items, {at};
      assert items[..0] == [];
      for i := 0 to |items|
        invariant Sound() && Making(path + [(n, at)]) && Grows(old(seen), seen)
        invariant reached == EndsItems(r, items[..i], at)
        invariant TriedItems(r, seen, items, at, i)
      {
        ghost var before := seen;
        EndsItemsSnoc(r, items, i, at);
        var following :- Following(n, items[i], at, reached, path);
        TriedOneMore(r, before, seen, items, at, i);
        reached := following;
        if reached == {} {
          NoLaterItems(r, items, i + 1, at);
          ItemsProvided(r, seen, n, at, i + 1);
          return Success(reached);
        }
      }
      ItemsProvided(r, seen, n, at, |items|);
      return Success(reached);
    }

    /** Everywhere `child` can end, started anywhere in `from`. */
    method Following(n: NodeId, child: NodeId, at: nat, from: set<nat>, ghost path: seq<Key>)
      returns (answer: Result<set<nat>>)
      requires Sound() && InRange(r, (n, at)) && Making(path + [(n, at)])
      requires forall q :: q in from ==> Asks(r, (n, at), (child, q)) && Ok(r, child, q)
      modifies this`seen, this`rank, this`clock
      ensures answer.Success? ==> Sound() && Making(path + [(n, at)]) && Grows(old(seen), seen)
      ensures answer.Success? ==> answer.value == Step(r, child, from)
      ensures answer.Success? ==> Tried(seen, child, from)
      ensures answer.LeftRecursion? ==> Circular(r, (path + [(n, at)])[0])
      decreases AllKeys(r) - seen.Keys, 1
    {
      var following, left := {}, from;
      while left != {}
        invariant left <= from
        invariant Sound() && Making(path + [(n, at)]) && Grows(old(seen), seen)
        invariant following == Step(r, child, from - left)
        invariant Tried(seen, child, from - left)
        decreases left
      {
        var position :| position in left;
        AskingMore(r, path, (n, at), (child, position));
        var ends :- Item(child, position, path + [(n, at)]);
        StepAdds(r, child, from - left, position);
        following, left := following + ends, left - {position};
        assert from - left == from - (left + {position}) + {position};
      }
      assert from - left == from;
      return Success(following);
    }

    /** `body*`, or `body+`: iterations that consume nothing are dropped. */
    method Repeat(n: NodeId, body: NodeId, at: nat, ghost path: seq<Key>, atLeastOne: bool)
      returns (answer: Result<set<nat>>)
      requires Sound() && InRange(r, (n, at)) && Making(path + [(n, at)])
      requires r.g.nodes[n] == (if atLeastOne then Plus(body) else Star(body)) && body < n
      modifies this`seen, this`rank, this`clock
      ensures answer.Success? ==> Sound() && Making(path + [(n, at)]) && Grows(old(seen), seen)
      ensures answer.Success? ==> Provided(r, seen, (n, at))
      ensures answer.Success? ==> answer.value == EndsMany(r, body, at) - (if atLeastOne then {at} else {})
      ensures answer.LeftRecursion? ==> Circular(r, (path + [(n, at)])[0])
      decreases AllKeys(r) - seen.Keys, 2
    {
      var reached: set<nat> := if atLeastOne then {} else {at};
      var frontier := {at};
      ManyNone(r, body, at);
      while frontier != {}
        invariant Sound() && Making(path + [(n, at)]) && Grows(old(seen), seen)
        invariant Iterating(r, body, at, reached, frontier, atLeastOne)
        invariant Tried(seen, body, reached + {at} - frontier)
        decreases UpTo(r.input.Length() + 1) - reached, frontier
      {
        FrontierInRange(r, body, at, reached, frontier, atLeastOne);
        ghost var before := seen;
        var following :- Fresh(n, body, at, frontier, reached, path);
        TriedMore(before, seen, body, reached, frontier, following, at);
        IterationStep(r, body, at, reached, frontier, following, atLeastOne);
        reached, frontier := reached + following, following;
      }
      IterationEnds(r, body, at, reached, atLeastOne);
      return Success(reached);
    }

    /** Where one more consuming iteration from the frontier newly ends. */
    method Fresh(n: NodeId, body: NodeId, at: nat, frontier: set<nat>, reached: set<nat>, ghost path: seq<Key>)
      returns (answer: Result<set<nat>>)
      requires Sound() && InRange(r, (n, at)) && Making(path + [(n, at)])
      requires forall q :: q in frontier ==> Asks(r, (n, at), (body, q)) && Ok(r, body, q)
      modifies this`seen, this`rank, this`clock
      ensures answer.Success? ==> Sound() && Making(path + [(n, at)]) && Grows(old(seen), seen)
      ensures answer.Success? ==> answer.value == Consuming(r, body, frontier) - reached
      ensures answer.Success? ==> Tried(seen, body, frontier)
      ensures answer.LeftRecursion? ==> Circular(r, (path + [(n, at)])[0])
      decreases AllKeys(r) - seen.Keys, 1
    {
      var following, left := {}, frontier;
      while left != {}
        invariant left <= frontier
        invariant Sound() && Making(path + [(n, at)]) && Grows(old(seen), seen)
        invariant following == Consuming(r, body, frontier - left) - reached
        invariant Tried(seen, body, frontier - left)
        decreases left
      {
        var position :| position in left;
        AskingMore(r, path, (n, at), (body, position));
        var ends :- Item(body, position, path + [(n, at)]);
        ConsumingAdds(r, body, frontier - left, position);
        following, left := following + (set end | end in ends && end !in reached && end != position), left - {position};
        assert frontier - left == frontier - (left + {position}) + {position};
      }
      assert frontier - left == frontier;
      return Success(following);
    }
  }

  lemma {:induction false} NoLaterItems(r: Reading, items: seq<NodeId>, k: nat, at: nat)
    requires OkAll(r, items, at) && k <= |items| && EndsItems(r, items[..k], at) == {}
    ensures forall j :: k <= j <= |items| ==> EndsItems(r, items[..j], at) == {}
    ensures EndsItems(r, items, at) == {}
  {
    assert items[..|items|] == items;
    forall j | k <= j <= |items|
      ensures EndsItems(r, items[..j], at) == {}
    {
      assert items[..j][..k] == items[..k];
      EndsItemsStop(r, items[..j], k, at);
    }
  }

  /** The first items have been called wherever those before them end. */
  ghost predicate TriedItems(r: Reading, seen: Table, items: seq<NodeId>, at: nat, k: nat)
    requires OkAll(r, items, at) && k <= |items|
  {
    forall j :: 0 <= j < k ==> Tried(seen, items[j], EndsItems(r, items[..j], at))
  }

  lemma TriedOneMore(r: Reading, before: Table, after: Table, items: seq<NodeId>, at: nat, k: nat)
    requires OkAll(r, items, at) && k < |items| && TriedItems(r, before, items, at, k) && Grows(before, after)
    requires Tried(after, items[k], EndsItems(r, items[..k], at))
    ensures TriedItems(r, after, items, at, k + 1)
  {
  }

  /** All that a sequence asks is answered once every item is tried that anything reaches. */
  lemma ItemsProvided(r: Reading, seen: Table, n: NodeId, at: nat, k: nat)
    requires InRange(r, (n, at)) && r.g.nodes[n].Seq? && OkAll(r, r.g.nodes[n].items, at)
    requires var items := r.g.nodes[n].items;
             && k <= |items| && TriedItems(r, seen, items, at, k)
             && (forall j :: k <= j < |items| ==> EndsItems(r, items[..j], at) == {})
    ensures Provided(r, seen, (n, at))
    ensures r.g.nodes[n].items[..|r.g.nodes[n].items|] == r.g.nodes[n].items
  {
  }

  lemma StepAdds(r: Reading, n: NodeId, from: set<nat>, m: nat)
    requires Ok(r, n, m) && forall q :: q in from ==> Ok(r, n, q)
    ensures Step(r, n, from + {m}) == Step(r, n, from) + Ends(r, n, m)
  {
  }

  // ------------------------------------------------------------------
  // What the repetition loops keep, shared by every recogniser

  /** Everywhere one consuming iteration from `from` can end. */
  ghost function Consuming(r: Reading, body: NodeId, from: set<nat>): set<nat>
    requires forall m :: m in from ==> Ok(r, body, m)
  {
    set m, e | m in from && e in Ends(r, body, m) && e != m :: e
  }

  lemma ConsumingAdds(r: Reading, body: NodeId, from: set<nat>, m: nat)
    requires Ok(r, body, m) && forall q :: q in from ==> Ok(r, body, q)
    ensures Consuming(r, body, from + {m}) == Consuming(r, body, from) + (Ends(r, body, m) - {m})
  {
  }

  ghost predicate Iterating(r: Reading, body: NodeId, at: nat, reached: set<nat>, frontier: set<nat>,
                            atLeastOne: bool) {
    && Ok(r, body, at)
    && frontier <= reached + {at}
    && reached <= EndsMany(r, body, at)
    && (atLeastOne ==> at !in reached)
    && (!atLeastOne ==> at in reached)
    && (forall m :: m in reached ==> at <= m <= r.input.Length())
    && Consuming(r, body, reached + {at} - frontier) <= reached
  }

  lemma FrontierInRange(r: Reading, body: NodeId, at: nat, reached: set<nat>, frontier: set<nat>, atLeastOne: bool)
    requires Iterating(r, body, at, reached, frontier, atLeastOne)
    ensures forall q :: q in frontier ==> q in EndsMany(r, body, at) && at <= q && Ok(r, body, q)
  {
    ManyNone(r, body, at);
  }

  lemma IterationStep(r: Reading, body: NodeId, at: nat, reached: set<nat>, frontier: set<nat>, following: set<nat>,
                      atLeastOne: bool)
    requires Iterating(r, body, at, reached, frontier, atLeastOne) && frontier != {}
    requires following == Consuming(r, body, frontier) - reached
    ensures Iterating(r, body, at, reached + following, following, atLeastOne)
    ensures UpTo(r.input.Length() + 1) - (reached + following) < UpTo(r.input.Length() + 1) - reached
         || (reached + following == reached && following == {})
  {
    ManyNone(r, body, at);
    forall e | e in following
      ensures e in EndsMany(r, body, at) && at < e <= r.input.Length()
    {
      var m :| m in frontier && e in Ends(r, body, m) && e != m;
      ManySnoc(r, body, at, m, e);
    }
    if following != {} {
      var e :| e in following;
      assert e in UpTo(r.input.Length() + 1) - reached;
    }
  }

  lemma IterationEnds(r: Reading, body: NodeId, at: nat, reached: set<nat>, atLeastOne: bool)
    requires Iterating(r, body, at, reached, {}, atLeastOne)
    ensures reached == EndsMany(r, body, at) - (if atLeastOne then {at} else {})
  {
    var closed := reached + {at};
    assert closed - {} == closed;
    forall m, e | m in closed && e in Ends(r, body, m) && e != m
      ensures e in closed
    {
      assert e in Consuming(r, body, closed);
    }
    ManyClosed(r, body, at, closed);
    ManyNone(r, body, at);
  }
}
