/** What "left recursive" means.  The analysis speaks of nullable nodes and leading
    calls; here both are tied to derivations: a nullable node is one that derives
    nothing at all, and a cycle of leading calls is a question that comes round to
    itself, whatever the tokens.  The one exception is a `+` of a nullable body,
    which the analysis calls nullable and no recogniser lets match nothing. */
module LeftCalls {
  import opened Options
  import opened Grammars
  import opened Analyses
  import opened Searches
  import opened Unpruned
  import opened Recognition
  import opened Terminals

  /** The nodes that derive the empty stretch at `at`. */
  ghost function Vanishing(r: Reading, ids: set<NodeId>, at: nat): set<NodeId>
    requires r.g.Valid() && at <= r.input.Length() && forall n :: n in ids ==> n < |r.g.nodes|
  {
    set n | n in ids && Derives(r, n, at, at)
  }

  /** No `+` repeats something the analysis calls nullable. */
  ghost predicate PlusConsumes(g: Grammar, ids: set<NodeId>, nullable: set<NodeId>)
    requires forall n :: n in ids ==> n < |g.nodes|
  {
    forall n :: n in ids && g.nodes[n].Plus? ==> g.nodes[n].body !in nullable
  }

  // ------------------------------------------------------------------
  // Nullable nodes

  lemma {:induction false} VanishingItems(r: Reading, ids: set<NodeId>, items: seq<NodeId>, at: nat)
    requires OkAll(r, items, at) && forall n :: n in ids ==> n < |r.g.nodes|
    requires forall i :: 0 <= i < |items| ==> items[i] in Vanishing(r, ids, at)
    ensures DerivesItems(r, items, at, at)
  {
    if items == [] {
      assert YieldsItems(r, Done, items, at, at);
    } else {
      VanishingItems(r, ids, items[1..], at);
      assert items[0] in Vanishing(r, ids, at);
      var head :| Yields(r, head, items[0], at, at);
      var tail :| YieldsItems(r, tail, items[1..], at, at);
      assert YieldsItems(r, Then(at, head, tail), items, at, at);
    }
  }

  /** A node whose equation holds of vanishing nodes vanishes, unless it is a `+`. */
  lemma EquationVanishes(r: Reading, ids: set<NodeId>, n: NodeId, at: nat)
    requires Region(r.g, TokenLayer, ids) && r.input.Tokens? && at <= r.input.Length() && n in ids
    requires NullableOf(r.g, TokenLayer, r.g.nodes[n], Vanishing(r, ids, at)) && !r.g.nodes[n].Plus?
    ensures Derives(r, n, at, at)
  {
    ChildrenBelow(r.g, n);
    var gone := Vanishing(r, ids, at);
    match r.g.nodes[n]
    case Alt(arms) =>
      var i :| 0 <= i < |arms| && arms[i] in gone;
      var body :| Yields(r, body, arms[i], at, at);
      assert Yields(r, Arm(i, body), n, at, at);
    case Seq(items) =>
      VanishingItems(r, ids, items, at);
      var p :| YieldsItems(r, p, items, at, at);
      assert Yields(r, p, n, at, at);
    case Opt(_) => assert Yields(r, Done, n, at, at);
    case Star(_) => assert Yields(r, Done, n, at, at);
    case Rule(name) =>
      var body :| Yields(r, body, Expansion(r.g, TokenLayer, name).value, at, at);
      assert Yields(r, Inner(body), n, at, at);
    case _ =>
  }

  lemma VanishingIsNullable(g: Grammar, ids: set<NodeId>, nullable: set<NodeId>, r: Reading, at: nat)
    requires Knows(g, ids, nullable) && r.g == g && r.input.Tokens? && at <= r.input.Length()
    ensures Vanishing(r, ids, at) <= nullable
  {
    forall n | n in Vanishing(r, ids, at)
      ensures n in nullable
    {
      var p :| Yields(r, p, n, at, at);
      NullableCovers(r, ids, nullable, p, n, at);
    }
  }

  lemma PlusNeverVanishes(r: Reading, n: NodeId, at: nat)
    requires Ok(r, n, at) && r.g.nodes[n].Plus?
    ensures !Derives(r, n, at, at)
  {
    ChildrenBelow(r.g, n);
    EndsPlus(r, n, at);
    EndsAreDerivations(r, n, at, at);
  }

  /** The nullable nodes are those that derive nothing, before any tokens at any place,
      if and only if no `+` has a nullable body. */
  lemma NullableExactly(g: Grammar, ids: set<NodeId>, nullable: set<NodeId>, r: Reading, at: nat)
    requires Knows(g, ids, nullable) && r.g == g && r.input.Tokens? && at <= r.input.Length()
    ensures nullable == Vanishing(r, ids, at) <==> PlusConsumes(g, ids, nullable)
  {
    var gone := Vanishing(r, ids, at);
    VanishingIsNullable(g, ids, nullable, r, at);
    if PlusConsumes(g, ids, nullable) {
      forall n | n in ids && NullableOf(g, TokenLayer, g.nodes[n], gone)
        ensures n in gone
      {
        if !g.nodes[n].Plus? {
          EquationVanishes(r, ids, n, at);
        }
      }
      assert NullableClosed(g, TokenLayer, ids, gone);
    } else {
      var n :| n in ids && g.nodes[n].Plus? && g.nodes[n].body in nullable;
      assert NullableOf(g, TokenLayer, g.nodes[n], nullable);
      PlusNeverVanishes(r, n, at);
      assert n in nullable && n !in gone;
    }
  }

  // ------------------------------------------------------------------
  // Leading calls

  lemma {:induction false} LedTo(items: seq<NodeId>, nullable: set<NodeId>, m: NodeId) returns (i: nat)
    requires m in LeadingItems(items, nullable)
    ensures i < |items| && items[i] == m && forall k :: 0 <= k < i ==> items[k] in nullable
  {
    if m == items[0] {
      i := 0;
    } else {
      i := LedTo(items[1..], nullable, m);
      i := i + 1;
    }
  }

  /** Whoever leads to `b` over vanishing nodes asks for it, there. */
  lemma LeadingAsks(r: Reading, ids: set<NodeId>, a: NodeId, b: NodeId, at: nat)
    requires Region(r.g, TokenLayer, ids) && r.input.Tokens? && at <= r.input.Length()
    requires LeadingCalls(r.g, TokenLayer, ids, Vanishing(r, ids, at)).Edge(a, b)
    ensures InRange(r, (a, at)) && Asks(r, (a, at), (b, at))
  {
    ChildrenBelow(r.g, a);
    match r.g.nodes[a]
    case Seq(items) =>
      var i := LedTo(items, Vanishing(r, ids, at), b);
      VanishingItems(r, ids, items[..i], at);
    case Star(body) => assert YieldsMany(r, Done, body, at, at);
    case Plus(body) => assert YieldsMany(r, Done, body, at, at);
    case _ =>
  }

  ghost function Placed(path: seq<NodeId>, at: nat): (keys: seq<Key>)
    ensures |keys| == |path| && forall k :: 0 <= k < |path| ==> keys[k] == (path[k], at)
  {
    seq(|path|, k requires 0 <= k < |path| => (path[k], at))
  }

  lemma HopAsks(r: Reading, ids: set<NodeId>, at: nat, path: seq<NodeId>, i: nat)
    requires Region(r.g, TokenLayer, ids) && r.input.Tokens? && at <= r.input.Length() && i + 1 < |path|
    requires LeadingCalls(r.g, TokenLayer, ids, Vanishing(r, ids, at)).Walk(path)
    ensures path[i] in ids && InRange(r, (path[i], at)) && InRange(r, (path[i + 1], at))
    ensures Asks(r, (path[i], at), (path[i + 1], at))
  {
    var j := i + 1;
    assert LeadingCalls(r.g, TokenLayer, ids, Vanishing(r, ids, at)).Edge(path[i], path[j]);
    LeadingAsks(r, ids, path[i], path[j], at);
    AskedInRange(r, (path[i], at), (path[j], at));
  }

  /** A cycle of leading calls, asked for at any place, comes round to itself there. */
  lemma CycleAsks(r: Reading, ids: set<NodeId>, at: nat, path: seq<NodeId>)
    requires Region(r.g, TokenLayer, ids) && r.input.Tokens? && at <= r.input.Length()
    requires LeadingCalls(r.g, TokenLayer, ids, Vanishing(r, ids, at)).Cycle(path)
    ensures path[0] in ids && Circular(r, (path[0], at))
  {
    var keys := Placed(path, at);
    forall k | k in keys
      ensures InRange(r, k)
    {
      var i :| 0 <= i < |keys| && keys[i] == k;
      HopAsks(r, ids, at, path, if i == 0 then 0 else i - 1);
    }
    forall i, j | 0 <= i && j == i + 1 < |keys|
      ensures Asks(r, keys[i], keys[j])
    {
      HopAsks(r, ids, at, path, i);
    }
    HopAsks(r, ids, at, path, 0);
    var first, last := 0, |keys| - 1;
    assert keys[first] == keys[last];
    assert Asking(r, keys) && Repeats(keys);
  }

  /** A node asked for at `at` can be asked for again while it is being answered. */
  ghost predicate ComesRound(r: Reading, ids: set<NodeId>, at: nat)
    requires r.g.Valid() && at <= r.input.Length() && forall n :: n in ids ==> n < |r.g.nodes|
  {
    exists n :: n in ids && Circular(r, (n, at))
  }

  /** Where no `+` has a nullable body, a grammar is left recursive exactly when some
      question comes round to itself, and it does so before any tokens, at any place:
      nothing depends on what the tokens are. */
  lemma LeftRecursionExactly(g: Grammar, ids: set<NodeId>, nullable: set<NodeId>, r: Reading, at: nat)
    requires Knows(g, ids, nullable) && PlusConsumes(g, ids, nullable)
    requires r.g == g && r.input.Tokens? && at <= r.input.Length()
    ensures LeftRecursiveGrammar(g) <==> ComesRound(r, ids, at)
  {
    NullableExactly(g, ids, nullable, r, at);
    var calls := LeadingCalls(g, TokenLayer, ids, nullable);
    if LeftRecursiveGrammar(g) {
      var ids', nullable' :| Knows(g, ids', nullable') && LeadingCalls(g, TokenLayer, ids', nullable').Cyclic();
      KnowsOne(g, ids, nullable, ids', nullable');
      var path :| calls.Cycle(path);
      CycleAsks(r, ids, at, path);
    }
    if ComesRound(r, ids, at) {
      var n :| n in ids && Circular(r, (n, at));
      CircularIsCyclic(r, ids, nullable, (n, at));
    }
  }

  // ------------------------------------------------------------------
  // What can begin a node

  /** The analysis lets a token with the feature begin the node. */
  predicate Begins(first: First, feature: Feature) {
    first.AnyToken? || feature in first.features
  }

  lemma {:induction false} ArmsBegin(arms: seq<NodeId>, first: FirstSets, feature: Feature)
    requires forall m :: m in arms ==> m in first
    ensures Begins(FirstArms(arms, first), feature) <==> exists i :: 0 <= i < |arms| && Begins(first[arms[i]], feature)
  {
    if arms != [] {
      ArmsBegin(arms[1..], first, feature);
      if i :| 0 <= i < |arms| && Begins(first[arms[i]], feature) && i > 0 {
        assert arms[1..][i - 1] == arms[i];
      }
      if j :| 0 <= j < |arms| - 1 && Begins(first[arms[1..][j]], feature) {
        assert arms[j + 1] == arms[1..][j];
      }
    }
  }
  lemma {:induction false} ItemsBegin(items: seq<NodeId>, nullable: set<NodeId>, first: FirstSets, feature: Feature)
    requires forall m :: m in items ==> m in first
    ensures Begins(FirstItems(items, nullable, first), feature) <==>
            exists i :: 0 <= i < |items| && Begins(first[items[i]], feature) && AllIn(items[..i], nullable)
  {
    if items != [] {
      ItemsBegin(items[1..], nullable, first, feature);
      if i :| 0 <= i < |items| && Begins(first[items[i]], feature) && AllIn(items[..i], nullable) && i > 0 {
        assert items[..i][0] == items[0] && items[1..][i - 1] == items[i] && items[1..][..i - 1] == items[..i][1..];
      }
      if items[0] in nullable {
        if j :| 0 <= j < |items| - 1 && Begins(first[items[1..][j]], feature) && AllIn(items[1..][..j], nullable) {
          assert items[j + 1] == items[1..][j] && items[..j + 1] == [items[0]] + items[1..][..j];
        }
      }
    }
  }

  predicate AllIn(items: seq<NodeId>, nullable: set<NodeId>) {
    forall n :: n in items ==> n in nullable
  }

  /** The FIRST equation of every kind of node, feature by feature. */
  lemma FirstByForm(g: Grammar, node: Node, nullable: set<NodeId>, first: FirstSets, feature: Feature)
    requires forall m :: m in Refs(g, TokenLayer, node) ==> m in first
    ensures var begins := Begins(FirstOf(g, node, nullable, first), feature);
            match node
            case Lit(text) => begins <==> feature == Spelled(text)
            case Alt(arms) =>
              begins <==> exists i :: 0 <= i < |arms| && arms[i] in first && Begins(first[arms[i]], feature)
            case Seq(items) =>
              begins <==> exists i :: 0 <= i < |items| && items[i] in first && Begins(first[items[i]], feature)
                                      && AllIn(items[..i], nullable)
            case Opt(body) => body in first && (begins <==> Begins(first[body], feature))
            case Star(body) => body in first && (begins <==> Begins(first[body], feature))
            case Plus(body) => body in first && (begins <==> Begins(first[body], feature))
            case Byte => begins
            case TextByte => begins
            case Rule(name) =>
              if ReadsKind(name) then begins <==> feature == OfKind(KindNamed(name))
              else if ReadsAnyToken(name) then begins
              else if name in g.trees then g.trees[name] in first && (begins <==> Begins(first[g.trees[name]], feature))
              else !begins
            case _ => !begins
  {
    match node
    case Alt(arms) => ArmsBegin(arms, first, feature);
    case Seq(items) => ItemsBegin(items, nullable, first, feature);
    case Rule(name) =>
      OwnedByScanner(name);
      if !ReadsKind(name) && !ReadsAnyToken(name) && name in g.trees {
        assert g.trees[name] in Refs(g, TokenLayer, node);
      }
    case Opt(body) => assert body in Refs(g, TokenLayer, node);
    case Star(body) => assert body in Refs(g, TokenLayer, node);
    case Plus(body) => assert body in Refs(g, TokenLayer, node);
    case _ =>
  }

  /** What a token must be for the seven rules matched against its kind. */
  function KindNamed(name: string): Kind {
    if name == "identifier" then Name
    else if name == "integer" then Integer
    else if name == "float" then Float
    else if name == "character" then Character
    else if name == "text" then Text
    else if name == "raw" then Raw
    else Literal
  }
}
