/** What is known about a grammar before any input is read: which nodes can
    derive nothing, which tokens can begin a node, and which calls a node can
    make at its own position.

    The first half defines the equations and shows that any solution
    over-approximates derivation.  The second half is the loops that solve
    them and the search for a production that reaches itself having consumed
    nothing. */
module Analyses {
  import opened Options
  import opened Grammars

  // ------------------------------------------------------------------
  // Features of a token

  datatype Feature = Spelled(text: string) | OfKind(kind: Kind)

  function ScannedKind(kind: TokenKind): Option<Kind> {
    match kind
    case IntegerToken => Some(Integer)
    case FloatToken => Some(Float)
    case CharacterToken => Some(Character)
    case TextToken => Some(Text)
    case RawToken => Some(Raw)
    case _ => None
  }

  /** Everything a token can be matched as. */
  function Features(token: Token, reserved: set<string>): set<Feature> {
    {Spelled(token.text)}
    + (if token.kind.WordToken? && token.text !in reserved then {OfKind(Name)} else {})
    + (if ScannedKind(token.kind).Some? then {OfKind(ScannedKind(token.kind).value), OfKind(Literal)}
       else if token.text in SPELLED_LITERALS then {OfKind(Literal)} else {})
  }

  /** The one test the pruned recogniser makes is the test the unpruned one makes. */
  lemma FeatureIsMatch(token: Token, reserved: set<string>, wanted: Kind, text: string)
    ensures OfKind(wanted) in Features(token, reserved) <==> KindMatches(wanted, token, reserved)
    ensures Spelled(text) in Features(token, reserved) <==> token.text == text
  {
  }

  method TokenFeatures(tokens: seq<Token>, reserved: set<string>) returns (out: seq<set<Feature>>)
    ensures |out| == |tokens|
    ensures forall i :: 0 <= i < |tokens| ==> out[i] == Features(tokens[i], reserved)
  {
    out := [];
    for i := 0 to |tokens|
      invariant |out| == i
      invariant forall k :: 0 <= k < i ==> out[k] == Features(tokens[k], reserved)
    {
      var token := tokens[i];
      var has := {Spelled(token.text)};
      if token.kind.WordToken? && token.text !in reserved {
        has := has + {OfKind(Name)};
      }
      var scanned := ScannedKind(token.kind);
      if scanned.Some? {
        has := has + {OfKind(scanned.value)};
        has := has + {OfKind(Literal)};
      } else if token.text in SPELLED_LITERALS {
        has := has + {OfKind(Literal)};
      }
      assert has == Features(token, reserved);
      out := out + [has];
    }
  }

  // ------------------------------------------------------------------
  // The equations

  function Target(g: Grammar, layer: Layer, node: Node): seq<NodeId> {
    if node.Rule? && Expansion(g, layer, node.name).Some? then [Expansion(g, layer, node.name).value] else []
  }

  /** The nodes a node's answer is computed from. */
  function Refs(g: Grammar, layer: Layer, node: Node): seq<NodeId> {
    Children(node) + Target(g, layer, node)
  }

  /** A set of nodes that refers to nothing outside itself. */
  ghost predicate Region(g: Grammar, layer: Layer, ids: set<NodeId>) {
    && g.Valid()
    && (forall n :: n in ids ==> n < |g.nodes|)
    && (forall n, m :: n in ids && m in Refs(g, layer, g.nodes[n]) ==> m in ids)
  }

  predicate NullableOf(g: Grammar, layer: Layer, node: Node, nullable: set<NodeId>) {
    match node
    case Rule(name) => Expansion(g, layer, name).Some? && Expansion(g, layer, name).value in nullable
    case Alt(arms) => exists i :: 0 <= i < |arms| && arms[i] in nullable
    case Seq(items) => forall i :: 0 <= i < |items| ==> items[i] in nullable
    case Opt(_) => true
    case Star(_) => true
    case Plus(body) => body in nullable
    case Lit(text) => layer.TextLayer? && text == ""
    case _ => false
  }

  ghost predicate NullableClosed(g: Grammar, layer: Layer, ids: set<NodeId>, nullable: set<NodeId>)
    requires Region(g, layer, ids)
  {
    forall n :: n in ids && NullableOf(g, layer, g.nodes[n], nullable) ==> n in nullable
  }

  /** The calls a sequence can make before it must have consumed something. */
  function LeadingItems(items: seq<NodeId>, nullable: set<NodeId>): seq<NodeId> {
    if items == [] then []
    else if items[0] in nullable then [items[0]] + LeadingItems(items[1..], nullable)
    else [items[0]]
  }

  /** The calls a node can make at its own position. */
  function Leading(g: Grammar, layer: Layer, node: Node, nullable: set<NodeId>): seq<NodeId> {
    match node
    case Alt(arms) => arms
    case Seq(items) => LeadingItems(items, nullable)
    case Opt(body) => [body]
    case Star(body) => [body]
    case Plus(body) => [body]
    case Rule(_) => Target(g, layer, node)
    case _ => []
  }

  lemma {:induction false} LeadingAt(items: seq<NodeId>, nullable: set<NodeId>, k: nat)
    requires k < |items| && forall i :: 0 <= i < k ==> items[i] in nullable
    ensures items[k] in LeadingItems(items, nullable)
  {
    if k > 0 {
      LeadingAt(items[1..], nullable, k - 1);
    }
  }

  lemma {:induction false} LeadingItemsAreItems(items: seq<NodeId>, nullable: set<NodeId>, m: NodeId)
    requires m in LeadingItems(items, nullable)
    ensures m in items
  {
    if items[0] in nullable && m != items[0] {
      LeadingItemsAreItems(items[1..], nullable, m);
    }
  }

  lemma LeadingAreRefs(g: Grammar, layer: Layer, node: Node, nullable: set<NodeId>, m: NodeId)
    requires m in Leading(g, layer, node, nullable)
    ensures m in Refs(g, layer, node)
  {
    if node.Seq? {
      LeadingItemsAreItems(node.items, nullable, m);
    }
  }

  // What can begin a node: any token, or one that has a feature of a set.

  datatype First = AnyToken | Of(features: set<Feature>)

  function Join(a: First, b: First): First {
    if a.AnyToken? || b.AnyToken? then AnyToken else Of(a.features + b.features)
  }

  predicate Within(a: First, b: First) {
    b.AnyToken? || (a.Of? && a.features <= b.features)
  }

  predicate Meets(first: First, features: set<Feature>) {
    first.AnyToken? || first.features * features != {}
  }

  type FirstSets = map<NodeId, First>

  function FirstArms(arms: seq<NodeId>, first: FirstSets): First
    requires forall m :: m in arms ==> m in first
  {
    if arms == [] then Of({}) else Join(first[arms[0]], FirstArms(arms[1..], first))
  }

  function FirstItems(items: seq<NodeId>, nullable: set<NodeId>, first: FirstSets): First
    requires forall m :: m in items ==> m in first
  {
    if items == [] then Of({})
    else if items[0] in nullable then Join(first[items[0]], FirstItems(items[1..], nullable, first))
    else first[items[0]]
  }

  /** The token layer's FIRST equation at one node. */
  function FirstOf(g: Grammar, node: Node, nullable: set<NodeId>, first: FirstSets): First
    requires forall m :: m in Refs(g, TokenLayer, node) ==> m in first
  {
    match node
    case Lit(text) => Of({Spelled(text)})
    case Byte => AnyToken
    case TextByte => AnyToken
    case Rule(name) =>
      if name in TOKEN_KIND_RULES then Of({OfKind(TOKEN_KIND_RULES[name])})
      else if name in LEXICAL_RULES then AnyToken
      else if name in g.trees then (assert g.trees[name] in Refs(g, TokenLayer, node); first[g.trees[name]])
      else Of({})
    case Alt(arms) => FirstArms(arms, first)
    case Seq(items) => FirstItems(items, nullable, first)
    case Opt(body) => assert body in Refs(g, TokenLayer, node); first[body]
    case Star(body) => assert body in Refs(g, TokenLayer, node); first[body]
    case Plus(body) => assert body in Refs(g, TokenLayer, node); first[body]
    case _ => Of({})
  }

  /** The tables are about nodes of the grammar. */
  ghost predicate Domain(g: Grammar, ids: set<NodeId>, first: FirstSets) {
    g.Valid() && (forall n :: n in ids ==> n < |g.nodes|) && first.Keys == ids
  }

  ghost predicate Covers(g: Grammar, ids: set<NodeId>, first: FirstSets) {
    Region(g, TokenLayer, ids) && Domain(g, ids, first)
  }

  ghost predicate FirstClosed(g: Grammar, ids: set<NodeId>, nullable: set<NodeId>, first: FirstSets)
    requires Covers(g, ids, first)
  {
    forall n :: n in ids ==> Within(FirstOf(g, g.nodes[n], nullable, first), first[n])
  }

  // ------------------------------------------------------------------
  // Nullable over-approximates: a node that can derive nothing is nullable

  lemma {:induction false} NullableCovers(r: Reading, ids: set<NodeId>, nullable: set<NodeId>, p: Proof, n: NodeId,
                                          at: nat)
    requires Ok(r, n, at) && Region(r.g, r.input.Layer(), ids) && n in ids
    requires NullableClosed(r.g, r.input.Layer(), ids, nullable)
    requires Yields(r, p, n, at, at)
    ensures n in nullable
    decreases p, 1
  {
    var layer := r.input.Layer();
    var node := r.g.nodes[n];
    ChildrenBelow(r.g, n);
    assert forall m :: m in Refs(r.g, layer, node) ==> m in ids;
    match node
    case Alt(arms) =>
      assert arms[p.index] in Refs(r.g, layer, node);
      NullableCovers(r, ids, nullable, p.body, arms[p.index], at);
    case Seq(items) =>
      assert forall i :: 0 <= i < |items| ==> items[i] in Refs(r.g, layer, node);
      NullableCoversItems(r, ids, nullable, p, items, at);
    case Opt(_) =>
    case Star(_) =>
    case Plus(body) => YieldsManyBounds(r, p, body, at, at);
    case Rule(name) =>
      if Expansion(r.g, layer, name).Some? {
        assert Expansion(r.g, layer, name).value in Refs(r.g, layer, node);
        NullableCovers(r, ids, nullable, p.body, Expansion(r.g, layer, name).value, at);
      }
    case _ =>
    assert NullableOf(r.g, layer, node, nullable);
  }

  lemma {:induction false} NullableCoversItems(r: Reading, ids: set<NodeId>, nullable: set<NodeId>, p: Proof,
                                               items: seq<NodeId>, at: nat)
    requires OkAll(r, items, at) && Region(r.g, r.input.Layer(), ids)
    requires forall i :: 0 <= i < |items| ==> items[i] in ids
    requires NullableClosed(r.g, r.input.Layer(), ids, nullable)
    requires YieldsItems(r, p, items, at, at)
    ensures forall i :: 0 <= i < |items| ==> items[i] in nullable
    decreases p, 0
  {
    if items != [] {
      YieldsBounds(r, p.head, items[0], at, p.mid);
      YieldsItemsBounds(r, p.tail, items[1..], p.mid, at);
      NullableCovers(r, ids, nullable, p.head, items[0], at);
      NullableCoversItems(r, ids, nullable, p.tail, items[1..], at);
    }
  }

  // ------------------------------------------------------------------
  // FIRST over-approximates: a derivation that consumes starts with a token
  // its node's FIRST set admits

  lemma {:induction false} FirstCovers(r: Reading, ids: set<NodeId>, nullable: set<NodeId>, first: FirstSets,
                                       p: Proof, n: NodeId, at: nat, e: nat)
    requires Ok(r, n, at) && r.input.Tokens? && Covers(r.g, ids, first) && n in ids
    requires NullableClosed(r.g, TokenLayer, ids, nullable) && FirstClosed(r.g, ids, nullable, first)
    requires Yields(r, p, n, at, e) && at < e
    ensures at < |r.input.tokens| && Meets(first[n], Features(r.input.tokens[at], r.input.reserved))
    decreases p, 1
  {
    var node := r.g.nodes[n];
    ChildrenBelow(r.g, n);
    YieldsBounds(r, p, n, at, e);
    assert forall m :: m in Refs(r.g, TokenLayer, node) ==> m in ids;
    var features := Features(r.input.tokens[at], r.input.reserved);
    assert Meets(FirstOf(r.g, node, nullable, first), features) by {
      match node
      case Alt(arms) =>
        assert arms[p.index] in Refs(r.g, TokenLayer, node);
        FirstCovers(r, ids, nullable, first, p.body, arms[p.index], at, e);
        FirstArmsMeet(arms, first, p.index, features);
      case Seq(items) =>
        assert forall i :: 0 <= i < |items| ==> items[i] in Refs(r.g, TokenLayer, node);
        FirstCoversItems(r, ids, nullable, first, p, items, at, e);
      case Opt(body) => FirstCovers(r, ids, nullable, first, p.body, body, at, e);
      case Star(body) => FirstCovers(r, ids, nullable, first, p.head, body, at, p.mid);
      case Plus(body) => FirstCovers(r, ids, nullable, first, p.head, body, at, p.mid);
      case Rule(name) =>
        if Expansion(r.g, TokenLayer, name).Some? {
          assert Expansion(r.g, TokenLayer, name).value in Refs(r.g, TokenLayer, node);
          FirstCovers(r, ids, nullable, first, p.body, Expansion(r.g, TokenLayer, name).value, at, e);
        } else if name in TOKEN_KIND_RULES {
          FeatureIsMatch(r.input.tokens[at], r.input.reserved, TOKEN_KIND_RULES[name], "");
          assert OfKind(TOKEN_KIND_RULES[name]) in {OfKind(TOKEN_KIND_RULES[name])} * features;
        }
      case Lit(text) =>
        FeatureIsMatch(r.input.tokens[at], r.input.reserved, Name, text);
        assert Spelled(text) in {Spelled(text)} * features;
      case _ =>
    }
    WithinMeets(FirstOf(r.g, node, nullable, first), first[n], features);
  }

  lemma {:induction false} FirstCoversItems(r: Reading, ids: set<NodeId>, nullable: set<NodeId>, first: FirstSets,
                                            p: Proof, items: seq<NodeId>, at: nat, e: nat)
    requires OkAll(r, items, at) && r.input.Tokens? && Covers(r.g, ids, first)
    requires forall i :: 0 <= i < |items| ==> items[i] in ids
    requires NullableClosed(r.g, TokenLayer, ids, nullable) && FirstClosed(r.g, ids, nullable, first)
    requires YieldsItems(r, p, items, at, e) && at < e && at < |r.input.tokens|
    ensures forall m :: m in items ==> m in first
    ensures Meets(FirstItems(items, nullable, first), Features(r.input.tokens[at], r.input.reserved))
    decreases p, 0
  {
    var features := Features(r.input.tokens[at], r.input.reserved);
    YieldsBounds(r, p.head, items[0], at, p.mid);
    if p.mid > at {
      FirstCovers(r, ids, nullable, first, p.head, items[0], at, p.mid);
      if items[0] in nullable {
        WithinMeets(first[items[0]], FirstItems(items, nullable, first), features);
      }
    } else {
      NullableCovers(r, ids, nullable, p.head, items[0], at);
      FirstCoversItems(r, ids, nullable, first, p.tail, items[1..], at, e);
      WithinMeets(FirstItems(items[1..], nullable, first), FirstItems(items, nullable, first), features);
    }
  }

  lemma WithinMeets(a: First, b: First, features: set<Feature>)
    requires Within(a, b) && Meets(a, features)
    ensures Meets(b, features)
  {
    if b.Of? {
      var f :| f in a.features * features;
      assert f in b.features * features;
    }
  }

  lemma {:induction false} FirstArmsMeet(arms: seq<NodeId>, first: FirstSets, i: nat, features: set<Feature>)
    requires i < |arms| && (forall m :: m in arms ==> m in first) && Meets(first[arms[i]], features)
    ensures Meets(FirstArms(arms, first), features)
  {
    if i == 0 {
      WithinMeets(first[arms[0]], FirstArms(arms, first), features);
    } else {
      FirstArmsMeet(arms[1..], first, i - 1, features);
      WithinMeets(FirstArms(arms[1..], first), FirstArms(arms, first), features);
    }
  }

  /** What the pruned recogniser asks of the next token before a call: nothing
      of a node that can derive nothing, and otherwise that it can begin the node. */
  datatype Guard = Unguarded | Needs(first: First)

  function GuardOf(n: NodeId, nullable: set<NodeId>, first: FirstSets): Guard
    requires n in first
  {
    if n in nullable then Unguarded else Needs(first[n])
  }

  predicate Admits(begins: Guard, features: seq<set<Feature>>, at: nat) {
    begins.Unguarded? || (at < |features| && Meets(begins.first, features[at]))
  }

  /** A guard that refuses skips only a call that would have answered "no derivation". */
  lemma GuardSkipsNothing(r: Reading, ids: set<NodeId>, nullable: set<NodeId>, first: FirstSets,
                          features: seq<set<Feature>>, n: NodeId, at: nat)
    requires Ok(r, n, at) && r.input.Tokens? && Covers(r.g, ids, first) && n in ids
    requires NullableClosed(r.g, TokenLayer, ids, nullable) && FirstClosed(r.g, ids, nullable, first)
    requires |features| == |r.input.tokens|
    requires forall i :: 0 <= i < |features| ==> features[i] == Features(r.input.tokens[i], r.input.reserved)
    requires !Admits(GuardOf(n, nullable, first), features, at)
    ensures Ends(r, n, at) == {}
  {
    forall e | e in Ends(r, n, at)
      ensures false
    {
      var p :| Yields(r, p, n, at, e);
      if e == at {
        NullableCovers(r, ids, nullable, p, n, at);
      } else {
        FirstCovers(r, ids, nullable, first, p, n, at, e);
      }
    }
  }

  // ------------------------------------------------------------------
  // Monotonicity of the equations

  lemma NullableMonotone(g: Grammar, layer: Layer, node: Node, small: set<NodeId>, large: set<NodeId>)
    requires small <= large && NullableOf(g, layer, node, small)
    ensures NullableOf(g, layer, node, large)
  {
  }

  ghost predicate AllWithin(a: FirstSets, b: FirstSets) {
    a.Keys == b.Keys && forall n :: n in a ==> Within(a[n], b[n])
  }

  lemma FirstMonotone(g: Grammar, node: Node, nullable: set<NodeId>, a: FirstSets, b: FirstSets)
    requires AllWithin(a, b) && forall m :: m in Refs(g, TokenLayer, node) ==> m in a
    ensures Within(FirstOf(g, node, nullable, a), FirstOf(g, node, nullable, b))
  {
    match node
    case Alt(arms) => FirstArmsMonotone(arms, a, b);
    case Seq(items) => FirstItemsMonotone(items, nullable, a, b);
    case Opt(body) => assert body in Refs(g, TokenLayer, node);
    case Star(body) => assert body in Refs(g, TokenLayer, node);
    case Plus(body) => assert body in Refs(g, TokenLayer, node);
    case Rule(name) =>
      if Expansion(g, TokenLayer, name).Some? {
        assert g.trees[name] in Refs(g, TokenLayer, node);
      }
    case _ =>
  }

  lemma {:induction false} FirstArmsMonotone(arms: seq<NodeId>, a: FirstSets, b: FirstSets)
    requires AllWithin(a, b) && forall m :: m in arms ==> m in a
    ensures Within(FirstArms(arms, a), FirstArms(arms, b))
  {
    if arms != [] {
      FirstArmsMonotone(arms[1..], a, b);
    }
  }

  lemma {:induction false} FirstItemsMonotone(items: seq<NodeId>, nullable: set<NodeId>, a: FirstSets, b: FirstSets)
    requires AllWithin(a, b) && forall m :: m in items ==> m in a
    ensures Within(FirstItems(items, nullable, a), FirstItems(items, nullable, b))
  {
    if items != [] && items[0] in nullable {
      FirstItemsMonotone(items[1..], nullable, a, b);
    }
  }

  // ------------------------------------------------------------------
  // Collecting the nodes

  ghost predicate HoldsRoots(g: Grammar, nodes: set<NodeId>) {
    forall name :: name in g.trees ==> g.trees[name] in nodes
  }

  ghost predicate HoldsChildren(g: Grammar, nodes: set<NodeId>)
    requires g.Valid() && forall n :: n in nodes ==> n < |g.nodes|
  {
    forall n, m :: n in nodes && m in Children(g.nodes[n]) ==> m in nodes
  }

  function Elements(order: seq<NodeId>): set<NodeId> {
    set n | n in order
  }

  ghost predicate Distinct(order: seq<NodeId>) {
    forall i, j :: 0 <= i < j < |order| ==> order[i] != order[j]
  }

  ghost predicate Holds(g: Grammar, nodes: set<NodeId>)
    requires g.Valid()
  {
    (forall n :: n in nodes ==> n < |g.nodes|) && HoldsRoots(g, nodes) && HoldsChildren(g, nodes)
  }

  ghost function UpTo(n: nat): (below: set<nat>)
    ensures forall i :: i in below <==> 0 <= i < n
  {
    if n == 0 then {} else UpTo(n - 1) + {n - 1}
  }

  /** Every node of every production, each once: the least set that holds the
      productions' roots and its members' children. */
  method Collect(g: Grammar, roots: seq<NodeId>) returns (order: seq<NodeId>)
    requires g.Valid() && Elements(roots) == g.trees.Values
    ensures Distinct(order) && forall n :: n in Elements(order) ==> n < |g.nodes|
    ensures HoldsRoots(g, Elements(order)) && HoldsChildren(g, Elements(order))
    ensures forall other :: Holds(g, other) ==> Elements(order) <= other
  {
    var nodes: set<NodeId>, pending := {}, roots;
    order := [];
    ghost var all := UpTo(|g.nodes|);
    forall name | name in g.trees
      ensures g.trees[name] in pending
    {
      assert g.trees[name] in Elements(roots);
    }
    assert forall n :: n in pending ==> n in Elements(roots);
    while pending != []
      invariant nodes == Elements(order) && Distinct(order) && nodes <= all
      invariant Gathering(g, nodes, pending)
      decreases all - nodes, |pending|
    {
      var node := pending[|pending| - 1];
      GatherOne(g, nodes, pending);
      pending := pending[..|pending| - 1];
      if node !in nodes {
        nodes := nodes + {node};
        order := order + [node];
        pending := pending + Children(g.nodes[node]);
      }
    }
  }

  /** What is gathered or pending is closed, and needed. */
  ghost predicate Gathering(g: Grammar, nodes: set<NodeId>, pending: seq<NodeId>)
    requires g.Valid()
  {
    && (forall n :: n in nodes || n in pending ==> n < |g.nodes|)
    && (forall name :: name in g.trees ==> g.trees[name] in nodes || g.trees[name] in pending)
    && (forall n, m :: n in nodes && m in Children(g.nodes[n]) ==> m in nodes || m in pending)
    && (forall other :: Holds(g, other) ==> nodes <= other && forall n :: n in pending ==> n in other)
  }

  lemma GatherOne(g: Grammar, nodes: set<NodeId>, pending: seq<NodeId>)
    requires g.Valid() && Gathering(g, nodes, pending) && pending != []
    ensures var node, rest := pending[|pending| - 1], pending[..|pending| - 1];
            && node < |g.nodes|
            && if node in nodes then Gathering(g, nodes, rest)
               else Gathering(g, nodes + {node}, rest + Children(g.nodes[node]))
  {
    var node, rest := pending[|pending| - 1], pending[..|pending| - 1];
    assert pending == rest + [node];
    assert node in pending;
    assert forall n :: n in pending <==> n in rest || n == node;
    assert Above(g.nodes[node], node);
    if node !in nodes {
      GatherChildren(g, nodes, rest, node);
    }
  }

  lemma GatherChildren(g: Grammar, nodes: set<NodeId>, rest: seq<NodeId>, node: NodeId)
    requires g.Valid() && node < |g.nodes| && Gathering(g, nodes, rest + [node]) && Above(g.nodes[node], node)
    ensures Gathering(g, nodes + {node}, rest + Children(g.nodes[node]))
  {
    var pending, next := rest + [node], rest + Children(g.nodes[node]);
    assert node in pending;
    assert forall n :: n in pending <==> n in rest || n == node;
    assert forall n :: n in next <==> n in rest || n in Children(g.nodes[node]);
    forall other | Holds(g, other)
      ensures nodes + {node} <= other && forall n :: n in next ==> n in other
    {
      assert node in other;
    }
  }

  lemma CollectedIsRegion(g: Grammar, ids: set<NodeId>)
    requires g.Valid() && (forall n :: n in ids ==> n < |g.nodes|)
    requires HoldsRoots(g, ids) && HoldsChildren(g, ids)
    ensures Region(g, TokenLayer, ids) && Region(g, TextLayer, ids)
  {
  }

  // ------------------------------------------------------------------
  // Least fixed points

  /** Whatever solves the equations holds every node of `nullable`. */
  ghost predicate NullableLeast(g: Grammar, ids: set<NodeId>, nullable: set<NodeId>)
    requires Region(g, TokenLayer, ids)
  {
    forall other :: NullableClosed(g, TokenLayer, ids, other) ==> nullable <= other
  }

  ghost predicate NullableJustified(g: Grammar, ids: set<NodeId>, nullable: set<NodeId>)
    requires Region(g, TokenLayer, ids)
  {
    nullable <= ids && forall n :: n in nullable ==> NullableOf(g, TokenLayer, g.nodes[n], nullable)
  }

  /** One assignment of the nullable loop. */
  lemma NullableAssignment(g: Grammar, ids: set<NodeId>, nullable: set<NodeId>, node: NodeId)
    requires Region(g, TokenLayer, ids) && node in ids && NullableOf(g, TokenLayer, g.nodes[node], nullable)
    requires NullableLeast(g, ids, nullable) && NullableJustified(g, ids, nullable)
    ensures NullableLeast(g, ids, nullable + {node}) && NullableJustified(g, ids, nullable + {node})
  {
    forall n | n in nullable + {node}
      ensures NullableOf(g, TokenLayer, g.nodes[n], nullable + {node})
    {
      NullableMonotone(g, TokenLayer, g.nodes[n], nullable, nullable + {node});
    }
    forall other | NullableClosed(g, TokenLayer, ids, other)
      ensures node in other
    {
      NullableMonotone(g, TokenLayer, g.nodes[node], nullable, other);
    }
  }

  ghost predicate SettledUpTo(g: Grammar, order: seq<NodeId>, nullable: set<NodeId>, i: nat)
    requires Region(g, TokenLayer, Elements(order)) && i <= |order|
  {
    forall n :: n in Elements(order[..i]) ==> Settled(g, Elements(order), nullable, n)
  }

  ghost predicate Settled(g: Grammar, ids: set<NodeId>, nullable: set<NodeId>, n: NodeId)
    requires Region(g, TokenLayer, ids)
  {
    n in ids && (NullableOf(g, TokenLayer, g.nodes[n], nullable) ==> n in nullable)
  }

  lemma SettledOneMore(g: Grammar, order: seq<NodeId>, nullable: set<NodeId>, i: nat)
    requires Region(g, TokenLayer, Elements(order)) && i < |order|
    requires SettledUpTo(g, order, nullable, i) && Settled(g, Elements(order), nullable, order[i])
    ensures SettledUpTo(g, order, nullable, i + 1)
  {
    assert order[..i + 1] == order[..i] + [order[i]];
  }

  lemma AllSettled(g: Grammar, order: seq<NodeId>, nullable: set<NodeId>)
    requires Region(g, TokenLayer, Elements(order)) && SettledUpTo(g, order, nullable, |order|)
    ensures NullableClosed(g, TokenLayer, Elements(order), nullable)
  {
    assert order[..|order|] == order;
    assert forall n :: n in Elements(order) && NullableOf(g, TokenLayer, g.nodes[n], nullable)
                       ==> Settled(g, Elements(order), nullable, n);
  }

  /** One pass over the nodes. */
  method NullablePass(g: Grammar, order: seq<NodeId>, nullable: set<NodeId>)
    returns (next: set<NodeId>, changed: bool)
    requires Region(g, TokenLayer, Elements(order))
    requires NullableJustified(g, Elements(order), nullable) && NullableLeast(g, Elements(order), nullable)
    ensures NullableJustified(g, Elements(order), next) && NullableLeast(g, Elements(order), next)
    ensures nullable <= next && (changed <==> nullable != next)
    ensures !changed ==> NullableClosed(g, TokenLayer, Elements(order), next)
  {
    ghost var ids := Elements(order);
    next, changed := nullable, false;
    for i := 0 to |order|
      invariant NullableJustified(g, ids, next) && NullableLeast(g, ids, next)
      invariant nullable <= next && (changed <==> nullable != next)
      invariant !changed ==> SettledUpTo(g, order, next, i)
    {
      var node := order[i];
      assert node in ids;
      if node !in next && NullableOf(g, TokenLayer, g.nodes[node], next) {
        NullableAssignment(g, ids, next, node);
        next := next + {node};
        changed := true;
      } else if !changed {
        SettledOneMore(g, order, next, i);
      }
    }
    if !changed {
      AllSettled(g, order, next);
    }
  }

  /** The nullable nodes: the least set closed under the equations. */
  method NullableNodes(g: Grammar, order: seq<NodeId>) returns (nullable: set<NodeId>)
    requires Region(g, TokenLayer, Elements(order))
    ensures NullableJustified(g, Elements(order), nullable)
    ensures NullableClosed(g, TokenLayer, Elements(order), nullable)
    ensures NullableLeast(g, Elements(order), nullable)
  {
    nullable := {};
    var changed := true;
    while changed
      invariant NullableJustified(g, Elements(order), nullable) && NullableLeast(g, Elements(order), nullable)
      invariant !changed ==> NullableClosed(g, TokenLayer, Elements(order), nullable)
      decreases Elements(order) - nullable, changed
    {
      nullable, changed := NullablePass(g, order, nullable);
    }
  }

  /** What a FIRST set can still gain: the measure of the loop below. */
  ghost function Missing(g: Grammar, first: FirstSets, universe: set<Feature>): set<(NodeId, Option<Feature>)> {
    (set n | n in first && first[n].Of? :: (n, None))
    + (set n, f | n in first && f in universe && first[n].Of? && f !in first[n].features :: (n, Some(f)))
  }

  ghost function Universe(g: Grammar): set<Feature> {
    (set n: NodeId | n < |g.nodes| && g.nodes[n].Lit? :: Spelled(g.nodes[n].text))
    + (set name | name in TOKEN_KIND_RULES :: OfKind(TOKEN_KIND_RULES[name]))
  }

  ghost predicate Inside(first: First, universe: set<Feature>) {
    first.Of? ==> first.features <= universe
  }

  lemma {:induction false} FirstInside(g: Grammar, n: NodeId, nullable: set<NodeId>, first: FirstSets)
    requires n < |g.nodes| && forall m :: m in Refs(g, TokenLayer, g.nodes[n]) ==> m in first
    requires forall m :: m in first ==> Inside(first[m], Universe(g))
    ensures Inside(FirstOf(g, g.nodes[n], nullable, first), Universe(g))
  {
    var node := g.nodes[n];
    match node
    case Alt(arms) => FirstArmsInside(arms, first, Universe(g));
    case Seq(items) => FirstItemsInside(items, nullable, first, Universe(g));
    case Opt(body) => assert body in Refs(g, TokenLayer, node);
    case Star(body) => assert body in Refs(g, TokenLayer, node);
    case Plus(body) => assert body in Refs(g, TokenLayer, node);
    case Rule(name) =>
      if Expansion(g, TokenLayer, name).Some? {
        assert g.trees[name] in Refs(g, TokenLayer, node);
      }
    case _ =>
  }

  lemma {:induction false} FirstArmsInside(arms: seq<NodeId>, first: FirstSets, universe: set<Feature>)
    requires forall m :: m in arms ==> m in first
    requires forall m :: m in first ==> Inside(first[m], universe)
    ensures Inside(FirstArms(arms, first), universe)
  {
    if arms != [] {
      FirstArmsInside(arms[1..], first, universe);
    }
  }

  lemma {:induction false} FirstItemsInside(items: seq<NodeId>, nullable: set<NodeId>, first: FirstSets,
                                            universe: set<Feature>)
    requires forall m :: m in items ==> m in first
    requires forall m :: m in first ==> Inside(first[m], universe)
    ensures Inside(FirstItems(items, nullable, first), universe)
  {
    if items != [] {
      FirstItemsInside(items[1..], nullable, first, universe);
    }
  }

  lemma MissingShrinks(g: Grammar, a: FirstSets, b: FirstSets, universe: set<Feature>)
    requires AllWithin(a, b) && a != b
    requires forall n :: n in b ==> Inside(b[n], universe)
    ensures Missing(g, b, universe) < Missing(g, a, universe)
  {
    assert Missing(g, b, universe) <= Missing(g, a, universe);
    var n :| n in a && a[n] != b[n];
    if b[n].AnyToken? {
      assert (n, None) in Missing(g, a, universe) && (n, None) !in Missing(g, b, universe);
    } else {
      assert a[n].features < b[n].features;
      var f :| f in b[n].features && f !in a[n].features;
      assert (n, Some(f)) in Missing(g, a, universe) && (n, Some(f)) !in Missing(g, b, universe);
    }
  }

  lemma AllWithinTransitive(a: FirstSets, b: FirstSets, c: FirstSets)
    requires AllWithin(a, b) && AllWithin(b, c)
    ensures AllWithin(a, c)
  {
  }

  /** What every pass of the FIRST loop keeps: no node claims more than its
      equation gives it, or more than any solution gives it. */
  ghost predicate FirstGrowing(g: Grammar, ids: set<NodeId>, nullable: set<NodeId>, first: FirstSets) {
    && Covers(g, ids, first)
    && (forall n :: n in ids ==> Within(first[n], FirstOf(g, g.nodes[n], nullable, first)))
    && (forall n :: n in ids ==> Inside(first[n], Universe(g)))
    && FirstLeast(g, ids, nullable, first)
  }

  /** Any solution of the equations holds `first`. */
  ghost predicate FirstLeast(g: Grammar, ids: set<NodeId>, nullable: set<NodeId>, first: FirstSets) {
    forall other :: Covers(g, ids, other) && FirstClosed(g, ids, nullable, other) ==> AllWithin(first, other)
  }

  lemma FirstAssignmentGrows(g: Grammar, ids: set<NodeId>, nullable: set<NodeId>, first: FirstSets, node: NodeId,
                             next: FirstSets)
    requires FirstGrowing(g, ids, nullable, first) && node in ids
    requires next == first[node := FirstOf(g, g.nodes[node], nullable, first)]
    ensures Covers(g, ids, next) && AllWithin(first, next)
    ensures forall n :: n in ids ==> Within(next[n], FirstOf(g, g.nodes[n], nullable, next))
  {
    assert next.Keys == ids;
    forall n | n in ids
      ensures Within(next[n], FirstOf(g, g.nodes[n], nullable, next))
    {
      FirstMonotone(g, g.nodes[n], nullable, first, next);
    }
  }

  lemma FirstAssignmentLeast(g: Grammar, ids: set<NodeId>, nullable: set<NodeId>, first: FirstSets, node: NodeId,
                             next: FirstSets)
    requires FirstGrowing(g, ids, nullable, first) && node in ids
    requires next == first[node := FirstOf(g, g.nodes[node], nullable, first)]
    ensures FirstLeast(g, ids, nullable, next)
  {
    forall other | Covers(g, ids, other) && FirstClosed(g, ids, nullable, other)
      ensures AllWithin(next, other)
    {
      FirstMonotone(g, g.nodes[node], nullable, first, other);
    }
  }

  /** One assignment of the FIRST loop. */
  lemma FirstAssignment(g: Grammar, ids: set<NodeId>, nullable: set<NodeId>, first: FirstSets, node: NodeId,
                        next: FirstSets)
    requires FirstGrowing(g, ids, nullable, first) && node in ids
    requires next == first[node := FirstOf(g, g.nodes[node], nullable, first)]
    ensures FirstGrowing(g, ids, nullable, next) && AllWithin(first, next)
  {
    FirstInside(g, node, nullable, first);
    FirstAssignmentGrows(g, ids, nullable, first, node, next);
    FirstAssignmentLeast(g, ids, nullable, first, node, next);
  }

  ghost predicate Solves(g: Grammar, ids: set<NodeId>, nullable: set<NodeId>, first: FirstSets, n: NodeId) {
    Covers(g, ids, first) && n in ids && first[n] == FirstOf(g, g.nodes[n], nullable, first)
  }

  ghost predicate SolvesUpTo(g: Grammar, order: seq<NodeId>, nullable: set<NodeId>, first: FirstSets, i: nat) {
    forall k :: 0 <= k < i && k < |order| ==> Solves(g, Elements(order), nullable, first, order[k])
  }

  lemma SolvesOneMore(g: Grammar, order: seq<NodeId>, nullable: set<NodeId>, first: FirstSets, i: nat)
    requires i < |order| && SolvesUpTo(g, order, nullable, first, i)
    requires Solves(g, Elements(order), nullable, first, order[i])
    ensures SolvesUpTo(g, order, nullable, first, i + 1)
  {
  }

  /** One pass over the nodes. */
  method FirstPass(g: Grammar, order: seq<NodeId>, nullable: set<NodeId>, first: FirstSets)
    returns (next: FirstSets, changed: bool)
    requires FirstGrowing(g, Elements(order), nullable, first)
    ensures FirstGrowing(g, Elements(order), nullable, next)
    ensures AllWithin(first, next) && (changed <==> first != next)
    ensures !changed ==> forall n :: n in Elements(order) ==> Solves(g, Elements(order), nullable, next, n)
  {
    ghost var ids := Elements(order);
    next, changed := first, false;
    for i := 0 to |order|
      invariant FirstGrowing(g, ids, nullable, next)
      invariant AllWithin(first, next) && (changed <==> first != next)
      invariant !changed ==> SolvesUpTo(g, order, nullable, next, i)
    {
      var node := order[i];
      assert node in ids;
      var found := FirstOf(g, g.nodes[node], nullable, next);
      if found != next[node] {
        var after := next[node := found];
        FirstAssignment(g, ids, nullable, next, node, after);
        StillChanged(first, next, after, node);
        next, changed := after, true;
      } else if !changed {
        SolvesOneMore(g, order, nullable, next, i);
      }
    }
    if !changed {
      forall n | n in ids
        ensures Solves(g, ids, nullable, next, n)
      {
        var k :| 0 <= k < |order| && order[k] == n;
      }
    }
  }

  lemma FirstStart(g: Grammar, ids: set<NodeId>, nullable: set<NodeId>, first: FirstSets)
    requires Region(g, TokenLayer, ids) && first == map n | n in ids :: Of({})
    ensures FirstGrowing(g, ids, nullable, first)
  {
    assert first.Keys == ids;
  }

  /** The FIRST sets: the least solution of their equations.  The loop ends
      because every change takes something away from `Missing`. */
  method FirstNodes(g: Grammar, order: seq<NodeId>, nullable: set<NodeId>) returns (first: FirstSets)
    requires Region(g, TokenLayer, Elements(order))
    ensures Covers(g, Elements(order), first)
    ensures forall n :: n in Elements(order) ==> Solves(g, Elements(order), nullable, first, n)
    ensures FirstClosed(g, Elements(order), nullable, first)
    ensures FirstLeast(g, Elements(order), nullable, first)
  {
    first := map n | n in order :: Of({});
    FirstStart(g, Elements(order), nullable, first);
    var changed := true;
    while changed
      invariant FirstGrowing(g, Elements(order), nullable, first)
      invariant !changed ==> forall n :: n in Elements(order) ==> Solves(g, Elements(order), nullable, first, n)
      decreases Missing(g, first, Universe(g)), changed
    {
      var next;
      next, changed := FirstPass(g, order, nullable, first);
      if changed {
        MissingShrinks(g, first, next, Universe(g));
      }
      first := next;
    }
  }

  lemma StillChanged(before: FirstSets, was: FirstSets, first: FirstSets, node: NodeId)
    requires AllWithin(before, was) && AllWithin(was, first) && node in was && was[node] != first[node]
    ensures AllWithin(before, first) && before != first
  {
    AllWithinTransitive(before, was, first);
    assert Within(before[node], was[node]) && Within(was[node], first[node]);
  }
}
