/** The pruned recogniser.  The source builds one closure per node; a closure is
    the data it captured, so here it is a value of `Code`, `Build` makes it and
    `Run` is what calling it does. */
module Compiled {
  import opened Grammars
  import opened Analyses
  import opened Unpruned

  datatype Code =
    | OneToken(feature: Feature)
    | AnyOne
    | Nothing
    | Call(name: string)
    | Choice(arms: seq<Code>, table: ArmTable, always: set<nat>, empty: seq<nat>)
    | Chain(calls: seq<Code>, begins: seq<Guard>)
    | Maybe(call: Code, guard: Guard)
    | Loop(call: Code, guard: Guard, atLeastOne: bool)

  type ArmTable = map<Feature, seq<nat>>

  function Entries(table: ArmTable, f: Feature): seq<nat> {
    if f in table then table[f] else []
  }

  /** Arm `i` begins with a token of feature `f`, or with a token outright. */
  ghost predicate Lists(guards: seq<Guard>, f: Feature, i: int) {
    0 <= i < |guards| && guards[i].Needs? && guards[i].first.Of? && f in guards[i].first.features
  }

  ghost predicate Always(guards: seq<Guard>, i: int) {
    0 <= i < |guards| && (guards[i].Unguarded? || guards[i].first.AnyToken?)
  }

  ghost predicate Empty(guards: seq<Guard>, i: int) {
    0 <= i < |guards| && guards[i].Unguarded?
  }

  /** What a choice's table holds of its arms' guards. */
  ghost predicate Tabled(guards: seq<Guard>, table: ArmTable, always: set<nat>, empty: seq<nat>) {
    && (forall i :: i in empty <==> Empty(guards, i))
    && (forall i :: i in always <==> Always(guards, i))
    && (forall f, i :: i in Entries(table, f) <==> Lists(guards, f, i))
  }

  /** Each index once, in the order of the arms. */
  ghost predicate Increasing(indices: seq<nat>) {
    forall j, k :: 0 <= j < k < |indices| ==> indices[j] < indices[k]
  }

  ghost predicate InOrder(table: ArmTable, empty: seq<nat>) {
    Increasing(empty) && forall f :: Increasing(Entries(table, f))
  }

  lemma OneMoreIndex(indices: seq<nat>, index: nat)
    requires Increasing(indices) && forall i :: i in indices ==> i < index
    ensures Increasing(indices + [index])
  {
    assert forall j :: 0 <= j < |indices| ==> indices[j] in indices;
  }

  lemma OneMoreGuard(guards: seq<Guard>, last: Guard)
    ensures forall i :: Empty(guards + [last], i) <==> Empty(guards, i) || (i == |guards| && last.Unguarded?)
    ensures forall i :: Always(guards + [last], i)
                        <==> Always(guards, i) || (i == |guards| && (last.Unguarded? || last.first.AnyToken?))
    ensures forall f, i :: Lists(guards + [last], f, i)
                           <==> (Lists(guards, f, i)
                                 || (i == |guards| && last.Needs? && last.first.Of? && f in last.first.features))
  {
  }

  method ChoiceTable(guards: seq<Guard>) returns (table: ArmTable, always: set<nat>, empty: seq<nat>)
    ensures Tabled(guards, table, always, empty) && InOrder(table, empty)
  {
    table, always, empty := map[], {}, [];
    for index := 0 to |guards|
      invariant Tabled(guards[..index], table, always, empty) && InOrder(table, empty)
    {
      var begins := guards[index];
      assert guards[..index + 1] == guards[..index] + [begins];
      OneMoreGuard(guards[..index], begins);
      if begins.Unguarded? {
        OneMoreIndex(empty, index);
        empty := empty + [index];
        always := always + {index};
      } else if begins.first.AnyToken? {
        always := always + {index};
      } else {
        ghost var before := table;
        table := AddIndex(table, begins.first.features, index);
        forall f
          ensures Increasing(Entries(table, f))
        {
          OneMoreIndex(Entries(before, f), index);
        }
      }
    }
    assert guards[..|guards|] == guards;
  }

  method AddIndex(before: ArmTable, features: set<Feature>, index: nat) returns (table: ArmTable)
    ensures forall f :: Entries(table, f) == if f in features then Entries(before, f) + [index] else Entries(before, f)
  {
    table := before;
    var left := features;
    while left != {}
      invariant left <= features
      invariant forall f :: f in features - left ==> Entries(table, f) == Entries(before, f) + [index]
      invariant forall f :: f !in features - left ==> Entries(table, f) == Entries(before, f)
      decreases left
    {
      var feature :| feature in left;
      table := table[feature := Entries(table, feature) + [index]];
      left := left - {feature};
    }
  }

  /** The arms a choice tries at a token with these features. */
  ghost function Picked(guards: seq<Guard>, features: seq<set<Feature>>, at: nat): set<nat> {
    set i | 0 <= i < |guards| && Admits(guards[i], features, at)
  }

  ghost function Guards(items: seq<NodeId>, nullable: set<NodeId>, first: FirstSets): seq<Guard>
    requires forall i :: 0 <= i < |items| ==> items[i] in first
  {
    seq(|items|, i requires 0 <= i < |items| => GuardOf(items[i], nullable, first))
  }

  /** `code` is what the source builds for node `n`. */
  ghost predicate Compiles(g: Grammar, ids: set<NodeId>, nullable: set<NodeId>, first: FirstSets, n: NodeId, code: Code)
    requires Domain(g, ids, first)
    decreases n
  {
    n in ids && n < |g.nodes| &&
    match g.nodes[n]
    case Lit(text) => code == OneToken(Spelled(text))
    case Byte => code == AnyOne
    case TextByte => code == AnyOne
    case Rule(name) =>
      if name in TOKEN_KIND_RULES then code == OneToken(OfKind(TOKEN_KIND_RULES[name]))
      else if name in LEXICAL_RULES then code == AnyOne
      else if name in g.trees then code == Call(name)
      else code == Nothing
    case Alt(arms) =>
      && code.Choice? && AllCompile(g, ids, nullable, first, arms, code.arms, n)
      && Tabled(Guards(arms, nullable, first), code.table, code.always, code.empty)
    case Seq(items) =>
      if |items| == 1 then items[0] < n && Compiles(g, ids, nullable, first, items[0], code)
      else
        && code.Chain? && AllCompile(g, ids, nullable, first, items, code.calls, n)
        && code.begins == Guards(items, nullable, first)
    case Opt(body) =>
      && code.Maybe? && body < n && Compiles(g, ids, nullable, first, body, code.call)
      && code.guard == GuardOf(body, nullable, first)
    case Star(body) =>
      && code.Loop? && !code.atLeastOne && body < n && Compiles(g, ids, nullable, first, body, code.call)
      && code.guard == GuardOf(body, nullable, first)
    case Plus(body) =>
      && code.Loop? && code.atLeastOne && body < n && Compiles(g, ids, nullable, first, body, code.call)
      && code.guard == GuardOf(body, nullable, first)
    case _ => code == Nothing
  }

  ghost predicate AllCompile(g: Grammar, ids: set<NodeId>, nullable: set<NodeId>, first: FirstSets,
                             items: seq<NodeId>, codes: seq<Code>, n: NodeId)
    requires Domain(g, ids, first)
    ensures AllCompile(g, ids, nullable, first, items, codes, n) ==>
              |codes| == |items| && forall i :: 0 <= i < |items| ==> items[i] in first
    decreases n, 0
  {
    && |codes| == |items|
    && (forall i :: 0 <= i < |items| ==> items[i] < n && Compiles(g, ids, nullable, first, items[i], codes[i]))
  }

  lemma OneMoreCode(g: Grammar, ids: set<NodeId>, nullable: set<NodeId>, first: FirstSets, items: seq<NodeId>,
                    last: NodeId, codes: seq<Code>, code: Code, n: NodeId)
    requires Domain(g, ids, first) && AllCompile(g, ids, nullable, first, items, codes, n)
    requires last < n && Compiles(g, ids, nullable, first, last, code)
    ensures AllCompile(g, ids, nullable, first, items + [last], codes + [code], n)
    ensures Guards(items + [last], nullable, first)
         == Guards(items, nullable, first) + [GuardOf(last, nullable, first)]
  {
  }

  /** A sequence of one item compiles to the item. */
  ghost function Core(g: Grammar, n: NodeId): NodeId
    requires g.Valid() && n < |g.nodes|
    decreases n
  {
    ChildrenBelow(g, n);
    if g.nodes[n].Seq? && |g.nodes[n].items| == 1 then Core(g, g.nodes[n].items[0]) else n
  }

  lemma SingleLeads(g: Grammar, ids: set<NodeId>, nullable: set<NodeId>, rank: map<NodeId, nat>, n: NodeId)
    requires Region(g, TokenLayer, ids) && n in ids && LeadingCalls(g, TokenLayer, ids, nullable).Ranked(rank)
    requires g.nodes[n].Seq? && |g.nodes[n].items| == 1
    ensures g.nodes[n].items[0] in ids && rank[g.nodes[n].items[0]] < rank[n]
  {
    assert g.nodes[n].items[0] in Refs(g, TokenLayer, g.nodes[n]);
    assert LeadingCalls(g, TokenLayer, ids, nullable).Edge(n, g.nodes[n].items[0]);
  }

  lemma {:induction false} CoreCompiles(g: Grammar, ids: set<NodeId>, nullable: set<NodeId>, first: FirstSets,
                                        n: NodeId, code: Code)
    requires Domain(g, ids, first) && n in ids && Compiles(g, ids, nullable, first, n, code)
    ensures Core(g, n) in ids && Compiles(g, ids, nullable, first, Core(g, n), code)
    ensures !(g.nodes[Core(g, n)].Seq? && |g.nodes[Core(g, n)].items| == 1)
    decreases n
  {
    if g.nodes[n].Seq? && |g.nodes[n].items| == 1 {
      CoreCompiles(g, ids, nullable, first, g.nodes[n].items[0], code);
    }
  }

  lemma {:induction false} CoreDerives(r: Reading, ids: set<NodeId>, nullable: set<NodeId>, rank: map<NodeId, nat>,
                                       n: NodeId, at: nat)
    requires Ok(r, n, at) && Region(r.g, TokenLayer, ids) && n in ids
    requires LeadingCalls(r.g, TokenLayer, ids, nullable).Ranked(rank)
    ensures Core(r.g, n) in ids && rank[Core(r.g, n)] <= rank[n] && Ends(r, Core(r.g, n), at) == Ends(r, n, at)
    decreases n
  {
    if r.g.nodes[n].Seq? && |r.g.nodes[n].items| == 1 {
      EndsSingle(r, n, at);
      SingleLeads(r.g, ids, nullable, rank, n);
      CoreDerives(r, ids, nullable, rank, r.g.nodes[n].items[0], at);
    }
  }

  lemma {:induction false} EveryArmPicked(guards: seq<Guard>, table: ArmTable, always: set<nat>, empty: seq<nat>,
                                          features: seq<set<Feature>>, at: nat, picked: set<nat>)
    requires Tabled(guards, table, always, empty)
    requires at >= |features| ==> picked == set i | i in empty
    requires at < |features| ==> picked == always + Looked(table, features[at])
    ensures picked == Picked(guards, features, at)
  {
    forall i: nat
      ensures i in picked <==> 0 <= i < |guards| && Admits(guards[i], features, at)
    {
      assert Empty(guards, i) <==> i in empty;
      assert Always(guards, i) <==> i in always;
      if at < |features| {
        if i in Looked(table, features[at]) {
          var f :| f in features[at] && i in Entries(table, f);
          assert Lists(guards, f, i);
          assert f in guards[i].first.features * features[at];
        }
        if 0 <= i < |guards| && guards[i].Needs? && guards[i].first.Of? && Admits(guards[i], features, at) {
          var f :| f in guards[i].first.features * features[at];
          assert Lists(guards, f, i);
          assert i in Entries(table, f);
        }
      }
    }
  }

  ghost function Looked(table: ArmTable, features: set<Feature>): set<nat> {
    set f, i | f in features && i in Entries(table, f) :: i
  }

  /** The union over the arms that are tried is the union over all of them. */
  lemma PickedIsEnough(r: Reading, ids: set<NodeId>, nullable: set<NodeId>, first: FirstSets,
                       features: seq<set<Feature>>, arms: seq<NodeId>, at: nat, ends: set<nat>)
    requires OkAll(r, arms, at) && r.input.Tokens? && Covers(r.g, ids, first)
    requires forall i :: 0 <= i < |arms| ==> arms[i] in ids
    requires NullableClosed(r.g, TokenLayer, ids, nullable) && FirstClosed(r.g, ids, nullable, first)
    requires |features| == |r.input.tokens|
    requires forall i :: 0 <= i < |features| ==> features[i] == Features(r.input.tokens[i], r.input.reserved)
    requires ends == EndsOf(r, arms, at, Picked(Guards(arms, nullable, first), features, at))
    ensures ends == EndsAny(r, arms, at)
  {
    var guards := Guards(arms, nullable, first);
    forall i | 0 <= i < |arms|
      ensures i in Picked(guards, features, at) || Ends(r, arms[i], at) == {}
    {
      if !Admits(guards[i], features, at) {
        GuardSkipsNothing(r, ids, nullable, first, features, arms[i], at);
      }
    }
  }

  class Pruned {
    const g: Grammar
    const nullable: set<NodeId>
    const first: FirstSets
    ghost const ids: set<NodeId>
    ghost const rank: map<NodeId, nat>

    var built: map<NodeId, Code>
    var bodies: map<string, Code>
    // What one derivation reads, replaced for each source.
    ghost var input: Input
    var features: seq<set<Feature>>
    var memo: map<(string, nat), set<nat>>

    /** An analysed grammar none of whose productions leads to itself. */
    ghost predicate Analysed() {
      Domain(g, ids, first) && forall k {:trigger Unseal(k)} :: Unseal(k) ==> Facts()
    }

    ghost predicate Facts()
      requires Domain(g, ids, first)
    {
      && Covers(g, ids, first) && HoldsRoots(g, ids)
      && NullableClosed(g, TokenLayer, ids, nullable) && FirstClosed(g, ids, nullable, first)
      && LeadingCalls(g, TokenLayer, ids, nullable).Ranked(rank)
    }

    ghost predicate Expands(name: string) {
      name in g.trees && name !in TOKEN_KIND_RULES && name !in LEXICAL_RULES
    }

    /** Everything built so far is right. */
    ghost predicate BuiltRight()
      reads this
      requires Domain(g, ids, first)
    {
      forall k {:trigger Unseal(k)} :: Unseal(k) ==>
        && (forall n :: n in built ==> Compiles(g, ids, nullable, first, n, built[n]))
        && (forall name :: name in bodies ==>
              Expands(name) && Compiles(g, ids, nullable, first, g.trees[name], bodies[name]))
    }

    ghost function R(): Reading
      reads this
    {
      Reading(g, input)
    }

    /** Every remembered answer is right. */
    ghost predicate MemoRight()
      reads this
      requires Domain(g, ids, first)
    {
      && input.Tokens? && |features| == |input.tokens|
      && forall k {:trigger Unseal(k)} :: Unseal(k) ==>
           && (forall i :: 0 <= i < |features| ==> features[i] == Features(input.tokens[i], input.reserved))
           && (forall k :: k in memo ==>
                 Expands(k.0) && k.1 <= |features| && memo[k] == Ends(R(), g.trees[k.0], k.1))
    }

    constructor (grammar: Grammar, empty: set<NodeId>, starts: FirstSets, ghost region: set<NodeId>,
                 ghost order: map<NodeId, nat>)
      requires Covers(grammar, region, starts) && HoldsRoots(grammar, region)
      requires NullableClosed(grammar, TokenLayer, region, empty) && FirstClosed(grammar, region, empty, starts)
      requires LeadingCalls(grammar, TokenLayer, region, empty).Ranked(order)
      ensures g == grammar && Analysed() && BuiltRight()
    {
      g, nullable, first, ids, rank := grammar, empty, starts, region, order;
      built, bodies, memo, features := map[], map[], map[], [];
      input := Tokens([], {});
    }

    lemma RefsInside(n: NodeId)
      requires Analysed() && n in ids
      ensures forall m :: m in Refs(g, TokenLayer, g.nodes[n]) ==> m in ids
    {
      assert Unseal(0);
    }

    /** The closure for node `n`, made once. */
    method Build(n: NodeId) returns (made: Code)
      requires Analysed() && BuiltRight() && n in ids
      modifies this`built
      ensures BuiltRight() && Compiles(g, ids, nullable, first, n, made)
      decreases n, 2
    {
      assert Unseal(0);
      if n in built {
        return built[n];
      }
      made := Make(n);
      built := built[n := made];
    }

    method Make(n: NodeId) returns (made: Code)
      requires Analysed() && BuiltRight() && n in ids
      modifies this`built
      ensures BuiltRight() && Compiles(g, ids, nullable, first, n, made)
      decreases n, 1
    {
      var node := g.nodes[n];
      ChildrenBelow(g, n);
      RefsInside(n);
      match node {
        case Lit(text) => made := OneToken(Spelled(text));
        case Byte => made := AnyOne;
        case TextByte => made := AnyOne;
        case Rule(name) =>
          if name in TOKEN_KIND_RULES {
            made := OneToken(OfKind(TOKEN_KIND_RULES[name]));
          } else if name in LEXICAL_RULES {
            made := AnyOne;
          } else if name in g.trees {
            made := Call(name);
          } else {
            made := Nothing;
          }
        case Alt(arms) =>
          assert forall i :: 0 <= i < |arms| ==> arms[i] in Refs(g, TokenLayer, node);
          var codes, guards := BuildAll(arms, n);
          var table, always, empty := ChoiceTable(guards);
          made := Choice(codes, table, always, empty);
        case Seq(items) =>
          assert forall i :: 0 <= i < |items| ==> items[i] in Refs(g, TokenLayer, node);
          var codes, guards := BuildAll(items, n);
          made := if |codes| == 1 then codes[0] else Chain(codes, guards);
        case Opt(body) =>
          assert body in Refs(g, TokenLayer, node);
          var call := Build(body);
          made := Maybe(call, GuardOf(body, nullable, first));
        case Star(body) =>
          assert body in Refs(g, TokenLayer, node);
          var call := Build(body);
          made := Loop(call, GuardOf(body, nullable, first), false);
        case Plus(body) =>
          assert body in Refs(g, TokenLayer, node);
          var call := Build(body);
          made := Loop(call, GuardOf(body, nullable, first), true);
        case _ => made := Nothing;
      }
    }

    method BuildAll(items: seq<NodeId>, ghost n: NodeId) returns (codes: seq<Code>, guards: seq<Guard>)
      requires Analysed() && BuiltRight()
      requires forall i :: 0 <= i < |items| ==> items[i] in ids && items[i] < n
      modifies this`built
      ensures BuiltRight() && AllCompile(g, ids, nullable, first, items, codes, n)
      ensures guards == Guards(items, nullable, first)
      decreases n, 0
    {
      codes, guards := [], [];
      for i := 0 to |items|
        invariant BuiltRight()
        invariant AllCompile(g, ids, nullable, first, items[..i], codes, n)
        invariant guards == Guards(items[..i], nullable, first)
      {
        var code := Build(items[i]);
        OneMoreCode(g, ids, nullable, first, items[..i], items[i], codes, code, n);
        assert items[..i + 1] == items[..i] + [items[i]];
        codes := codes + [code];
        guards := guards + [GuardOf(items[i], nullable, first)];
      }
      assert items[..|items|] == items;
    }

    // ----------------------------------------------------------------
    // Calling what was built

    ghost predicate Ready()
      reads this
    {
      Analysed() && BuiltRight() && MemoRight()
    }

    /** Why the call terminates: fewer tokens are left, or the call leads and the
        rank goes down. */
    ghost function Left(at: nat): int
      reads this
    {
      |features| - at
    }

    ghost function RankOf(n: NodeId): nat {
      if n in rank then rank[n] else 0
    }

    lemma LeadsDown(n: NodeId, m: NodeId)
      requires Analysed() && n in ids && m in Leading(g, TokenLayer, g.nodes[n], nullable)
      ensures m in ids && RankOf(m) < RankOf(n)
    {
      assert Unseal(0);
      LeadingAreRefs(g, TokenLayer, g.nodes[n], nullable, m);
      assert LeadingCalls(g, TokenLayer, ids, nullable).Edge(n, m);
    }

    lemma Skips(n: NodeId, at: nat)
      requires Analysed() && MemoRight() && n in ids && at <= |features|
      requires !Admits(GuardOf(n, nullable, first), features, at)
      ensures Ends(R(), n, at) == {}
    {
      assert Unseal(0);
      GuardSkipsNothing(R(), ids, nullable, first, features, n, at);
    }

    lemma CoreRuns(code: Code, n: NodeId, at: nat)
      requires Ready() && n in ids && at <= |features| && Compiles(g, ids, nullable, first, n, code)
      ensures var m := Core(g, n);
              && m in ids && RankOf(m) <= RankOf(n) && Ends(R(), m, at) == Ends(R(), n, at)
              && Compiles(g, ids, nullable, first, m, code)
              && !(g.nodes[m].Seq? && |g.nodes[m].items| == 1)
    {
      assert Unseal(0);
      CoreCompiles(g, ids, nullable, first, n, code);
      CoreDerives(R(), ids, nullable, rank, n, at);
    }

    lemma ItemLeads(n: NodeId, k: nat, at: nat)
      requires Ready() && n in ids && at <= |features| && g.nodes[n].Seq? && k < |g.nodes[n].items|
      requires OkAll(R(), g.nodes[n].items, at)
      ensures g.nodes[n].items[k] in ids
      ensures at in EndsItems(R(), g.nodes[n].items[..k], at) ==> RankOf(g.nodes[n].items[k]) < RankOf(n)
    {
      assert Unseal(0);
      var items := g.nodes[n].items;
      assert forall i :: 0 <= i < |items| ==> items[i] in Refs(g, TokenLayer, g.nodes[n]);
      if at in EndsItems(R(), items[..k], at) {
        ReachedLeads(R(), ids, nullable, items, k, at);
        LeadsDown(n, items[k]);
      }
    }

    lemma ChoiceIsWhole(n: NodeId, at: nat, ends: set<nat>)
      requires Ready() && n in ids && at <= |features| && g.nodes[n].Alt? && OkAll(R(), g.nodes[n].arms, at)
      requires forall i :: 0 <= i < |g.nodes[n].arms| ==> g.nodes[n].arms[i] in ids
      requires ends == EndsOf(R(), g.nodes[n].arms, at, Picked(Guards(g.nodes[n].arms, nullable, first), features, at))
      ensures ends == EndsAny(R(), g.nodes[n].arms, at)
    {
      assert Unseal(0);
      PickedIsEnough(R(), ids, nullable, first, features, g.nodes[n].arms, at, ends);
    }

    /** What calling node `n`'s closure answers: every end of every derivation. */
    method Run(code: Code, at: nat, ghost n: NodeId) returns (ends: set<nat>)
      requires Ready() && n in ids && at <= |features| && Compiles(g, ids, nullable, first, n, code)
      modifies this`memo, this`built, this`bodies
      ensures Ready() && ends == Ends(R(), n, at)
      decreases Left(at), RankOf(n), 3
    {
      ghost var m := Core(g, n);
      CoreRuns(code, n, at);
      match code {
        case OneToken(feature) =>
          TokenEnds(m, at);
          ends := if at < |features| && feature in features[at] then {at + 1} else {};
        case AnyOne =>
          TokenEnds(m, at);
          ends := if at < |features| then {at + 1} else {};
        case Nothing =>
          TokenEnds(m, at);
          ends := {};
        case Call(name) =>
          EndsRule(R(), m, at, g.trees[name]);
          ends := RunRule(name, at, m);
        case Choice(_, _, _, _) =>
          EndsAlt(R(), m, at);
          ends := RunChoice(code, at, m);
        case Chain(_, _) =>
          EndsSeq(R(), m, at);
          ends := RunChain(code, at, m);
        case Maybe(call, guard) =>
          EndsOpt(R(), m, at);
          LeadsDown(m, g.nodes[m].body);
          if !Admits(guard, features, at) {
            Skips(g.nodes[m].body, at);
            ends := {at};
          } else {
            var found := Run(call, at, g.nodes[m].body);
            ends := {at} + found;
          }
        case Loop(call, guard, atLeastOne) =>
          if atLeastOne { EndsPlus(R(), m, at); } else { EndsStar(R(), m, at); }
          LeadsDown(m, g.nodes[m].body);
          ends := RunLoop(code, at, m, g.nodes[m].body);
      }
    }

    lemma TokenEnds(n: NodeId, at: nat)
      requires Ready() && n in ids && at <= |features| && IsTerminal(g, TokenLayer, g.nodes[n])
      ensures var node := g.nodes[n];
              Ends(R(), n, at) ==
                match node
                case Lit(text) => OneIf(at < |features| && Spelled(text) in features[at], at)
                case Byte => OneIf(at < |features|, at)
                case TextByte => OneIf(at < |features|, at)
                case Rule(name) =>
                  if name in TOKEN_KIND_RULES then
                    OneIf(at < |features| && OfKind(TOKEN_KIND_RULES[name]) in features[at], at)
                  else OneIf(at < |features| && name in LEXICAL_RULES, at)
                case _ => {}
    {
      assert Unseal(0);
      EndsTerminal(R(), n, at);
      if at < |features| {
        match g.nodes[n]
        case Lit(text) => FeatureIsMatch(input.tokens[at], input.reserved, Name, text);
        case Rule(name) =>
          if name in TOKEN_KIND_RULES {
            FeatureIsMatch(input.tokens[at], input.reserved, TOKEN_KIND_RULES[name], "");
          }
        case _ =>
      }
    }

    lemma RuleLeads(n: NodeId, name: string)
      requires Analysed() && n in ids && g.nodes[n] == Rule(name) && Expands(name)
      ensures g.trees[name] in ids && g.trees[name] < |g.nodes| && RankOf(g.trees[name]) < RankOf(n)
    {
      LeadsDown(n, g.trees[name]);
    }

    /** A rule's body, built when the rule is first called. */
    method Body(name: string) returns (body: Code)
      requires Analysed() && BuiltRight() && Expands(name) && g.trees[name] in ids
      modifies this`built, this`bodies
      ensures BuiltRight() && Compiles(g, ids, nullable, first, g.trees[name], body)
    {
      assert Unseal(0);
      if name !in bodies {
        body := Build(g.trees[name]);
        assert Unseal(0);
        bodies := bodies[name := body];
      }
      body := bodies[name];
    }

    ghost predicate Remembers(name: string, at: nat, ends: set<nat>)
      reads this
      requires Domain(g, ids, first) && MemoRight()
    {
      Expands(name) && g.trees[name] < |g.nodes| && at <= |features| && ends == Ends(R(), g.trees[name], at)
    }

    lemma Remembered(name: string, at: nat)
      requires Analysed() && MemoRight() && (name, at) in memo
      ensures Remembers(name, at, memo[(name, at)])
    {
      assert Unseal(0);
    }

    method Remember(name: string, at: nat, ends: set<nat>)
      requires Ready() && Remembers(name, at, ends)
      modifies this`memo
      ensures Ready()
    {
      assert Unseal(0);
      memo := memo[(name, at) := ends];
    }

    method RunRule(name: string, at: nat, ghost n: NodeId) returns (ends: set<nat>)
      requires Ready() && n in ids && at <= |features| && g.nodes[n] == Rule(name) && Expands(name)
      modifies this`memo, this`built, this`bodies
      ensures Ready() && ends == Ends(R(), g.trees[name], at)
      decreases Left(at), RankOf(n), 2
    {
      if (name, at) in memo {
        Remembered(name, at);
        return memo[(name, at)];
      }
      RuleLeads(n, name);
      var body := Body(name);
      ends := Run(body, at, g.trees[name]);
      Remember(name, at, ends);
    }

    /** The arms the token at `at` can start, and the arms that can derive nothing. */
    method Pick(code: Code, at: nat, ghost guards: seq<Guard>) returns (picked: set<nat>)
      requires code.Choice? && Tabled(guards, code.table, code.always, code.empty)
      ensures picked == Picked(guards, features, at)
    {
      if at >= |features| {
        picked := set i | i in code.empty;
      } else {
        var found := Lookup(code.table, features[at]);
        picked := code.always + found;
      }
      EveryArmPicked(guards, code.table, code.always, code.empty, features, at, picked);
    }

    method RunChoice(code: Code, at: nat, ghost n: NodeId) returns (ends: set<nat>)
      requires Ready() && n in ids && at <= |features| && g.nodes[n].Alt? && OkAll(R(), g.nodes[n].arms, at)
      requires Compiles(g, ids, nullable, first, n, code)
      modifies this`memo, this`built, this`bodies
      ensures Ready() && ends == EndsAny(R(), g.nodes[n].arms, at)
      decreases Left(at), RankOf(n), 2
    {
      ghost var arms := g.nodes[n].arms;
      forall i | 0 <= i < |arms|
        ensures arms[i] in ids && RankOf(arms[i]) < RankOf(n)
      {
        LeadsDown(n, arms[i]);
      }
      var picked := Pick(code, at, Guards(arms, nullable, first));
      if |picked| == 1 {
        var index :| index in picked;
        OnlyOne(picked, index);
        ends := Run(code.arms[index], at, arms[index]);
      } else {
        ends := RunArms(code, picked, at, n);
      }
      assert ends == EndsOf(R(), arms, at, picked);
      ChoiceIsWhole(n, at, ends);
    }

    method RunArms(code: Code, picked: set<nat>, at: nat, ghost n: NodeId) returns (ends: set<nat>)
      requires Ready() && n in ids && at <= |features| && g.nodes[n].Alt? && OkAll(R(), g.nodes[n].arms, at)
      requires Compiles(g, ids, nullable, first, n, code)
      requires forall i :: i in picked ==> i < |g.nodes[n].arms| && RankOf(g.nodes[n].arms[i]) < RankOf(n)
      modifies this`memo, this`built, this`bodies
      ensures Ready() && ends == EndsOf(R(), g.nodes[n].arms, at, picked)
      decreases Left(at), RankOf(n), 1
    {
      ghost var arms := g.nodes[n].arms;
      var left := picked;
      ends := {};
      while left != {}
        invariant left <= picked && Ready()
        invariant ends == EndsOf(R(), arms, at, picked - left)
        decreases left
      {
        var index :| index in left;
        var found := Run(code.arms[index], at, arms[index]);
        EndsOfAdds(R(), arms, at, picked - left, index);
        ends, left := ends + found, left - {index};
        assert picked - left == picked - (left + {index}) + {index};
      }
      assert picked - left == picked;
    }

    method RunChain(code: Code, at: nat, ghost n: NodeId) returns (ends: set<nat>)
      requires Ready() && n in ids && at <= |features| && g.nodes[n].Seq? && code.Chain?
      requires OkAll(R(), g.nodes[n].items, at) && Compiles(g, ids, nullable, first, n, code)
      requires |g.nodes[n].items| != 1
      modifies this`memo, this`built, this`bodies
      ensures Ready() && ends == EndsItems(R(), g.nodes[n].items, at)
      decreases Left(at), RankOf(n), 2
    {
      ghost var items := g.nodes[n].items;
      EndsNoItems(R(), at);
      assert items[..0] == [];
      var reached := {at};
      for i := 0 to |code.calls|
        invariant Ready() && reached == EndsItems(R(), items[..i], at)
      {
        EndsItemsSnoc(R(), items, i, at);
        ItemLeads(n, i, at);
        var following := RunFrom(code.calls[i], code.begins[i], reached, at, n, items[i]);
        if following == {} {
          EndsItemsStop(R(), items, i + 1, at);
          return {};
        }
        reached := following;
      }
      assert items[..|items|] == items;
      return reached;
    }

    /** Call `code` at every position of `from` that its guard admits. */
    method RunFrom(code: Code, guard: Guard, from: set<nat>, at: nat, ghost n: NodeId, ghost child: NodeId)
      returns (following: set<nat>)
      requires Ready() && n in ids && child in ids && Compiles(g, ids, nullable, first, child, code)
      requires guard == GuardOf(child, nullable, first)
      requires at <= |features| && forall q :: q in from ==> at <= q <= |features|
      requires at in from ==> RankOf(child) < RankOf(n)
      modifies this`memo, this`built, this`bodies
      ensures Ready() && following == Step(R(), child, from)
      decreases Left(at), RankOf(n), 1
    {
      var left := from;
      following := {};
      while left != {}
        invariant left <= from && Ready()
        invariant following == Step(R(), child, from - left)
        decreases left
      {
        var position :| position in left;
        StepAdds(R(), child, from - left, position);
        if Admits(guard, features, position) {
          var ends := Run(code, position, child);
          following := following + ends;
        } else {
          Skips(child, position);
        }
        left := left - {position};
        assert from - left == from - (left + {position}) + {position};
      }
      assert from - left == from;
    }

    method RunLoop(code: Code, at: nat, ghost n: NodeId, ghost body: NodeId) returns (reached: set<nat>)
      requires Ready() && n in ids && at <= |features| && code.Loop? && body in ids && RankOf(body) < RankOf(n)
      requires Compiles(g, ids, nullable, first, body, code.call) && code.guard == GuardOf(body, nullable, first)
      modifies this`memo, this`built, this`bodies
      ensures Ready() && reached == EndsMany(R(), body, at) - (if code.atLeastOne then {at} else {})
      decreases Left(at), RankOf(n), 2
    {
      reached := if code.atLeastOne then {} else {at};
      var frontier := {at};
      ManyNone(R(), body, at);
      while frontier != {}
        invariant Ready() && Iterating(R(), body, at, reached, frontier, code.atLeastOne)
        decreases UpTo(|features| + 1) - reached, frontier
      {
        var following := RunFresh(code.call, code.guard, frontier, reached, at, n, body);
        IterationStep(R(), body, at, reached, frontier, following, code.atLeastOne);
        reached, frontier := reached + following, following;
      }
      IterationEnds(R(), body, at, reached, code.atLeastOne);
    }

    method RunFresh(code: Code, guard: Guard, frontier: set<nat>, reached: set<nat>, at: nat, ghost n: NodeId,
                    ghost body: NodeId)
      returns (following: set<nat>)
      requires Ready() && n in ids && body in ids && Compiles(g, ids, nullable, first, body, code)
      requires guard == GuardOf(body, nullable, first)
      requires at <= |features| && forall q :: q in frontier ==> at <= q <= |features|
      requires RankOf(body) < RankOf(n)
      modifies this`memo, this`built, this`bodies
      ensures Ready() && following == Consuming(R(), body, frontier) - reached
      decreases Left(at), RankOf(n), 1
    {
      var left := frontier;
      following := {};
      while left != {}
        invariant left <= frontier && Ready()
        invariant following == Consuming(R(), body, frontier - left) - reached
        decreases left
      {
        var position :| position in left;
        ConsumingAdds(R(), body, frontier - left, position);
        if Admits(guard, features, position) {
          var ends := Run(code, position, body);
          following := following + (set end | end in ends && end !in reached && end != position);
        } else {
          Skips(body, position);
        }
        left := left - {position};
        assert frontier - left == frontier - (left + {position}) + {position};
      }
      assert frontier - left == frontier;
    }

    /** Forget the last source and read this one. */
    method Load(tokens: seq<Token>, reserved: set<string>)
      requires Analysed() && BuiltRight()
      modifies this`input, this`features, this`memo
      ensures Ready() && input == Tokens(tokens, reserved)
    {
      assert Unseal(0);
      input := Tokens(tokens, reserved);
      features := TokenFeatures(tokens, reserved);
      memo := map[];
    }

    lemma RootsInside(name: string)
      requires Analysed() && name in g.trees
      ensures g.trees[name] in ids
    {
      assert Unseal(0);
    }

    /** The whole recogniser: can the start rule derive exactly these tokens? */
    method Derive(tokens: seq<Token>, reserved: set<string>, start: string) returns (yes: bool)
      requires Analysed() && BuiltRight() && start in g.trees
      modifies this
      ensures Analysed() && BuiltRight()
      ensures yes <==> Derives(Reading(g, Tokens(tokens, reserved)), g.trees[start], 0, |tokens|)
    {
      RootsInside(start);
      var top := Build(g.trees[start]);
      Load(tokens, reserved);
      var ends := Run(top, 0, g.trees[start]);
      EndsAreDerivations(R(), g.trees[start], 0, |tokens|);
      yes := |tokens| in ends;
      Unload();
    }

    method Unload()
      requires Analysed() && BuiltRight()
      modifies this`features, this`memo
      ensures BuiltRight()
    {
      assert Unseal(0);
      features, memo := [], map[];
    }
  }

  /** Everywhere one of the chosen arms can end. */
  ghost function EndsOf(r: Reading, arms: seq<NodeId>, at: nat, chosen: set<nat>): set<nat>
    requires OkAll(r, arms, at) && forall i :: i in chosen ==> i < |arms|
  {
    set i, e | i in chosen && e in Ends(r, arms[i], at) :: e
  }

  lemma EndsOfAdds(r: Reading, arms: seq<NodeId>, at: nat, chosen: set<nat>, i: nat)
    requires OkAll(r, arms, at) && i < |arms| && forall k :: k in chosen ==> k < |arms|
    ensures EndsOf(r, arms, at, chosen + {i}) == EndsOf(r, arms, at, chosen) + Ends(r, arms[i], at)
  {
  }

  lemma OnlyOne(s: set<nat>, x: nat)
    requires |s| == 1 && x in s
    ensures s == {x}
  {
    assert |s - {x}| == 0;
  }

  method Lookup(table: ArmTable, features: set<Feature>) returns (found: set<nat>)
    ensures found == Looked(table, features)
  {
    found := {};
    var left := features;
    while left != {}
      invariant left <= features && found == Looked(table, features - left)
      decreases left
    {
      var feature :| feature in left;
      found := found + (set i | i in Entries(table, feature));
      left := left - {feature};
      assert features - left == features - (left + {feature}) + {feature};
    }
    assert features - left == features;
  }
}
