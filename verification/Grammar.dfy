/** The grammar as the checker holds it, and what it means for a production
    to derive a stretch of input.

    A parsed right-hand side is a graph of nodes.  The checker keys its tables
    by node identity, so a node is an index into `nodes` here, and a node's
    children have smaller indices because a tree is built bottom up.

    Derivation is stated by proof trees and knows nothing of recognisers,
    memo tables or FIRST sets. */
module Grammars {

  import opened Options

  type NodeId = nat

  /** Some invariants are long, and most proofs need one line of them.  Such an
      invariant is stated under a quantifier that is instantiated only by
      mentioning `Unseal`, so a proof that does not ask for it does not carry it. */
  predicate Unseal(k: int) {
    true
  }

  datatype Node =
    | Lit(text: string)
    | Range(low: string, high: string)
    | Byte
    | TextByte
    | UnicodeScalar
    | Rule(name: string)
    | Alt(arms: seq<NodeId>)
    | Seq(items: seq<NodeId>)
    | Opt(body: NodeId)
    | Star(body: NodeId)
    | Plus(body: NodeId)

  /** The nodes a node is written with; a rule's production is not among them. */
  function Children(node: Node): seq<NodeId> {
    match node
    case Alt(arms) => arms
    case Seq(items) => items
    case Opt(body) => [body]
    case Star(body) => [body]
    case Plus(body) => [body]
    case _ => []
  }

  /** Every child of `node` was built before index `n`. */
  predicate Above(node: Node, n: NodeId) {
    forall c :: c in Children(node) ==> c < n
  }

  lemma ChildrenBelow(g: Grammar, n: NodeId)
    requires g.Valid() && n < |g.nodes|
    ensures g.nodes[n].Alt? ==> forall i :: 0 <= i < |g.nodes[n].arms| ==> g.nodes[n].arms[i] < n
    ensures g.nodes[n].Seq? ==> forall i :: 0 <= i < |g.nodes[n].items| ==> g.nodes[n].items[i] < n
    ensures g.nodes[n].Opt? || g.nodes[n].Star? || g.nodes[n].Plus? ==> g.nodes[n].body < n
  {
    assert Above(g.nodes[n], n);
    match g.nodes[n]
    case Alt(arms) => assert forall i :: 0 <= i < |arms| ==> arms[i] in Children(g.nodes[n]);
    case Seq(items) => assert forall i :: 0 <= i < |items| ==> items[i] in Children(g.nodes[n]);
    case Opt(body) => assert body in Children(g.nodes[n]);
    case Star(body) => assert body in Children(g.nodes[n]);
    case Plus(body) => assert body in Children(g.nodes[n]);
    case _ =>
  }

  datatype Grammar = Grammar(nodes: seq<Node>, trees: map<string, NodeId>) {
    predicate Valid() {
      && (forall n :: 0 <= n < |nodes| ==> Above(nodes[n], n))
      && (forall name :: name in trees ==> trees[name] < |nodes|)
    }
  }

  // ------------------------------------------------------------------
  // Input: a token list, or the text of one token

  datatype TokenKind = WordToken | SignToken | IntegerToken | FloatToken | CharacterToken | TextToken | RawToken

  datatype Token = Token(kind: TokenKind, text: string)

  /** What a rule the tokeniser owns asks of a token. */
  datatype Kind = Name | Integer | Float | Character | Text | Raw | Literal

  const TOKEN_KIND_RULES: map<string, Kind> :=
    map["identifier" := Name, "integer" := Integer, "float" := Float, "character" := Character,
        "text" := Text, "raw" := Raw, "literal" := Literal]

  const LEXICAL_RULES: set<string> :=
    {"space", "line_end", "comment", "line_comment", "doc_comment", "block_comment", "block_item",
     "identifier", "keyword", "literal", "character", "character_escape", "unicode_scalar", "text",
     "text_byte", "text_escape", "raw", "quote_run", "raw_content", "integer", "float",
     "decimal_fraction", "decimal_exponent", "hex_fraction", "binary_exponent", "decimal_digits",
     "hex_digits", "decimal", "hex", "octal", "binary", "lower", "digit", "hex_digit",
     "octal_digit", "binary_digit"}

  const SPELLED_LITERALS: set<string> := {"true", "false", "zeroed", "uninit"}

  /** The unpruned recogniser's test of a token against a token-kind rule. */
  predicate KindMatches(wanted: Kind, token: Token, reserved: set<string>) {
    match wanted
    case Name => token.kind.WordToken? && token.text !in reserved
    case Integer => token.kind.IntegerToken?
    case Float => token.kind.FloatToken?
    case Character => token.kind.CharacterToken?
    case Text => token.kind.TextToken?
    case Raw => token.kind.RawToken?
    case Literal =>
      || token.kind.IntegerToken? || token.kind.FloatToken? || token.kind.CharacterToken?
      || token.kind.TextToken? || token.kind.RawToken? || token.text in SPELLED_LITERALS
  }

  /** The token layer reads tokens and leaves the lexical rules to the scanner;
      the text layer reads the characters of one token and expands every rule. */
  datatype Layer = TokenLayer | TextLayer

  datatype Input = Tokens(tokens: seq<Token>, reserved: set<string>) | Characters(text: string) {
    function Length(): nat {
      match this case Tokens(tokens, _) => |tokens| case Characters(text) => |text|
    }

    function Layer(): Layer {
      if Tokens? then TokenLayer else TextLayer
    }
  }

  /** The production a rule node expands, if the layer expands it. */
  function Expansion(g: Grammar, layer: Layer, name: string): Option<NodeId> {
    if layer.TokenLayer? && (name in TOKEN_KIND_RULES || name in LEXICAL_RULES) then None
    else if name in g.trees then Some(g.trees[name])
    else None
  }

  /** Python's `<=` on strings. */
  predicate AtMost(a: string, b: string) {
    if a == [] then true
    else if b == [] then false
    else a[0] < b[0] || (a[0] == b[0] && AtMost(a[1..], b[1..]))
  }

  function OneIf(test: bool, at: nat): set<nat> {
    if test then {at + 1} else {}
  }

  /** Where a node the layer does not expand can end, started at `at`. */
  function Terminal(input: Input, node: Node, at: nat): set<nat>
    requires at <= input.Length()
  {
    match input
    case Tokens(tokens, reserved) => (
      match node
      case Lit(text) => OneIf(at < |tokens| && tokens[at].text == text, at)
      case Byte => OneIf(at < |tokens|, at)
      case TextByte => OneIf(at < |tokens|, at)
      case Rule(name) =>
        if name in TOKEN_KIND_RULES then
          OneIf(at < |tokens| && KindMatches(TOKEN_KIND_RULES[name], tokens[at], reserved), at)
        else
          OneIf(at < |tokens| && name in LEXICAL_RULES, at)
      case _ => {})
    case Characters(text) => (
      match node
      case Lit(spelling) =>
        if at + |spelling| <= |text| && text[at..at + |spelling|] == spelling then {at + |spelling|} else {}
      case Range(low, high) => OneIf(at < |text| && AtMost(low, [text[at]]) && AtMost([text[at]], high), at)
      case Byte => OneIf(at < |text|, at)
      case TextByte => OneIf(at < |text| && text[at] !in "\"\\\r\n", at)
      case UnicodeScalar =>
        OneIf(at < |text| && !(0xD800 <= text[at] as int <= 0xDFFF) && text[at] !in "'\\\r\n", at)
      case _ => {})
  }

  lemma TerminalBounds(input: Input, node: Node, at: nat, e: nat)
    requires at <= input.Length() && e in Terminal(input, node, at)
    ensures at <= e <= input.Length()
    ensures input.Tokens? ==> e == at + 1
  {
  }

  // ------------------------------------------------------------------
  // Derivation

  datatype Reading = Reading(g: Grammar, input: Input)

  /** Evidence that a node derives a stretch of the input. */
  datatype Proof =
    | Leaf
    | Inner(body: Proof)
    | Arm(index: nat, body: Proof)
    | Done
    | Then(mid: nat, head: Proof, tail: Proof)

  ghost predicate Ok(r: Reading, n: NodeId, at: nat) {
    r.g.Valid() && n < |r.g.nodes| && at <= r.input.Length()
  }

  ghost predicate OkAll(r: Reading, items: seq<NodeId>, at: nat) {
    && r.g.Valid() && at <= r.input.Length()
    && (forall i :: 0 <= i < |items| ==> items[i] < |r.g.nodes|)
  }

  /** `p` shows that node `n` derives the input from `at` up to `e`. */
  ghost predicate Yields(r: Reading, p: Proof, n: NodeId, at: nat, e: nat)
    requires Ok(r, n, at)
    decreases p, 1
  {
    ChildrenBelow(r.g, n);
    match r.g.nodes[n]
    case Alt(arms) => p.Arm? && p.index < |arms| && Yields(r, p.body, arms[p.index], at, e)
    case Seq(items) => YieldsItems(r, p, items, at, e)
    case Opt(body) => (p.Done? && e == at) || (p.Inner? && Yields(r, p.body, body, at, e))
    case Star(body) => YieldsMany(r, p, body, at, e)
    case Plus(body) => p.Then? && YieldsMany(r, p, body, at, e)
    case Rule(name) =>
      var target := Expansion(r.g, r.input.Layer(), name);
      if target.Some? then p.Inner? && Yields(r, p.body, target.value, at, e)
      else p.Leaf? && e in Terminal(r.input, r.g.nodes[n], at)
    case _ => p.Leaf? && e in Terminal(r.input, r.g.nodes[n], at)
  }

  /** The items one after the other. */
  ghost predicate YieldsItems(r: Reading, p: Proof, items: seq<NodeId>, at: nat, e: nat)
    requires OkAll(r, items, at)
    decreases p, 0
  {
    if items == [] then p.Done? && e == at
    else
      && p.Then? && p.mid <= r.input.Length()
      && Yields(r, p.head, items[0], at, p.mid)
      && YieldsItems(r, p.tail, items[1..], p.mid, e)
  }

  /** Any number of iterations, each of which consumes something. */
  ghost predicate YieldsMany(r: Reading, p: Proof, body: NodeId, at: nat, e: nat)
    requires Ok(r, body, at)
    decreases p, 0
  {
    match p
    case Done => e == at
    case Then(mid, head, tail) =>
      && at < mid <= r.input.Length()
      && Yields(r, head, body, at, mid)
      && YieldsMany(r, tail, body, mid, e)
    case _ => false
  }

  ghost predicate Derives(r: Reading, n: NodeId, at: nat, e: nat)
    requires Ok(r, n, at)
  {
    exists p :: Yields(r, p, n, at, e)
  }

  ghost predicate DerivesItems(r: Reading, items: seq<NodeId>, at: nat, e: nat)
    requires OkAll(r, items, at)
  {
    exists p :: YieldsItems(r, p, items, at, e)
  }

  ghost predicate DerivesMany(r: Reading, body: NodeId, at: nat, e: nat)
    requires Ok(r, body, at)
  {
    exists p :: YieldsMany(r, p, body, at, e)
  }

  // ------------------------------------------------------------------
  // A derivation stays inside the input

  lemma {:induction false} YieldsBounds(r: Reading, p: Proof, n: NodeId, at: nat, e: nat)
    requires Ok(r, n, at) && Yields(r, p, n, at, e)
    ensures at <= e <= r.input.Length()
    decreases p, 1
  {
    ChildrenBelow(r.g, n);
    match r.g.nodes[n]
    case Alt(arms) => YieldsBounds(r, p.body, arms[p.index], at, e);
    case Seq(items) => YieldsItemsBounds(r, p, items, at, e);
    case Opt(body) => if p.Inner? { YieldsBounds(r, p.body, body, at, e); }
    case Star(body) => YieldsManyBounds(r, p, body, at, e);
    case Plus(body) => YieldsManyBounds(r, p, body, at, e);
    case Rule(name) =>
      var target := Expansion(r.g, r.input.Layer(), name);
      if target.Some? {
        YieldsBounds(r, p.body, target.value, at, e);
      } else {
        TerminalBounds(r.input, r.g.nodes[n], at, e);
      }
    case _ => TerminalBounds(r.input, r.g.nodes[n], at, e);
  }

  lemma {:induction false} YieldsItemsBounds(r: Reading, p: Proof, items: seq<NodeId>, at: nat, e: nat)
    requires OkAll(r, items, at) && YieldsItems(r, p, items, at, e)
    ensures at <= e <= r.input.Length()
    decreases p, 0
  {
    if items != [] {
      YieldsBounds(r, p.head, items[0], at, p.mid);
      YieldsItemsBounds(r, p.tail, items[1..], p.mid, e);
    }
  }

  lemma {:induction false} YieldsManyBounds(r: Reading, p: Proof, body: NodeId, at: nat, e: nat)
    requires Ok(r, body, at) && YieldsMany(r, p, body, at, e)
    ensures at <= e <= r.input.Length()
    ensures p.Then? <==> at < e
    decreases p, 0
  {
    if p.Then? {
      YieldsManyBounds(r, p.tail, body, p.mid, e);
    }
  }

  lemma DerivesBounds(r: Reading, n: NodeId, at: nat, e: nat)
    requires Ok(r, n, at) && Derives(r, n, at, e)
    ensures at <= e <= r.input.Length()
  {
    var p :| Yields(r, p, n, at, e);
    YieldsBounds(r, p, n, at, e);
  }

  // ------------------------------------------------------------------
  // The sets of ends a recogniser is to compute

  ghost function Ends(r: Reading, n: NodeId, at: nat): set<nat>
    requires Ok(r, n, at)
  {
    set e: nat | at <= e <= r.input.Length() && Derives(r, n, at, e)
  }

  ghost function EndsItems(r: Reading, items: seq<NodeId>, at: nat): set<nat>
    requires OkAll(r, items, at)
  {
    set e: nat | at <= e <= r.input.Length() && DerivesItems(r, items, at, e)
  }

  ghost function EndsMany(r: Reading, body: NodeId, at: nat): set<nat>
    requires Ok(r, body, at)
  {
    set e: nat | at <= e <= r.input.Length() && DerivesMany(r, body, at, e)
  }

  /** Ends loses nothing: it is derivation itself. */
  lemma EndsAreDerivations(r: Reading, n: NodeId, at: nat, e: nat)
    requires Ok(r, n, at)
    ensures e in Ends(r, n, at) <==> Derives(r, n, at, e)
  {
    if Derives(r, n, at, e) {
      DerivesBounds(r, n, at, e);
    }
  }

  // ------------------------------------------------------------------
  // One equation per kind of node

  predicate IsTerminal(g: Grammar, layer: Layer, node: Node) {
    match node
    case Alt(_) => false
    case Seq(_) => false
    case Opt(_) => false
    case Star(_) => false
    case Plus(_) => false
    case Rule(name) => Expansion(g, layer, name).None?
    case _ => true
  }

  lemma EndsTerminal(r: Reading, n: NodeId, at: nat)
    requires Ok(r, n, at)
    requires IsTerminal(r.g, r.input.Layer(), r.g.nodes[n])
    ensures Ends(r, n, at) == Terminal(r.input, r.g.nodes[n], at)
  {
    forall e: nat
      ensures e in Ends(r, n, at) <==> e in Terminal(r.input, r.g.nodes[n], at)
    {
      if e in Terminal(r.input, r.g.nodes[n], at) {
        TerminalBounds(r.input, r.g.nodes[n], at, e);
        assert Yields(r, Leaf, n, at, e);
      }
    }
  }

  lemma EndsRule(r: Reading, n: NodeId, at: nat, target: NodeId)
    requires Ok(r, n, at) && r.g.nodes[n].Rule?
    requires Expansion(r.g, r.input.Layer(), r.g.nodes[n].name) == Some(target)
    ensures Ends(r, n, at) == Ends(r, target, at)
  {
    forall e: nat
      ensures Derives(r, n, at, e) <==> Derives(r, target, at, e)
    {
      if Derives(r, n, at, e) {
        var p :| Yields(r, p, n, at, e);
        assert Yields(r, p.body, target, at, e);
      }
      if Derives(r, target, at, e) {
        var p :| Yields(r, p, target, at, e);
        assert Yields(r, Inner(p), n, at, e);
      }
    }
  }

  /** Everywhere any of the arms can end. */
  ghost function EndsAny(r: Reading, arms: seq<NodeId>, at: nat): set<nat>
    requires OkAll(r, arms, at)
  {
    set i, e | 0 <= i < |arms| && e in Ends(r, arms[i], at) :: e
  }

  lemma EndsAnySnoc(r: Reading, arms: seq<NodeId>, i: nat, at: nat)
    requires OkAll(r, arms, at) && i < |arms|
    ensures EndsAny(r, arms[..i + 1], at) == EndsAny(r, arms[..i], at) + Ends(r, arms[i], at)
  {
    var more, fewer := arms[..i + 1], arms[..i];
    assert forall k :: 0 <= k < i ==> more[k] == fewer[k];
    assert more[i] == arms[i];
    forall e
      ensures e in EndsAny(r, more, at) <==> e in EndsAny(r, fewer, at) + Ends(r, arms[i], at)
    {
      if e in EndsAny(r, fewer, at) {
        var k :| 0 <= k < i && e in Ends(r, fewer[k], at);
        assert e in Ends(r, more[k], at);
      }
    }
  }

  lemma EndsAlt(r: Reading, n: NodeId, at: nat)
    requires Ok(r, n, at) && r.g.nodes[n].Alt?
    ensures OkAll(r, r.g.nodes[n].arms, at)
    ensures Ends(r, n, at) == EndsAny(r, r.g.nodes[n].arms, at)
  {
    var arms := r.g.nodes[n].arms;
    ChildrenBelow(r.g, n);
    forall e: nat
      ensures e in Ends(r, n, at) <==> e in EndsAny(r, arms, at)
    {
      if e in Ends(r, n, at) {
        var p :| Yields(r, p, n, at, e);
        assert Yields(r, p.body, arms[p.index], at, e);
        assert e in Ends(r, arms[p.index], at);
      }
      if e in EndsAny(r, arms, at) {
        var i :| 0 <= i < |arms| && e in Ends(r, arms[i], at);
        var p :| Yields(r, p, arms[i], at, e);
        assert Yields(r, Arm(i, p), n, at, e);
      }
    }
  }

  lemma EndsSeq(r: Reading, n: NodeId, at: nat)
    requires Ok(r, n, at) && r.g.nodes[n].Seq?
    ensures OkAll(r, r.g.nodes[n].items, at)
    ensures Ends(r, n, at) == EndsItems(r, r.g.nodes[n].items, at)
  {
    var items := r.g.nodes[n].items;
    ChildrenBelow(r.g, n);
    assert forall p, e: nat :: Yields(r, p, n, at, e) <==> YieldsItems(r, p, items, at, e);
    assert forall e: nat :: Derives(r, n, at, e) <==> DerivesItems(r, items, at, e);
  }

  lemma EndsOpt(r: Reading, n: NodeId, at: nat)
    requires Ok(r, n, at) && r.g.nodes[n].Opt?
    ensures r.g.nodes[n].body < n
    ensures Ends(r, n, at) == {at} + Ends(r, r.g.nodes[n].body, at)
  {
    var body := r.g.nodes[n].body;
    ChildrenBelow(r.g, n);
    forall e: nat
      ensures Derives(r, n, at, e) <==> e == at || Derives(r, body, at, e)
    {
      if Derives(r, n, at, e) {
        var p :| Yields(r, p, n, at, e);
        assert p.Inner? ==> Yields(r, p.body, body, at, e);
      }
      if e == at {
        assert Yields(r, Done, n, at, e);
      }
      if Derives(r, body, at, e) {
        var p :| Yields(r, p, body, at, e);
        assert Yields(r, Inner(p), n, at, e);
      }
    }
  }

  lemma EndsStar(r: Reading, n: NodeId, at: nat)
    requires Ok(r, n, at) && r.g.nodes[n].Star?
    ensures r.g.nodes[n].body < n
    ensures Ends(r, n, at) == EndsMany(r, r.g.nodes[n].body, at)
  {
    var body := r.g.nodes[n].body;
    ChildrenBelow(r.g, n);
    assert forall p, e: nat :: Yields(r, p, n, at, e) <==> YieldsMany(r, p, body, at, e);
    assert forall e: nat :: Derives(r, n, at, e) <==> DerivesMany(r, body, at, e);
  }

  /** `+` never answers its own start: an iteration that consumes nothing is no
      iteration, even over a body that can derive nothing. */
  lemma EndsPlus(r: Reading, n: NodeId, at: nat)
    requires Ok(r, n, at) && r.g.nodes[n].Plus?
    ensures r.g.nodes[n].body < n
    ensures Ends(r, n, at) == EndsMany(r, r.g.nodes[n].body, at) - {at}
  {
    var body := r.g.nodes[n].body;
    ChildrenBelow(r.g, n);
    forall e: nat
      ensures Derives(r, n, at, e) <==> DerivesMany(r, body, at, e) && e != at
    {
      if Derives(r, n, at, e) {
        var p :| Yields(r, p, n, at, e);
        YieldsManyBounds(r, p, body, at, e);
      }
      if DerivesMany(r, body, at, e) && e != at {
        var p :| YieldsMany(r, p, body, at, e);
        YieldsManyBounds(r, p, body, at, e);
        assert Yields(r, p, n, at, e);
      }
    }
  }

  // ------------------------------------------------------------------
  // Sequences grow at the right, as the recognisers walk them

  lemma {:induction false} ItemsSnoc(r: Reading, items: seq<NodeId>, last: NodeId, at: nat, e: nat)
    requires OkAll(r, items + [last], at)
    ensures OkAll(r, items, at) && Ok(r, last, at)
    ensures DerivesItems(r, items + [last], at, e)
       <==> exists mid :: at <= mid <= r.input.Length() && DerivesItems(r, items, at, mid) && Derives(r, last, mid, e)
  {
    var all := items + [last];
    assert all[|items|] == last;
    assert forall i :: 0 <= i < |items| ==> all[i] == items[i];
    if DerivesItems(r, all, at, e) {
      var p :| YieldsItems(r, p, all, at, e);
      var mid := SplitItems(r, p, items, last, at, e);
    }
    if mid :| at <= mid <= r.input.Length() && DerivesItems(r, items, at, mid) && Derives(r, last, mid, e) {
      var p :| YieldsItems(r, p, items, at, mid);
      var q :| Yields(r, q, last, mid, e);
      var joined := JoinItems(r, p, items, at, mid, q, last, e);
    }
  }

  lemma {:induction false} SplitItems(r: Reading, p: Proof, items: seq<NodeId>, last: NodeId, at: nat, e: nat)
    returns (mid: nat)
    requires OkAll(r, items + [last], at) && OkAll(r, items, at) && Ok(r, last, at)
    requires YieldsItems(r, p, items + [last], at, e)
    ensures at <= mid <= r.input.Length() && DerivesItems(r, items, at, mid) && Derives(r, last, mid, e)
    decreases p
  {
    YieldsItemsBounds(r, p, items + [last], at, e);
    if items == [] {
      assert items + [last] == [last] && [last][1..] == [];
      assert YieldsItems(r, p.tail, [], p.mid, e);
      assert YieldsItems(r, Done, items, at, at);
      assert Yields(r, p.head, last, at, e);
      mid := at;
    } else {
      assert (items + [last])[0] == items[0];
      assert (items + [last])[1..] == items[1..] + [last];
      YieldsBounds(r, p.head, items[0], at, p.mid);
      mid := SplitItems(r, p.tail, items[1..], last, p.mid, e);
      var q :| YieldsItems(r, q, items[1..], p.mid, mid);
      assert YieldsItems(r, Then(p.mid, p.head, q), items, at, mid);
    }
  }

  lemma {:induction false} JoinItems(r: Reading, p: Proof, items: seq<NodeId>, at: nat, mid: nat, q: Proof,
                                     last: NodeId, e: nat)
    returns (joined: Proof)
    requires OkAll(r, items + [last], at) && OkAll(r, items, at) && Ok(r, last, mid)
    requires YieldsItems(r, p, items, at, mid) && Yields(r, q, last, mid, e)
    ensures YieldsItems(r, joined, items + [last], at, e)
    decreases p
  {
    if items == [] {
      assert items + [last] == [last] && [last][1..] == [];
      joined := Then(e, q, Done);
      YieldsBounds(r, q, last, mid, e);
      assert YieldsItems(r, Done, [last][1..], e, e);
    } else {
      assert (items + [last])[0] == items[0];
      assert (items + [last])[1..] == items[1..] + [last];
      var rest := JoinItems(r, p.tail, items[1..], p.mid, mid, q, last, e);
      joined := Then(p.mid, p.head, rest);
    }
  }

  /** Everywhere node `n` can end, started anywhere in `from`. */
  ghost function Step(r: Reading, n: NodeId, from: set<nat>): set<nat>
    requires forall m :: m in from ==> Ok(r, n, m)
  {
    set m, e | m in from && e in Ends(r, n, m) :: e
  }

  /** What one more item adds to the ends reached so far. */
  lemma EndsItemsSnoc(r: Reading, items: seq<NodeId>, k: nat, at: nat)
    requires OkAll(r, items, at) && k < |items|
    ensures forall mid :: mid in EndsItems(r, items[..k], at) ==> Ok(r, items[k], mid)
    ensures EndsItems(r, items[..k + 1], at) == Step(r, items[k], EndsItems(r, items[..k], at))
  {
    assert items[..k + 1] == items[..k] + [items[k]];
    var before, after := EndsItems(r, items[..k], at), EndsItems(r, items[..k + 1], at);
    forall e: nat
      ensures e in after <==> e in Step(r, items[k], before)
    {
      ItemsSnoc(r, items[..k], items[k], at, e);
      if e in after {
        var mid :| at <= mid <= r.input.Length() && DerivesItems(r, items[..k], at, mid)
                   && Derives(r, items[k], mid, e);
        DerivesBounds(r, items[k], mid, e);
        assert mid in before && e in Ends(r, items[k], mid);
      }
    }
  }

  lemma EndsNoItems(r: Reading, at: nat)
    requires r.g.Valid() && at <= r.input.Length()
    ensures EndsItems(r, [], at) == {at}
  {
    assert YieldsItems(r, Done, [], at, at);
  }

  /** A sequence of one item derives what the item derives. */
  lemma EndsSingle(r: Reading, n: NodeId, at: nat)
    requires Ok(r, n, at) && r.g.nodes[n].Seq? && |r.g.nodes[n].items| == 1
    ensures r.g.nodes[n].items[0] < n
    ensures Ends(r, n, at) == Ends(r, r.g.nodes[n].items[0], at)
  {
    var items := r.g.nodes[n].items;
    ChildrenBelow(r.g, n);
    EndsSeq(r, n, at);
    EndsNoItems(r, at);
    EndsItemsSnoc(r, items, 0, at);
    assert items[..0] == [] && items[..1] == items;
  }

  /** Nothing reached by a prefix, nothing reached by the whole. */
  lemma {:induction false} EndsItemsStop(r: Reading, items: seq<NodeId>, k: nat, at: nat)
    requires OkAll(r, items, at) && k <= |items| && EndsItems(r, items[..k], at) == {}
    ensures EndsItems(r, items, at) == {}
    decreases |items| - k
  {
    if k == |items| {
      assert items[..k] == items;
    } else {
      EndsItemsSnoc(r, items, k, at);
      EndsItemsStop(r, items, k + 1, at);
    }
  }

  // ------------------------------------------------------------------
  // Iterations

  lemma ManyNone(r: Reading, body: NodeId, at: nat)
    requires Ok(r, body, at)
    ensures at in EndsMany(r, body, at)
  {
    assert YieldsMany(r, Done, body, at, at);
  }

  /** One more iteration at the right. */
  lemma {:induction false} ManySnoc(r: Reading, body: NodeId, at: nat, mid: nat, e: nat)
    requires Ok(r, body, at) && mid in EndsMany(r, body, at)
    requires Ok(r, body, mid) && e in Ends(r, body, mid) && e != mid
    ensures e in EndsMany(r, body, at)
  {
    var p :| YieldsMany(r, p, body, at, mid);
    var q :| Yields(r, q, body, mid, e);
    YieldsBounds(r, q, body, mid, e);
    var joined := JoinMany(r, p, body, at, mid, q, e);
    YieldsManyBounds(r, joined, body, at, e);
  }

  lemma {:induction false} JoinMany(r: Reading, p: Proof, body: NodeId, at: nat, mid: nat, q: Proof, e: nat)
    returns (joined: Proof)
    requires Ok(r, body, at) && Ok(r, body, mid) && mid < e <= r.input.Length()
    requires YieldsMany(r, p, body, at, mid) && Yields(r, q, body, mid, e)
    ensures YieldsMany(r, joined, body, at, e)
    decreases p
  {
    if p.Done? {
      assert YieldsMany(r, Done, body, e, e);
      joined := Then(e, q, Done);
    } else {
      var rest := JoinMany(r, p.tail, body, p.mid, mid, q, e);
      joined := Then(p.mid, p.head, rest);
    }
  }

  /** A set that holds the start and every consuming step from its members
      holds everything iteration can reach. */
  lemma {:induction false} ManyClosed(r: Reading, body: NodeId, at: nat, closed: set<nat>)
    requires Ok(r, body, at) && at in closed
    requires forall m :: m in closed ==> Ok(r, body, m)
    requires forall m, e :: m in closed && e in Ends(r, body, m) && e != m ==> e in closed
    ensures EndsMany(r, body, at) <= closed
  {
    forall e | e in EndsMany(r, body, at)
      ensures e in closed
    {
      var p :| YieldsMany(r, p, body, at, e);
      WalkMany(r, p, body, at, e, closed);
    }
  }

  lemma {:induction false} WalkMany(r: Reading, p: Proof, body: NodeId, at: nat, e: nat, closed: set<nat>)
    requires Ok(r, body, at) && at in closed && YieldsMany(r, p, body, at, e)
    requires forall m :: m in closed ==> Ok(r, body, m)
    requires forall m, e :: m in closed && e in Ends(r, body, m) && e != m ==> e in closed
    ensures e in closed
    decreases p
  {
    if p.Then? {
      assert p.mid in Ends(r, body, at) by {
        assert Yields(r, p.head, body, at, p.mid);
      }
      WalkMany(r, p.tail, body, p.mid, e, closed);
    }
  }
}
