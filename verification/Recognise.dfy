/** The whole question: does the grammar derive exactly this token list?  A
    grammar none of whose productions leads to itself is answered by the pruned
    recogniser, any other by the unpruned one, which may refuse. */
module Recognition {
  import opened Grammars
  import opened Analyses
  import opened Searches
  import opened Unpruned
  import opened Compiled

  /** What the analysis knows of a grammar: its nodes and the nullable ones. */
  ghost predicate Knows(g: Grammar, ids: set<NodeId>, nullable: set<NodeId>) {
    && g.Valid() && Holds(g, ids) && (forall other :: Holds(g, other) ==> ids <= other)
    && Region(g, TokenLayer, ids)
    && nullable <= ids && NullableClosed(g, TokenLayer, ids, nullable) && NullableLeast(g, ids, nullable)
  }

  /** A production can reach itself having consumed nothing. */
  ghost predicate LeftRecursiveGrammar(g: Grammar) {
    exists ids, nullable :: Knows(g, ids, nullable) && LeadingCalls(g, TokenLayer, ids, nullable).Cyclic()
  }

  /** There is one thing to know. */
  lemma KnowsOne(g: Grammar, ids: set<NodeId>, nullable: set<NodeId>, ids': set<NodeId>, nullable': set<NodeId>)
    requires Knows(g, ids, nullable) && Knows(g, ids', nullable')
    ensures ids == ids' && nullable == nullable'
  {
  }

  datatype Analysis = Analysis(order: seq<NodeId>, nullable: set<NodeId>, first: FirstSets, cyclic: bool) {
    ghost predicate Of(g: Grammar, rank: map<NodeId, nat>) {
      var ids := Elements(order);
      && Knows(g, ids, nullable) && HoldsRoots(g, ids)
      && Covers(g, ids, first) && FirstClosed(g, ids, nullable, first) && FirstLeast(g, ids, nullable, first)
      && (cyclic <==> LeadingCalls(g, TokenLayer, ids, nullable).Cyclic())
      && (!cyclic ==> LeadingCalls(g, TokenLayer, ids, nullable).Ranked(rank))
    }
  }

  method Analyse(g: Grammar, roots: seq<NodeId>) returns (known: Analysis, ghost rank: map<NodeId, nat>)
    requires g.Valid() && Elements(roots) == g.trees.Values
    ensures known.Of(g, rank)
    ensures known.cyclic <==> LeftRecursiveGrammar(g)
  {
    var order := Collect(g, roots);
    CollectedIsRegion(g, Elements(order));
    assert Holds(g, Elements(order));
    var nullable := NullableNodes(g, order);
    var first := FirstNodes(g, order, nullable);
    var calls := LeadingCalls(g, TokenLayer, Elements(order), nullable);
    LeadingCallsValid(g, TokenLayer, Elements(order), nullable);
    var cyclic;
    cyclic, rank := LeftRecursive(calls, order);
    known := Analysis(order, nullable, first, cyclic);
    assert Knows(g, Elements(order), nullable);
    if LeftRecursiveGrammar(g) {
      var ids', nullable' :| Knows(g, ids', nullable') && LeadingCalls(g, TokenLayer, ids', nullable').Cyclic();
      KnowsOne(g, Elements(order), nullable, ids', nullable');
    }
  }

  /** The pruned recogniser's verdict, which is derivation. */
  method PrunedVerdict(g: Grammar, known: Analysis, ghost rank: map<NodeId, nat>, tokens: seq<Token>,
                       reserved: set<string>, start: string)
    returns (yes: bool)
    requires known.Of(g, rank) && !known.cyclic && start in g.trees
    ensures g.Valid()
    ensures yes <==> Derives(Reading(g, Tokens(tokens, reserved)), g.trees[start], 0, |tokens|)
  {
    var pruned := new Pruned(g, known.nullable, known.first, Elements(known.order), rank);
    yes := pruned.Derive(tokens, reserved, start);
  }

  /** The unpruned recogniser's verdict, for every grammar and every token list:
      a refusal exactly when answering the start rule comes to ask for something
      that is still being answered, and derivation otherwise. */
  method UnprunedVerdict(g: Grammar, tokens: seq<Token>, reserved: set<string>, start: string)
    returns (answer: Result<bool>)
    requires g.Valid() && start in g.trees
    ensures answer.LeftRecursion? <==> Circular(Reading(g, Tokens(tokens, reserved)), (g.trees[start], 0))
    ensures answer.Success? ==>
              (answer.value <==> Derives(Reading(g, Tokens(tokens, reserved)), g.trees[start], 0, |tokens|))
  {
    var r := Reading(g, Tokens(tokens, reserved));
    var recogniser := new Recogniser(r);
    var ends :- recogniser.Item(g.trees[start], 0, []);
    recogniser.NotCircular((g.trees[start], 0));
    EndsAreDerivations(r, g.trees[start], 0, |tokens|);
    return Success(|tokens| in ends);
  }

  /** Without left recursion nothing is circular, so nothing is refused. */
  lemma AcyclicIsNeverCircular(g: Grammar, known: Analysis, rank: map<NodeId, nat>, input: Input, start: string)
    requires known.Of(g, rank) && !known.cyclic && input.Tokens? && start in g.trees
    ensures !Circular(Reading(g, input), (g.trees[start], 0))
  {
    if Circular(Reading(g, input), (g.trees[start], 0)) {
      CircularIsCyclic(Reading(g, input), Elements(known.order), known.nullable, (g.trees[start], 0));
    }
  }

  /** `grammar_recognises`: derivation, or a refusal exactly when the derivation is
      circular.  Which of the two recognisers ran cannot be told from the answer. */
  method Recognises(g: Grammar, roots: seq<NodeId>, tokens: seq<Token>, reserved: set<string>, start: string)
    returns (answer: Result<bool>)
    requires g.Valid() && Elements(roots) == g.trees.Values && start in g.trees
    ensures answer.LeftRecursion? <==> Circular(Reading(g, Tokens(tokens, reserved)), (g.trees[start], 0))
    ensures answer.Success? ==>
              (answer.value <==> Derives(Reading(g, Tokens(tokens, reserved)), g.trees[start], 0, |tokens|))
    ensures answer.LeftRecursion? ==> LeftRecursiveGrammar(g)
  {
    var known, rank := Analyse(g, roots);
    if !known.cyclic {
      AcyclicIsNeverCircular(g, known, rank, Tokens(tokens, reserved), start);
      var yes := PrunedVerdict(g, known, rank, tokens, reserved, start);
      return Success(yes);
    }
    answer := UnprunedVerdict(g, tokens, reserved, start);
  }

  /** Pruning changes no verdict: on every grammar without left recursion the two
      recognisers give the same answer to every token list, and neither refuses. */
  method BothVerdicts(g: Grammar, roots: seq<NodeId>, tokens: seq<Token>, reserved: set<string>, start: string)
    returns (pruned: bool, unpruned: Result<bool>)
    requires g.Valid() && Elements(roots) == g.trees.Values && start in g.trees && !LeftRecursiveGrammar(g)
    ensures unpruned == Success(pruned)
  {
    var known, rank := Analyse(g, roots);
    AcyclicIsNeverCircular(g, known, rank, Tokens(tokens, reserved), start);
    pruned := PrunedVerdict(g, known, rank, tokens, reserved, start);
    unpruned := UnprunedVerdict(g, tokens, reserved, start);
  }
}
