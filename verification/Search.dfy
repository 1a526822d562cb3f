/** The search for a production that can reach itself having consumed nothing:
    a depth-first walk of the leading calls with an explicit stack.  It answers
    exactly whether there is such a cycle, and when there is none it leaves a
    rank that every leading call decreases. */
module Searches {
  import opened Options
  import opened Grammars

  /** Who calls whom.  The recognisers' instance is the leading calls of a
      grammar's nodes. */
  datatype Calls = Calls(ids: set<NodeId>, from: NodeId -> seq<NodeId>) {
    ghost predicate Valid() {
      forall a, b :: Edge(a, b) ==> b in ids
    }

    ghost predicate Edge(a: NodeId, b: NodeId) {
      a in ids && b in from(a)
    }

    ghost predicate Walk(path: seq<NodeId>) {
      forall i, j :: 0 <= i && j == i + 1 < |path| ==> Edge(path[i], path[j])
    }

    /** A node that leads back to itself. */
    ghost predicate Cycle(path: seq<NodeId>) {
      |path| >= 2 && path[0] == path[|path| - 1] && Walk(path)
    }

    ghost predicate Cyclic() {
      exists path :: Cycle(path)
    }

    /** Every leading call goes down in rank. */
    ghost predicate Ranked(rank: map<NodeId, nat>) {
      rank.Keys == ids && forall a, b :: Edge(a, b) ==> b in rank && rank[b] < rank[a]
    }
  }

  lemma {:induction false} WalkDescends(calls: Calls, rank: map<NodeId, nat>, path: seq<NodeId>, k: nat)
    requires calls.Valid() && calls.Ranked(rank) && calls.Walk(path) && 1 <= k < |path|
    ensures path[0] in rank && path[k] in rank && rank[path[k]] < rank[path[0]]
    decreases k
  {
    assert calls.Edge(path[k - 1], path[k]);
    if k > 1 {
      WalkDescends(calls, rank, path, k - 1);
    }
  }

  /** A rank and a cycle exclude each other. */
  lemma RankedIsAcyclic(calls: Calls, rank: map<NodeId, nat>)
    requires calls.Valid() && calls.Ranked(rank)
    ensures !calls.Cyclic()
  {
    if path :| calls.Cycle(path) {
      WalkDescends(calls, rank, path, |path| - 1);
    }
  }

  // ------------------------------------------------------------------
  // The walk

  datatype Mark = Open | Closed

  datatype Frame = Frame(node: NodeId, rest: seq<NodeId>)

  ghost function Work(stack: seq<Frame>): nat {
    if stack == [] then 0 else 1 + |stack[|stack| - 1].rest| + Work(stack[..|stack| - 1])
  }

  lemma WorkOfTop(stack: seq<Frame>, top: Frame)
    ensures Work(stack + [top]) == 1 + |top.rest| + Work(stack)
  {
    assert (stack + [top])[..|stack|] == stack;
  }

  /** The open nodes are those on the stack, each once. */
  ghost predicate MarksAgree(calls: Calls, state: map<NodeId, Mark>, stack: seq<Frame>) {
    && state.Keys <= calls.ids
    && (forall i, j :: 0 <= i < j < |stack| ==> stack[i].node != stack[j].node)
    && (forall i :: 0 <= i < |stack| ==> stack[i].node in state && state[stack[i].node].Open?)
    && (forall n :: n in state && state[n].Open? ==> exists i :: 0 <= i < |stack| && stack[i].node == n)
  }

  /** A closed node leads only to nodes closed before it. */
  ghost predicate ClosedRanked(calls: Calls, state: map<NodeId, Mark>, rank: map<NodeId, nat>, clock: nat) {
    && (forall n :: n in rank <==> n in state && state[n].Closed?)
    && (forall n :: n in rank ==> rank[n] < clock)
    && (forall a, b :: a in rank && calls.Edge(a, b) ==> b in rank && rank[b] < rank[a])
  }

  /** What is left of a frame's calls, and where the others went. */
  ghost predicate Accounts(calls: Calls, rank: map<NodeId, nat>, frame: Frame, next: Option<NodeId>) {
    && frame.node in calls.ids
    && (forall b :: b in frame.rest ==> calls.Edge(frame.node, b))
    && (forall b :: calls.Edge(frame.node, b) ==> b in frame.rest || b in rank || next == Some(b))
    && (next.Some? ==> calls.Edge(frame.node, next.value))
  }

  ghost predicate StackAccounts(calls: Calls, rank: map<NodeId, nat>, stack: seq<Frame>) {
    && (forall i, j :: 0 <= i && j == i + 1 < |stack| ==> Accounts(calls, rank, stack[i], Some(stack[j].node)))
    && (stack != [] ==> Accounts(calls, rank, stack[|stack| - 1], None))
  }

  ghost predicate Walking(calls: Calls, state: map<NodeId, Mark>, stack: seq<Frame>, rank: map<NodeId, nat>,
                          clock: nat) {
    && calls.Valid()
    && MarksAgree(calls, state, stack)
    && ClosedRanked(calls, state, rank, clock)
    && StackAccounts(calls, rank, stack)
  }

  lemma AccountsGrow(calls: Calls, rank: map<NodeId, nat>, more: map<NodeId, nat>, frame: Frame, next: Option<NodeId>)
    requires Accounts(calls, rank, frame, next) && rank.Keys <= more.Keys
    ensures Accounts(calls, more, frame, next)
  {
  }

  /** The top frame has no call left: it closes. */
  lemma Close(calls: Calls, state: map<NodeId, Mark>, below: seq<Frame>, top: Frame, rank: map<NodeId, nat>, clock: nat)
    requires Walking(calls, state, below + [top], rank, clock) && top.rest == []
    ensures Walking(calls, state[top.node := Closed], below, rank[top.node := clock], clock + 1)
  {
    var stack := below + [top];
    var ranks := rank[top.node := clock];
    assert stack[|below|] == top;
    CloseMarks(calls, state, below, top);
    assert Accounts(calls, rank, top, None);
    assert ClosedRanked(calls, state[top.node := Closed], ranks, clock + 1);
    CloseAccounts(calls, rank, ranks, below, top);
  }

  lemma CloseMarks(calls: Calls, state: map<NodeId, Mark>, below: seq<Frame>, top: Frame)
    requires MarksAgree(calls, state, below + [top])
    ensures MarksAgree(calls, state[top.node := Closed], below)
  {
    var stack, marks := below + [top], state[top.node := Closed];
    assert stack[|below|] == top;
    assert forall i :: 0 <= i < |below| ==> stack[i] == below[i];
    forall n | n in marks && marks[n].Open?
      ensures exists i :: 0 <= i < |below| && below[i].node == n
    {
      var i :| 0 <= i < |stack| && stack[i].node == n;
      assert below[i].node == n;
    }
  }

  lemma CloseAccounts(calls: Calls, rank: map<NodeId, nat>, ranks: map<NodeId, nat>, below: seq<Frame>, top: Frame)
    requires StackAccounts(calls, rank, below + [top]) && ranks.Keys == rank.Keys + {top.node}
    ensures StackAccounts(calls, ranks, below)
  {
    var stack := below + [top];
    forall i, j | 0 <= i && j == i + 1 < |below|
      ensures Accounts(calls, ranks, below[i], Some(below[j].node))
    {
      assert stack[i] == below[i] && stack[j] == below[j];
      AccountsGrow(calls, rank, ranks, below[i], Some(below[j].node));
    }
    if below != [] {
      var last := |below| - 1;
      assert stack[last] == below[last];
      assert Accounts(calls, rank, stack[last], Some(stack[|below|].node));
      assert Accounts(calls, ranks, below[last], None);
    }
  }

  /** The top frame's next call is to a closed node: nothing to do. */
  lemma Pass(calls: Calls, state: map<NodeId, Mark>, below: seq<Frame>, top: Frame, rank: map<NodeId, nat>, clock: nat)
    requires Walking(calls, state, below + [top], rank, clock) && top.rest != [] && top.rest[0] in rank
    ensures Walking(calls, state, below + [Frame(top.node, top.rest[1..])], rank, clock)
  {
    var stack, stack' := below + [top], below + [Frame(top.node, top.rest[1..])];
    SameNodes(calls, state, stack, stack');
    assert Accounts(calls, rank, stack[|below|], None);
    assert Accounts(calls, rank, stack'[|below|], None);
    forall i, j | 0 <= i && j == i + 1 < |stack'|
      ensures Accounts(calls, rank, stack'[i], Some(stack'[j].node))
    {
      assert Accounts(calls, rank, stack[i], Some(stack[j].node));
    }
  }

  lemma SameNodes(calls: Calls, state: map<NodeId, Mark>, a: seq<Frame>, b: seq<Frame>)
    requires MarksAgree(calls, state, a)
    requires |a| == |b| && forall i :: 0 <= i < |a| ==> a[i].node == b[i].node
    ensures MarksAgree(calls, state, b)
  {
  }

  lemma OpenMark(calls: Calls, state: map<NodeId, Mark>, stack: seq<Frame>, frame: Frame)
    requires MarksAgree(calls, state, stack) && frame.node in calls.ids && frame.node !in state
    ensures MarksAgree(calls, state[frame.node := Open], stack + [frame])
  {
    var marks, taller := state[frame.node := Open], stack + [frame];
    assert forall i :: 0 <= i < |stack| ==> taller[i] == stack[i];
    assert taller[|stack|] == frame;
    forall n | n in marks && marks[n].Open?
      ensures exists i :: 0 <= i < |taller| && taller[i].node == n
    {
      if n != frame.node {
        var i :| 0 <= i < |stack| && stack[i].node == n;
        assert taller[i].node == n;
      }
    }
  }

  lemma OpenAccounts(calls: Calls, below: seq<Frame>, top: Frame, rank: map<NodeId, nat>)
    requires StackAccounts(calls, rank, below + [top]) && top.rest != [] && top.rest[0] in calls.ids
    ensures StackAccounts(calls, rank, below + [Frame(top.node, top.rest[1..])]
                                       + [Frame(top.rest[0], calls.from(top.rest[0]))])
  {
    var stack, advanced := below + [top], Frame(top.node, top.rest[1..]);
    var entered := Frame(top.rest[0], calls.from(top.rest[0]));
    var taller := below + [advanced] + [entered];
    assert Accounts(calls, rank, stack[|below|], None);
    forall i, j | 0 <= i && j == i + 1 < |taller|
      ensures Accounts(calls, rank, taller[i], Some(taller[j].node))
    {
      if i < |below| {
        assert Accounts(calls, rank, stack[i], Some(stack[j].node));
        assert taller[i] == stack[i] && taller[j].node == stack[j].node;
      } else {
        assert taller[i] == advanced && taller[j] == entered;
        assert Accounts(calls, rank, advanced, Some(entered.node));
      }
    }
    assert Accounts(calls, rank, entered, None);
  }

  /** The top frame's next call is to a node not met before: it opens. */
  lemma Push(calls: Calls, state: map<NodeId, Mark>, below: seq<Frame>, top: Frame, rank: map<NodeId, nat>, clock: nat,
             child: NodeId)
    requires Walking(calls, state, below + [top], rank, clock) && top.rest != []
    requires child == top.rest[0] && child !in state
    ensures Walking(calls, state[child := Open],
                    below + [Frame(top.node, top.rest[1..])] + [Frame(child, calls.from(child))], rank, clock)
  {
    var stack, advanced := below + [top], below + [Frame(top.node, top.rest[1..])];
    assert Accounts(calls, rank, stack[|below|], None);
    assert calls.Edge(top.node, child);
    SameNodes(calls, state, stack, advanced);
    OpenMark(calls, state, advanced, Frame(child, calls.from(child)));
    OpenAccounts(calls, below, top, rank);
  }

  /** The top frame's next call is to a node still open: a cycle. */
  lemma Found(calls: Calls, state: map<NodeId, Mark>, below: seq<Frame>, top: Frame, rank: map<NodeId, nat>, clock: nat)
    requires Walking(calls, state, below + [top], rank, clock) && top.rest != []
    requires top.rest[0] in state && state[top.rest[0]].Open?
    ensures calls.Cyclic()
  {
    var stack := below + [top];
    var child := top.rest[0];
    assert Accounts(calls, rank, stack[|below|], None);
    var i :| 0 <= i < |stack| && stack[i].node == child;
    var walk := StackPath(calls, rank, stack, i);
    var path := walk + [child];
    assert calls.Cycle(path);
  }

  /** The nodes on the stack from position `i` up are a walk. */
  lemma {:induction false} StackPath(calls: Calls, rank: map<NodeId, nat>, stack: seq<Frame>, i: nat)
    returns (path: seq<NodeId>)
    requires StackAccounts(calls, rank, stack) && i < |stack|
    ensures path != [] && path[0] == stack[i].node && path[|path| - 1] == stack[|stack| - 1].node && calls.Walk(path)
    decreases |stack| - i
  {
    if i == |stack| - 1 {
      path := [stack[i].node];
    } else {
      var rest := StackPath(calls, rank, stack, i + 1);
      var j := i + 1;
      assert Accounts(calls, rank, stack[i], Some(stack[j].node));
      path := [stack[i].node] + rest;
    }
  }

  /** One turn of the walk. */
  method Turn(calls: Calls, before: map<NodeId, Mark>, below: seq<Frame>, top: Frame,
              ghost rankBefore: map<NodeId, nat>, ghost clockBefore: nat)
    returns (state: map<NodeId, Mark>, stack: seq<Frame>, cyclic: bool, ghost rank: map<NodeId, nat>, ghost clock: nat)
    requires Walking(calls, before, below + [top], rankBefore, clockBefore)
    ensures before.Keys <= state.Keys
    ensures cyclic ==> calls.Cyclic()
    ensures !cyclic ==> Walking(calls, state, stack, rank, clock)
    ensures state.Keys <= calls.ids
    ensures before.Keys < state.Keys || (before.Keys == state.Keys && Work(stack) < Work(below + [top]))
  {
    state, cyclic, rank, clock := before, false, rankBefore, clockBefore;
    WorkOfTop(below, top);
    assert (below + [top])[|below|] == top;
    assert Accounts(calls, rank, top, None);
    if top.rest == [] {
      Close(calls, state, below, top, rank, clock);
      state, stack := state[top.node := Closed], below;
      rank, clock := rank[top.node := clock], clock + 1;
      return;
    }
    var child, advanced := top.rest[0], Frame(top.node, top.rest[1..]);
    assert calls.Edge(top.node, child);
    WorkOfTop(below, advanced);
    stack := below + [advanced];
    if child !in state {
      Push(calls, state, below, top, rank, clock, child);
      stack, state := stack + [Frame(child, calls.from(child))], state[child := Open];
    } else if state[child].Open? {
      Found(calls, state, below, top, rank, clock);
      cyclic := true;
    } else {
      Pass(calls, state, below, top, rank, clock);
    }
  }

  /** Walk everything `root` leads to. */
  method Explore(calls: Calls, root: NodeId, before: map<NodeId, Mark>, ghost rankBefore: map<NodeId, nat>,
                 ghost clockBefore: nat)
    returns (state: map<NodeId, Mark>, cyclic: bool, ghost rank: map<NodeId, nat>, ghost clock: nat)
    requires Walking(calls, before, [], rankBefore, clockBefore)
    requires root in calls.ids && root !in before
    ensures before.Keys <= state.Keys && root in state
    ensures cyclic ==> calls.Cyclic()
    ensures !cyclic ==> Walking(calls, state, [], rank, clock)
  {
    state := before[root := Open];
    var stack := [Frame(root, calls.from(root))];
    cyclic, rank, clock := false, rankBefore, clockBefore;
    while stack != [] && !cyclic
      invariant before.Keys <= state.Keys && root in state && state.Keys <= calls.ids
      invariant cyclic ==> calls.Cyclic()
      invariant !cyclic ==> Walking(calls, state, stack, rank, clock)
      decreases calls.ids - state.Keys, Work(stack)
    {
      var below, top := stack[..|stack| - 1], stack[|stack| - 1];
      assert stack == below + [top];
      state, stack, cyclic, rank, clock := Turn(calls, state, below, top, rank, clock);
    }
  }

  /** Can a node reach itself having consumed nothing?  Exactly: the answer is
      yes when there is a cycle and comes with a rank when there is none. */
  method LeftRecursive(calls: Calls, order: seq<NodeId>) returns (cyclic: bool, ghost rank: map<NodeId, nat>)
    requires calls.Valid() && forall n :: n in calls.ids <==> n in order
    ensures cyclic <==> calls.Cyclic()
    ensures !cyclic ==> calls.Ranked(rank)
  {
    var state: map<NodeId, Mark> := map[];
    ghost var clock := 0;
    rank, cyclic := map[], false;
    for i := 0 to |order|
      invariant Walking(calls, state, [], rank, clock)
      invariant forall k :: 0 <= k < i ==> order[k] in state
    {
      var root := order[i];
      if root !in state {
        state, cyclic, rank, clock := Explore(calls, root, state, rank, clock);
        if cyclic {
          return;
        }
      }
    }
    AllClosed(calls, order, state, rank, clock);
    RankedIsAcyclic(calls, rank);
  }

  lemma AllClosed(calls: Calls, order: seq<NodeId>, state: map<NodeId, Mark>, rank: map<NodeId, nat>, clock: nat)
    requires forall n :: n in calls.ids <==> n in order
    requires Walking(calls, state, [], rank, clock) && forall k :: 0 <= k < |order| ==> order[k] in state
    ensures calls.Ranked(rank)
  {
    forall n | n in calls.ids
      ensures n in rank
    {
      var k :| 0 <= k < |order| && order[k] == n;
      assert order[k] in state;
    }
  }
}
