/** Without a ring of reader plans everyone gets to the end, and the plans that make
    rings and that do not. */
module Finishing {

  import opened Locks
  import opened Deadlocks

  // ------------------------------------------------------------------
  // Without a ring everyone gets to the end

  /** Where no allowed plans form a ring, somebody can always go on. */
  lemma SomeoneMoves(plans: Plans, s: State) returns (p: nat)
    requires Invariant(s) && Permits(plans, s) && s.processes != map[] && !Crosses(plans)
    ensures p in s.processes && !Blocked(s, p)
  {
    if forall q :: q in s.processes ==> Blocked(s, q) {
      StuckCrosses(plans, s);
    }
    p :| p in s.processes && !Blocked(s, p);
  }

  /** What a process that is not blocked does to get to its end. */
  function NextEvent(it: Process): Event {
    if Wanted(it).Some? then Take
    else match it.stage
      case Comparing(_, _, _) => Compare
      case Replacing(_, todo) => if todo == [] then Finish else Replace
      case _ => Exit
  }

  /** How much a process has left to do. */
  function Work(it: Process): nat {
    1 + (if it.taken < |Plan(it.role)| then |Plan(it.role)| - it.taken else 0)
    + match it.stage
      case Working => 0
      case Comparing(names, done, changed) => 3 + |changed| + 2 * (if done < |names| then |names| - done else 0)
      case Waiting(_, changed) => 2 + |changed|
      case Replacing(_, todo) => 1 + |todo|
  }

  ghost function Total(processes: map<nat, Process>): nat {
    if processes == map[] then 0
    else
      var p :| p in processes;
      Work(processes[p]) + Total(processes - {p})
  }

  lemma {:induction false} TotalSplits(processes: map<nat, Process>, p: nat)
    requires p in processes
    ensures Total(processes) == Work(processes[p]) + Total(processes - {p})
    decreases processes
  {
    var q :| q in processes && Total(processes) == Work(processes[q]) + Total(processes - {q});
    if q != p {
      TotalSplits(processes - {q}, p);
      TotalSplits(processes - {p}, q);
      assert processes - {q} - {p} == processes - {p} - {q};
    }
  }

  lemma NextSteps(s: State, p: nat) returns (t: State)
    requires Invariant(s) && p in s.processes && !Blocked(s, p)
    ensures Steps(s, p, NextEvent(s.processes[p]), t)
    ensures t.processes == s.processes - {p}
         || (exists it :: t.processes == s.processes[p := it] && it.role == s.processes[p].role
                          && Work(it) < Work(s.processes[p]))
  {
    var it := s.processes[p];
    assert Informed(s, it);
    match NextEvent(it)
    case Take => t := NextTakes(s, p, it);
    case Compare => t := Compared(s, p, it);
    case Finish => t := WithProcess(s, p, it.(stage := Working));
    case Replace => t := NextReplaces(s, p, it);
    case Exit => t := Without(s, p);
  }

  lemma NextTakes(s: State, p: nat, it: Process) returns (t: State)
    requires p in s.processes && it == s.processes[p] && NextEvent(it) == Take && !Blocked(s, p)
    ensures Steps(s, p, Take, t)
    ensures exists after :: t.processes == s.processes[p := after] && after.role == it.role && Work(after) < Work(it)
  {
    var after := if it.taken < |Plan(it.role)| then it.(taken := it.taken + 1)
                 else it.(stage := Replacing(it.stage.names, it.stage.changed));
    t := WithProcess(s, p, after);
  }

  lemma NextReplaces(s: State, p: nat, it: Process) returns (t: State)
    requires p in s.processes && it == s.processes[p] && NextEvent(it) == Replace && Informed(s, it)
    ensures Steps(s, p, Replace, t)
    ensures exists after :: t.processes == s.processes[p := after] && after.role == it.role && Work(after) < Work(it)
  {
    var key := (it.role.build, it.stage.todo[0]);
    assert it.stage.todo[0] in it.stage.todo;
    var after := it.(stage := Replacing(it.stage.names, it.stage.todo[1..]));
    t := WithProcess(s.(bin := s.bin[key := s.link[key]]), p, after);
  }

  lemma NextShrinks(s: State, p: nat, t: State)
    requires p in s.processes
    requires t.processes == s.processes - {p}
          || (exists it :: t.processes == s.processes[p := it] && it.role == s.processes[p].role
                           && Work(it) < Work(s.processes[p]))
    ensures Total(t.processes) < Total(s.processes)
    ensures forall q :: q in t.processes ==> q in s.processes && t.processes[q].role == s.processes[q].role
  {
    TotalSplits(s.processes, p);
    if t.processes != s.processes - {p} {
      TotalSplits(t.processes, p);
      assert t.processes - {p} == s.processes - {p};
    }
  }

  /** Every move is the next one of a process that is not blocked. */
  ghost predicate Dutiful(states: seq<State>, moves: seq<(nat, Event)>)
    requires |states| == |moves| + 1
  {
    forall i :: 0 <= i < |moves| ==>
      var p := moves[i].0;
      p in states[i].processes && !Blocked(states[i], p) && moves[i].1 == NextEvent(states[i].processes[p])
  }

  lemma Prepend(s: State, p: nat, rest: seq<State>, later: seq<(nat, Event)>)
    requires p in s.processes && !Blocked(s, p) && Run(rest, later) && Dutiful(rest, later)
    requires Steps(s, p, NextEvent(s.processes[p]), rest[0])
    ensures var states, moves := [s] + rest, [(p, NextEvent(s.processes[p]))] + later;
            Run(states, moves) && Dutiful(states, moves)
  {
    var states, moves := [s] + rest, [(p, NextEvent(s.processes[p]))] + later;
    forall i, j | 0 <= i < |moves| && j == i + 1
      ensures Steps(states[i], moves[i].0, moves[i].1, states[j])
    {
      if i > 0 {
        var k := i - 1;
        assert Steps(rest[k], later[k].0, later[k].1, rest[i]);
        assert states[j] == rest[i];
      }
    }
    forall i | 0 <= i < |moves|
      ensures moves[i].0 in states[i].processes && !Blocked(states[i], moves[i].0)
              && moves[i].1 == NextEvent(states[i].processes[moves[i].0])
    {
      if i > 0 {
        var k := i - 1;
        assert states[i] == rest[k] && moves[i] == later[k];
      }
    }
  }

  /** From every state that can come about, when no allowed plans form a ring, all
      processes can go on to their ends: nobody starts, nobody is made to give up, and
      every step is the next one of a process that is not blocked. */
  lemma {:induction false} EveryoneFinishes(plans: Plans, s: State)
    returns (states: seq<State>, moves: seq<(nat, Event)>)
    requires Invariant(s) && Permits(plans, s) && !Crosses(plans)
    ensures Finishes(s, states, moves)
    decreases Total(s.processes)
  {
    if s.processes == map[] {
      return [s], [];
    }
    var p := SomeoneMoves(plans, s);
    var t := NextSteps(s, p);
    NextShrinks(s, p, t);
    StepKeeps(s, p, NextEvent(s.processes[p]), t);
    var rest, later := EveryoneFinishes(plans, t);
    Prepend(s, p, rest, later);
    states, moves := [s] + rest, [(p, NextEvent(s.processes[p]))] + later;
  }

  ghost predicate Finishes(s: State, states: seq<State>, moves: seq<(nat, Event)>) {
    Run(states, moves) && Dutiful(states, moves) && states[0] == s && states[|moves|].processes == map[]
  }

  ghost predicate CanFinish(s: State) {
    exists states, moves :: Finishes(s, states, moves)
  }

  /** Every reachable state can be brought to its end exactly when the allowed reader
      plans form no ring. */
  lemma FinishingExactly(plans: Plans)
    ensures (forall s :: Reachable(plans, s) ==> CanFinish(s)) <==> !Crosses(plans)
  {
    if !Crosses(plans) {
      forall s | Reachable(plans, s)
        ensures CanFinish(s)
      {
        ReachableIsInvariant(plans, s);
        var states, moves := EveryoneFinishes(plans, s);
        assert Finishes(s, states, moves);
      }
    } else {
      DeadlockExactly(plans);
      var s :| Reachable(plans, s) && Stuck(s);
      StuckCannotFinish(s);
    }
  }

  lemma FinishMoves(s: State, states: seq<State>, moves: seq<(nat, Event)>)
    requires Finishes(s, states, moves)
    ensures !Stuck(s)
  {
    if moves != [] {
      assert !Blocked(states[0], moves[0].0);
    }
  }

  lemma StuckCannotFinish(s: State)
    ensures CanFinish(s) ==> !Stuck(s)
  {
    if CanFinish(s) {
      var states, moves :| Finishes(s, states, moves);
      FinishMoves(s, states, moves);
    }
  }

  // ------------------------------------------------------------------
  // Which plans do

  /** A reader never asks for a debug build after a release build. */
  predicate Orderly(builds: seq<Build>) {
    forall i, j :: 0 <= i < j < |builds| ==> !(builds[i].mode.Release? && builds[j].mode.Debug?)
  }

  /** Asking in order is enough. */
  lemma OrderlyNeverCrosses(plans: Plans)
    requires forall builds :: plans(builds) ==> Orderly(builds)
    ensures !Crosses(plans)
  {
    CrossesOutOfOrder(plans);
  }

  lemma CrossesOutOfOrder(plans: Plans)
    ensures Crosses(plans) ==> exists builds :: plans(builds) && !Orderly(builds)
  {
    if Crosses(plans) {
      var tags: seq<string>, ring: seq<seq<Build>>, at: seq<nat> :| Crossing(plans, tags, ring, at);
      assert Asks(ring[0], at[0], tags[0], tags[After(0, |tags|)], tags);
      var i :| 0 <= i < at[0] && ring[0][i] == Build(tags[0], Release);
      assert !Orderly(ring[0]);
    }
  }

  /** One tag alone: a plan that asks for its release build and later for its debug
      build, with no debug build of it before. */
  predicate Reversed(builds: seq<Build>, tag: string) {
    exists j :: 0 <= j < |builds| && Asks(builds, j, tag, tag, [tag])
  }

  lemma ReversedCrosses(plans: Plans, builds: seq<Build>, tag: string)
    requires plans(builds) && Reversed(builds, tag)
    ensures Crosses(plans)
  {
    var j :| 0 <= j < |builds| && Asks(builds, j, tag, tag, [tag]);
    assert Crossing(plans, [tag], [builds], [j]);
  }

  predicate OfOneTag(builds: seq<Build>) {
    forall i, j :: 0 <= i < |builds| && 0 <= j < |builds| ==> builds[i].tag == builds[j].tag
  }

  /** When every reader keeps to builds of one tag, that is the only way. */
  lemma OneTagExactly(plans: Plans)
    requires forall builds :: plans(builds) ==> OfOneTag(builds)
    ensures Crosses(plans) <==> exists builds, tag :: plans(builds) && Reversed(builds, tag)
  {
    if tags: seq<string>, ring: seq<seq<Build>>, at: seq<nat> :| Crossing(plans, tags, ring, at) {
      var builds, tag := ring[0], tags[0];
      assert OfOneTag(builds);
      assert Asks(builds, at[0], tag, tags[After(0, |tags|)], tags);
      var i :| 0 <= i < at[0] && builds[i] == Build(tag, Release);
      assert builds[at[0]].tag == builds[i].tag;
      assert Asks(builds, at[0], tag, tag, [tag]);
      assert Reversed(builds, tag);
    }
    if builds, tag :| plans(builds) && Reversed(builds, tag) {
      ReversedCrosses(plans, builds, tag);
    }
  }

  function OnlyPlan(builds: seq<Build>): Plans {
    other => other == builds
  }

  lemma Earlier(builds: seq<Build>, i: nat, j: nat)
    requires i < j <= |builds|
    ensures builds[i] in builds[..j]
  {
    assert builds[..j][i] == builds[i];
  }

  /** One plan asks for at most one tag of a ring. */
  lemma AsksForOne(builds: seq<Build>, i: nat, j: nat, a: string, b: string, held: string, other: string,
                   tags: seq<string>)
    requires Asks(builds, i, held, a, tags) && Asks(builds, j, other, b, tags) && a in tags && b in tags
    ensures a == b
  {
    if i < j {
      Earlier(builds, i, j);
    } else if j < i {
      Earlier(builds, j, i);
    }
  }

  lemma AloneInRing(builds: seq<Build>, tags: seq<string>, ring: seq<seq<Build>>, at: seq<nat>)
    requires Crossing(OnlyPlan(builds), tags, ring, at)
    ensures |tags| == 1
  {
    var n := |tags|;
    if n > 1 {
      AsksForOne(builds, at[0], at[1], tags[1], tags[After(1, n)], tags[0], tags[1], tags);
    }
  }

  /** Readers that all follow one plan can deadlock exactly when it is reversed. */
  lemma OnePlanExactly(builds: seq<Build>)
    ensures Crosses(OnlyPlan(builds)) <==> exists tag :: Reversed(builds, tag)
  {
    if Crosses(OnlyPlan(builds)) {
      var tags: seq<string>, ring: seq<seq<Build>>, at: seq<nat> :| Crossing(OnlyPlan(builds), tags, ring, at);
      AloneInRing(builds, tags, ring, at);
      assert tags == [tags[0]];
      assert Asks(builds, at[0], tags[0], tags[0], [tags[0]]);
      assert Reversed(builds, tags[0]);
    }
    if tag :| Reversed(builds, tag) {
      ReversedCrosses(OnlyPlan(builds), builds, tag);
    }
  }

  /** Release of one tag and then debug of another is harmless alone, and so is debug
      again after a release of the same tag. */
  lemma HarmlessAlone(a: string, b: string)
    requires a != b
    ensures !Crosses(OnlyPlan([Build(a, Release), Build(b, Debug)]))
    ensures !Crosses(OnlyPlan([Build(a, Debug), Build(a, Release), Build(a, Debug)]))
  {
    OnePlanExactly([Build(a, Release), Build(b, Debug)]);
    OnePlanExactly([Build(a, Debug), Build(a, Release), Build(a, Debug)]);
    forall tag
      ensures !Reversed([Build(a, Release), Build(b, Debug)], tag)
      ensures !Reversed([Build(a, Debug), Build(a, Release), Build(a, Debug)], tag)
    {
      NotReversed(a, b, tag);
    }
  }

  lemma NotReversed(a: string, b: string, tag: string)
    requires a != b
    ensures !Reversed([Build(a, Release), Build(b, Debug)], tag)
    ensures !Reversed([Build(a, Debug), Build(a, Release), Build(a, Debug)], tag)
  {
    var one, other := [Build(a, Release), Build(b, Debug)], [Build(a, Debug), Build(a, Release), Build(a, Debug)];
    Earlier(other, 0, 2);
    assert one[..1] == [Build(a, Release)] && one[..0] == [] && other[..0] == [];
  }

  function Out(held: string, to: string): seq<Build> {
    [Build(held, Release), Build(to, Debug)]
  }

  lemma OutAsks(held: string, to: string, tags: seq<string>)
    ensures Asks(Out(held, to), 1, held, to, tags)
  {
    assert Out(held, to)[..1] == [Build(held, Release)];
  }

  lemma StandingTwo(ring: seq<seq<Build>>, tags: seq<string>, a: nat, b: nat)
    requires |ring| == |tags| == 1
    ensures Standing(ring, tags, [a, b]).processes
            == map[0 := Process(Reader(ring[0]), a, Working), 1 := Process(TagCleaner(tags[0]), b, Working)]
  {
  }

  lemma StandingFour(ring: seq<seq<Build>>, tags: seq<string>, a: nat, b: nat)
    requires |ring| == |tags| == 2
    ensures Standing(ring, tags, [a, a, b, b]).processes
            == map[0 := Process(Reader(ring[0]), a, Working), 1 := Process(Reader(ring[1]), a, Working),
                   2 := Process(TagCleaner(tags[0]), b, Working), 3 := Process(TagCleaner(tags[1]), b, Working)]
  {
  }

  lemma RingHappens(plans: Plans, tags: seq<string>, ring: seq<seq<Build>>, at: seq<nat>, takens: seq<nat>)
    returns (states: seq<State>, moves: seq<(nat, Event)>)
    requires Crossing(plans, tags, ring, at) && takens == Goals(at, |tags|)
    ensures Run(states, moves) && states[0].processes == map[] && Stuck(states[|moves|])
    ensures states[|moves|] == Standing(ring, tags, takens)
  {
    StandingIsStuck(plans, tags, ring, at);
    states, moves := RingIsReachable(plans, tags, ring, at);
  }

  /** Release and then debug of one tag: a reader and a cleanup of the tag come to wait
      for each other. */
  lemma OutOfOrderHappens(tag: string) returns (states: seq<State>, moves: seq<(nat, Event)>)
    ensures Run(states, moves) && states[0].processes == map[] && Stuck(states[|moves|])
    ensures states[|moves|].processes == map[0 := Process(Reader(Out(tag, tag)), 3, Working),
                                             1 := Process(TagCleaner(tag), 4, Working)]
    ensures !Orderly(Out(tag, tag))
  {
    var tags, ring := [tag], [Out(tag, tag)];
    OutAsks(tag, tag, tags);
    states, moves := RingHappens(OnlyPlan(Out(tag, tag)), tags, ring, [1], [3, 4]);
    StandingTwo(ring, tags, 3, 4);
  }

  /** The same across tags: two readers and two cleaners. */
  lemma AcrossTagsHappens(a: string, b: string) returns (states: seq<State>, moves: seq<(nat, Event)>)
    requires a != b
    ensures Run(states, moves) && states[0].processes == map[] && Stuck(states[|moves|])
    ensures states[|moves|].processes == map[
              0 := Process(Reader(Out(a, b)), 3, Working), 1 := Process(Reader(Out(b, a)), 3, Working),
              2 := Process(TagCleaner(a), 4, Working), 3 := Process(TagCleaner(b), 4, Working)]
  {
    var tags, ring := [a, b], [Out(a, b), Out(b, a)];
    OutAsks(a, b, tags);
    OutAsks(b, a, tags);
    states, moves := RingHappens(builds => true, tags, ring, [1, 1], [3, 3, 4, 4]);
    StandingFour(ring, tags, 3, 4);
  }
}
