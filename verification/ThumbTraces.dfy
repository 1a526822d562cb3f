/** What a run is: the states its steps go through, and where it stops. */
module ThumbTraces {
  import opened Options
  import opened ThumbMachine

  /** A step fetches a halfword where the program counter is, unrecorded, and executes
      it with the counter behind it; what cannot be fetched refuses the step. */
  lemma StepExactly(cfg: Setup, s: State, pc: int)
    requires pc == s.r[15]
    ensures match Load(cfg, s, pc, 2, false)
            case Refused(why) => Step(cfg, s) == Refused(why)
            case Went(fetched) => Step(cfg, s) == Execute(cfg, s.(r := s.r[15 := pc + 2]), fetched.1, pc)
  {
  }

  /** The run is to leave here. */
  predicate Leaves(until: Option<int -> bool>, s: State) {
    until.Some? && until.value(s.r[15])
  }

  /** The run goes on from one state to another. */
  ghost predicate GoesOn(step: Machine, until: Option<int -> bool>, a: State, b: State) {
    !Leaves(until, a) && step(a) == Went((b, false))
  }

  /** It goes on from each state to the next. */
  ghost predicate Trace(step: Machine, until: Option<int -> bool>, states: seq<State>) {
    states != [] && forall i, j :: 0 <= i && j == i + 1 < |states| ==> GoesOn(step, until, states[i], states[j])
  }

  lemma TraceTail(step: Machine, until: Option<int -> bool>, states: seq<State>)
    requires Trace(step, until, states) && |states| > 1
    ensures GoesOn(step, until, states[0], states[1]) && Trace(step, until, states[1..])
  {
    var rest := states[1..];
    forall i, j | 0 <= i && j == i + 1 < |rest|
      ensures GoesOn(step, until, rest[i], rest[j])
    {
      assert GoesOn(step, until, states[i + 1], states[j + 1]);
    }
  }

  lemma TraceHead(step: Machine, until: Option<int -> bool>, s: State, rest: seq<State>)
    requires Trace(step, until, rest) && GoesOn(step, until, s, rest[0])
    ensures Trace(step, until, [s] + rest)
  {
    var states := [s] + rest;
    forall i, j | 0 <= i && j == i + 1 < |states|
      ensures GoesOn(step, until, states[i], states[j])
    {
      if i > 0 {
        assert GoesOn(step, until, rest[i - 1], rest[j - 1]);
      }
    }
  }

  /** The trace ends the run: it leaves at the last state with a step to spare, or the
      step from there halts. */
  ghost predicate Ends(step: Machine, until: Option<int -> bool>, states: seq<State>, limit: nat, end: State)
    requires states != []
  {
    var last := states[|states| - 1];
    && |states| <= limit
    && if Leaves(until, last) then end == last else step(last) == Went((end, true))
  }

  /** A run of so many steps ends well in a state if and only if a trace that long does. */
  lemma {:induction false} RunExactly(step: Machine, s: State, limit: nat, until: Option<int -> bool>, end: State)
    ensures RunOf(step, s, limit, until) == Went(end)
       <==> exists states :: Trace(step, until, states) && states[0] == s && Ends(step, until, states, limit, end)
    decreases limit
  {
    if RunOf(step, s, limit, until) == Went(end) {
      var states := TraceOf(step, s, limit, until, end);
    }
    if states :| Trace(step, until, states) && states[0] == s && Ends(step, until, states, limit, end) {
      TraceRuns(step, states, limit, until, end);
    }
  }

  lemma {:induction false} TraceOf(step: Machine, s: State, limit: nat, until: Option<int -> bool>, end: State)
    returns (states: seq<State>)
    requires RunOf(step, s, limit, until) == Went(end)
    ensures Trace(step, until, states) && states[0] == s && Ends(step, until, states, limit, end)
    decreases limit
  {
    if Leaves(until, s) || step(s).value.1 {
      states := [s];
    } else {
      var rest := TraceOf(step, step(s).value.0, limit - 1, until, end);
      states := [s] + rest;
      TraceHead(step, until, s, rest);
    }
  }

  lemma {:induction false} TraceRuns(step: Machine, states: seq<State>, limit: nat, until: Option<int -> bool>,
                                     end: State)
    requires Trace(step, until, states) && Ends(step, until, states, limit, end)
    ensures RunOf(step, states[0], limit, until) == Went(end)
    decreases |states|
  {
    if |states| > 1 {
      var rest := states[1..];
      TraceTail(step, until, states);
      TraceRuns(step, rest, limit - 1, until, end);
    }
  }

  /** A run that is not refused stops within its limit; one whose every step goes on
      for that long is refused for the want of a halt. */
  lemma {:induction false} RunsOut(step: Machine, states: seq<State>, limit: nat, until: Option<int -> bool>)
    requires Trace(step, until, states) && |states| == limit + 1
    ensures RunOf(step, states[0], limit, until) == Refused(NoWaitForInterrupt)
    decreases limit
  {
    if limit > 0 {
      var rest := states[1..];
      TraceTail(step, until, states);
      RunsOut(step, rest, limit - 1, until);
    }
  }

  /** And one that a step refuses is refused for its reason. */
  lemma {:induction false} RunIsRefused(step: Machine, states: seq<State>, limit: nat, until: Option<int -> bool>,
                                        why: Refusal)
    requires Trace(step, until, states) && |states| <= limit
    requires !Leaves(until, states[|states| - 1]) && step(states[|states| - 1]) == Refused(why)
    ensures RunOf(step, states[0], limit, until) == Refused(why)
    decreases |states|
  {
    if |states| > 1 {
      var rest := states[1..];
      TraceTail(step, until, states);
      RunIsRefused(step, rest, limit - 1, until, why);
    }
  }
}
