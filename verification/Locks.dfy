/** The build locks: any number of processes, each taking the locks of its plan in
    order, builders publishing executables and cleaners removing them.

    A lock is held by whoever's plan has got past it, so there is no lock table to
    fall out of step with the processes. */
module Locks {

  import opened Options

  datatype Mode = Debug | Release

  datatype Build = Build(tag: string, mode: Mode)

  datatype Lock = All | ModeOf(build: Build) | ReadersOf(build: Build)

  datatype Kind = Shared | Exclusive

  type Claim = (Lock, Kind)

  /** What a process tree is there to do.  A reader runs the executables of some
      builds, which it names one `reading` call after another. */
  datatype Role =
    | Builder(build: Build)
    | TagCleaner(tag: string)
    | AllCleaner
    | Reader(builds: seq<Build>)

  datatype Scope = ModeScope | TagScope | AllScope

  /** `lock_plan`. */
  function LockPlan(scope: Scope, build: Build): seq<Claim> {
    var all := [(All, if scope.AllScope? then Exclusive else Shared)];
    if scope.AllScope? then all
    else
      var modes := if scope.ModeScope? then [build.mode] else [Debug, Release];
      all + Each(build.tag, modes, false) + (if scope.TagScope? then Each(build.tag, modes, true) else [])
  }

  function Each(tag: string, modes: seq<Mode>, readers: bool): seq<Claim> {
    if modes == [] then []
    else
      var build := Build(tag, modes[0]);
      [(if readers then ReadersOf(build) else ModeOf(build), Exclusive)] + Each(tag, modes[1..], readers)
  }

  /** The claims of one `reading` call after another. */
  function ReadingPlan(builds: seq<Build>): seq<Claim> {
    if builds == [] then [] else [(All, Shared), (ReadersOf(builds[0]), Shared)] + ReadingPlan(builds[1..])
  }

  function Plan(role: Role): seq<Claim> {
    match role
    case Builder(build) => LockPlan(ModeScope, build)
    case TagCleaner(tag) => LockPlan(TagScope, Build(tag, Debug))
    case AllCleaner => LockPlan(AllScope, Build("", Debug))
    case Reader(builds) => ReadingPlan(builds)
  }

  // ------------------------------------------------------------------
  // Processes and files

  /** Where a builder is in publishing.  `Waiting` has decided what changed and wants
      the readers lock; `Replacing` holds it. */
  datatype Stage =
    | Working
    | Comparing(names: seq<string>, done: nat, changed: seq<string>)
    | Waiting(names: seq<string>, changed: seq<string>)
    | Replacing(names: seq<string>, todo: seq<string>)

  datatype Process = Process(role: Role, taken: nat, stage: Stage)

  type Files = map<(Build, string), string>

  datatype State = State(processes: map<nat, Process>, link: Files, bin: Files)

  predicate Placed(p: Process) {
    p.taken >= |Plan(p.role)|
  }

  predicate Holds(p: Process, claim: Claim) {
    claim in Plan(p.role)[..if p.taken < |Plan(p.role)| then p.taken else |Plan(p.role)|]
    || (p.stage.Replacing? && p.role.Builder? && claim == (ReadersOf(p.role.build), Exclusive))
  }

  predicate Compatible(a: Kind, b: Kind) {
    a.Shared? && b.Shared?
  }

  /** Nobody else holds the lock in a way that excludes `claim`. */
  ghost predicate Grantable(s: State, p: nat, claim: Claim) {
    forall q, kind :: q in s.processes && q != p && Holds(s.processes[q], (claim.0, kind)) ==> Compatible(claim.1, kind)
  }

  /** The lock a process asks for next, if it needs one to go on. */
  function Wanted(p: Process): Option<Claim> {
    if p.taken < |Plan(p.role)| then Some(Plan(p.role)[p.taken])
    else if p.stage.Waiting? && p.role.Builder? then Some((ReadersOf(p.role.build), Exclusive))
    else None
  }

  /** Blocked in `flock`. */
  ghost predicate Blocked(s: State, p: nat)
    requires p in s.processes
  {
    Wanted(s.processes[p]).Some? && !Grantable(s, p, Wanted(s.processes[p]).value)
  }

  /** The executable in bin/ is not the one that was linked. */
  predicate Stale(s: State, build: Build, name: string) {
    (build, name) in s.link && ((build, name) !in s.bin || s.bin[(build, name)] != s.link[(build, name)])
  }

  // ------------------------------------------------------------------
  // Steps

  datatype Event =
    | Start(role: Role)
    | Take
    | LinkOne(name: string, content: string)
    | UnlinkOne(name: string)
    | Publish(names: seq<string>)
    | Compare
    | Replace
    | Finish
    | Remove
    | Exit

  function WithProcess(s: State, p: nat, process: Process): State {
    s.(processes := s.processes[p := process])
  }

  function Without(s: State, p: nat): State {
    s.(processes := map q | q in s.processes && q != p :: s.processes[q])
  }

  predicate OfTag(key: (Build, string), tag: string) {
    key.0.tag == tag
  }

  function Cleaned(files: Files, role: Role): Files {
    if role.AllCleaner? then map[]
    else if role.TagCleaner? then map key | key in files && !OfTag(key, role.tag) :: files[key]
    else files
  }

  /** What `p` doing `e` makes of the state, when `p` can do it there. */
  ghost predicate Steps(s: State, p: nat, e: Event, t: State) {
    match e
    case Start(role) => p !in s.processes && t == WithProcess(s, p, Process(role, 0, Working))
    case _ => p in s.processes && Moves(s, p, s.processes[p], e, t)
  }

  ghost predicate Moves(s: State, p: nat, it: Process, e: Event, t: State) {
      match e
      case Start(_) => false
      case Take =>
        && Wanted(it).Some? && Grantable(s, p, Wanted(it).value)
        && t == WithProcess(s, p, if it.taken < |Plan(it.role)| then it.(taken := it.taken + 1)
                                  else it.(stage := Replacing(it.stage.names, it.stage.changed)))
      case LinkOne(name, content) =>
        && Placed(it) && it.role.Builder? && it.stage.Working?
        && t == s.(link := s.link[(it.role.build, name) := content])
      case UnlinkOne(name) =>
        && Placed(it) && it.role.Builder? && it.stage.Working?
        && t == s.(link := map key | key in s.link && key != (it.role.build, name) :: s.link[key])
      case Publish(names) =>
        && Placed(it) && it.role.Builder? && it.stage.Working?
        && t == WithProcess(s, p, it.(stage := Comparing(names, 0, [])))
      case Compare =>
        && Placed(it) && it.role.Builder? && it.stage.Comparing?
        && t == Compared(s, p, it)
      case Replace =>
        && it.role.Builder? && it.stage.Replacing? && it.stage.todo != []
        && var key := (it.role.build, it.stage.todo[0]);
           && key in s.link
           && t == WithProcess(s.(bin := s.bin[key := s.link[key]]), p,
                               it.(stage := Replacing(it.stage.names, it.stage.todo[1..])))
      case Finish =>
        && it.stage.Replacing? && it.stage.todo == []
        && t == WithProcess(s, p, it.(stage := Working))
      case Remove =>
        && Placed(it) && (it.role.TagCleaner? || it.role.AllCleaner?)
        && t == s.(link := Cleaned(s.link, it.role), bin := Cleaned(s.bin, it.role))
      case Exit => t == Without(s, p)
  }

  /** One turn of the comparison: a name not linked ends the process, the last name
      decides whether there is anything to replace. */
  function Compared(s: State, p: nat, it: Process): State
    requires it.role.Builder? && it.stage.Comparing?
  {
    var names, done, changed := it.stage.names, it.stage.done, it.stage.changed;
    if done >= |names| then
      WithProcess(s, p, it.(stage := if changed == [] then Working else Waiting(names, changed)))
    else if (it.role.build, names[done]) !in s.link then Without(s, p)
    else if Stale(s, it.role.build, names[done]) then
      WithProcess(s, p, it.(stage := Comparing(names, done + 1, changed + [names[done]])))
    else WithProcess(s, p, it.(stage := Comparing(names, done + 1, changed)))
  }

  // ------------------------------------------------------------------
  // What every step keeps

  /** Two processes hold one lock only if both share it. */
  ghost predicate Excluded(s: State) {
    forall p, q, lock, a, b ::
      (p in s.processes && q in s.processes && p != q
       && Holds(s.processes[p], (lock, a)) && Holds(s.processes[q], (lock, b))) ==> Compatible(a, b)
  }

  /** What a builder in the middle of publishing knows is still so. */
  ghost predicate Informed(s: State, it: Process) {
    match it.stage
    case Working => true
    case Comparing(names, done, changed) =>
      Placed(it) && it.role.Builder? && done <= |names| && Listed(s, it.role.build, names[..done], changed)
    case Waiting(names, changed) => Placed(it) && it.role.Builder? && Listed(s, it.role.build, names, changed)
    case Replacing(names, todo) =>
      Placed(it) && it.role.Builder? && Linked(s, it.role.build, names) && Left(s, it.role.build, names, todo)
  }

  ghost predicate Linked(s: State, build: Build, names: seq<string>) {
    forall n :: n in names ==> (build, n) in s.link
  }

  /** `changed` is exactly the names whose executable is not the linked one. */
  ghost predicate Listed(s: State, build: Build, names: seq<string>, changed: seq<string>) {
    Linked(s, build, names) && forall n :: n in changed <==> n in names && Stale(s, build, n)
  }

  /** Nothing stale has been passed over. */
  ghost predicate Left(s: State, build: Build, names: seq<string>, todo: seq<string>) {
    && (forall n :: n in todo ==> n in names)
    && (forall n :: n in names && Stale(s, build, n) ==> n in todo)
  }

  ghost predicate Invariant(s: State) {
    && Excluded(s)
    && forall p :: p in s.processes ==> Informed(s, s.processes[p])
  }

  // ------------------------------------------------------------------
  // Who holds what

  lemma PlansAre(role: Role)
    ensures role.Builder? ==> Plan(role) == [(All, Shared), (ModeOf(role.build), Exclusive)]
    ensures role.AllCleaner? ==> Plan(role) == [(All, Exclusive)]
    ensures role.TagCleaner? ==>
              var d, r := Build(role.tag, Debug), Build(role.tag, Release);
              Plan(role) == [(All, Shared), (ModeOf(d), Exclusive), (ModeOf(r), Exclusive),
                             (ReadersOf(d), Exclusive), (ReadersOf(r), Exclusive)]
  {
    if role.Builder? {
      assert Each(role.build.tag, [role.build.mode], false) == [(ModeOf(role.build), Exclusive)];
    } else if role.TagCleaner? {
      assert [Debug, Release][1..] == [Release] && [Release][1..] == [];
      assert Each(role.tag, [Release], false) == [(ModeOf(Build(role.tag, Release)), Exclusive)];
      assert Each(role.tag, [Release], true) == [(ReadersOf(Build(role.tag, Release)), Exclusive)];
    }
  }

  /** A builder at work holds its mode lock; a cleaner at work holds everything it removes. */
  lemma PlacedHolds(it: Process, build: Build)
    requires Placed(it)
    ensures it.role.Builder? ==> Holds(it, (All, Shared)) && Holds(it, (ModeOf(it.role.build), Exclusive))
    ensures it.role.TagCleaner? && build.tag == it.role.tag ==>
              Holds(it, (ModeOf(build), Exclusive)) && Holds(it, (ReadersOf(build), Exclusive))
    ensures it.role.AllCleaner? ==> Holds(it, (All, Exclusive))
  {
    PlansAre(it.role);
    var plan := Plan(it.role);
    assert plan[..|plan|] == plan;
    if it.role.Builder? {
      assert plan[0] in plan && plan[1] in plan;
    } else if it.role.TagCleaner? {
      assert plan[1] in plan && plan[2] in plan && plan[3] in plan && plan[4] in plan;
      if build.tag == it.role.tag {
        assert build == Build(it.role.tag, build.mode);
        assert build.mode.Debug? || build.mode.Release?;
        assert (ModeOf(build), Exclusive) in plan && (ReadersOf(build), Exclusive) in plan;
      }
    } else if it.role.AllCleaner? {
      assert plan[0] in plan;
    }
  }

  /** A reader that holds a readers lock took the global lock before it. */
  lemma {:induction false} ReaderHoldsAll(builds: seq<Build>, taken: nat, build: Build)
    requires taken <= |ReadingPlan(builds)| && (ReadersOf(build), Shared) in ReadingPlan(builds)[..taken]
    ensures (All, Shared) in ReadingPlan(builds)[..taken]
  {
    assert ReadingPlan(builds)[0] == (All, Shared);
    assert ReadingPlan(builds)[..taken][0] == (All, Shared);
  }

  lemma {:induction false} ReadingIsShared(builds: seq<Build>, claim: Claim)
    requires claim in ReadingPlan(builds)
    ensures claim.1.Shared? && (claim.0.All? || claim.0.ReadersOf?)
  {
    if builds != [] && claim != (All, Shared) && claim != (ReadersOf(builds[0]), Shared) {
      ReadingIsShared(builds[1..], claim);
    }
  }

  // ------------------------------------------------------------------
  // The invariant, step by step

  lemma TakeHolds(it: Process, claim: Claim)
    requires Wanted(it).Some?
    ensures var after := if it.taken < |Plan(it.role)| then it.(taken := it.taken + 1)
                         else it.(stage := Replacing(it.stage.names, it.stage.changed));
            Holds(after, claim) ==> Holds(it, claim) || claim == Wanted(it).value
  {
    var plan := Plan(it.role);
    if it.taken < |plan| {
      assert plan[..it.taken + 1] == plan[..it.taken] + [plan[it.taken]];
      assert it.taken + 1 == |plan| ==> plan[..|plan|] == plan[..it.taken + 1];
    }
  }

  lemma StepExcludes(s: State, p: nat, e: Event, t: State)
    requires Excluded(s) && Steps(s, p, e, t)
    ensures Excluded(t)
  {
    forall a, b, lock, ka, kb | a in t.processes && b in t.processes && a != b
                                && Holds(t.processes[a], (lock, ka)) && Holds(t.processes[b], (lock, kb))
      ensures Compatible(ka, kb)
    {
      StillCompatible(s, p, e, t, a, b, lock, ka, kb);
    }
  }

  lemma StillCompatible(s: State, p: nat, e: Event, t: State, a: nat, b: nat, lock: Lock, ka: Kind, kb: Kind)
    requires Excluded(s) && Steps(s, p, e, t) && a in t.processes && b in t.processes && a != b
    requires Holds(t.processes[a], (lock, ka)) && Holds(t.processes[b], (lock, kb))
    ensures Compatible(ka, kb)
  {
    Inherits(s, p, e, t, a, (lock, ka));
    Inherits(s, p, e, t, b, (lock, kb));
    if Holds(s.processes[a], (lock, ka)) && Holds(s.processes[b], (lock, kb)) {
      OneOwner(s, a, b, lock, ka, kb);
    } else if a == p {
      assert Compatible((lock, ka).1, kb);
    } else {
      assert Compatible((lock, kb).1, ka);
    }
  }

  /** Whatever is held after a step was held before it or was just granted. */
  lemma Inherits(s: State, p: nat, e: Event, t: State, q: nat, claim: Claim)
    requires Steps(s, p, e, t) && q in t.processes && Holds(t.processes[q], claim)
    ensures q in s.processes
    ensures Holds(s.processes[q], claim) || (q == p && Grantable(s, p, claim))
    ensures q != p ==> t.processes[q] == s.processes[q]
  {
    if e.Take? {
      TakeInherits(s, p, t, q, claim);
    } else if e.Start? {
      StartInherits(s, p, e.role, t, q, claim);
    }
  }

  lemma TakeInherits(s: State, p: nat, t: State, q: nat, claim: Claim)
    requires Steps(s, p, Take, t) && q in t.processes && Holds(t.processes[q], claim)
    ensures q in s.processes
    ensures Holds(s.processes[q], claim) || (q == p && Grantable(s, p, claim))
    ensures q != p ==> t.processes[q] == s.processes[q]
  {
    if q == p {
      TakeHolds(s.processes[p], claim);
    }
  }

  lemma StartInherits(s: State, p: nat, role: Role, t: State, q: nat, claim: Claim)
    requires Steps(s, p, Start(role), t) && q in t.processes && Holds(t.processes[q], claim)
    ensures q in s.processes && q != p && t.processes[q] == s.processes[q]
  {
  }

  lemma OneOwner(s: State, p: nat, q: nat, lock: Lock, a: Kind, b: Kind)
    requires Excluded(s) && p in s.processes && q in s.processes && p != q
    requires Holds(s.processes[p], (lock, a)) && Holds(s.processes[q], (lock, b))
    ensures a.Shared? && b.Shared?
  {
    assert Compatible(a, b);
  }

  /** No other process touches what a publishing builder has compared. */
  lemma OthersLeaveAlone(s: State, p: nat, e: Event, t: State, q: nat, name: string)
    requires Excluded(s) && Steps(s, p, e, t) && q != p && q in s.processes
    requires Placed(s.processes[q]) && s.processes[q].role.Builder?
    requires forall m :: m in s.processes ==> Informed(s, s.processes[m])
    ensures var key := (s.processes[q].role.build, name);
            (key in t.link <==> key in s.link) && (key in s.link ==> t.link[key] == s.link[key])
            && (key in t.bin <==> key in s.bin) && (key in s.bin ==> t.bin[key] == s.bin[key])
  {
    var build := s.processes[q].role.build;
    PlacedHolds(s.processes[q], build);
    if p in s.processes && Placed(s.processes[p]) {
      var it := s.processes[p];
      PlacedHolds(it, build);
      if it.role.Builder? && it.role.build == build {
        OneOwner(s, p, q, ModeOf(build), Exclusive, Exclusive);
      } else if it.role.TagCleaner? && it.role.tag == build.tag {
        OneOwner(s, p, q, ModeOf(build), Exclusive, Exclusive);
      } else if it.role.AllCleaner? {
        OneOwner(s, p, q, All, Exclusive, Shared);
      }
    }
  }

  lemma OtherStaysInformed(s: State, p: nat, e: Event, t: State, q: nat)
    requires Invariant(s) && Steps(s, p, e, t) && q != p && q in s.processes && q in t.processes
    ensures Informed(t, t.processes[q])
  {
    assert t.processes[q] == s.processes[q] && Informed(s, s.processes[q]);
    if Placed(s.processes[q]) && s.processes[q].role.Builder? {
      forall name
        ensures Stale(t, s.processes[q].role.build, name) <==> Stale(s, s.processes[q].role.build, name)
        ensures (s.processes[q].role.build, name) in t.link <==> (s.processes[q].role.build, name) in s.link
      {
        OthersLeaveAlone(s, p, e, t, q, name);
      }
    }
  }

  lemma CompareInforms(s: State, p: nat, it: Process)
    requires p in s.processes && s.processes[p] == it && it.role.Builder? && it.stage.Comparing? && Informed(s, it)
    ensures var t := Compared(s, p, it); p in t.processes ==> Informed(t, t.processes[p])
  {
    var names, done := it.stage.names, it.stage.done;
    if done < |names| {
      assert names[..done + 1] == names[..done] + [names[done]];
    } else {
      assert names[..done] == names;
    }
  }

  lemma ReplaceInforms(s: State, p: nat, t: State)
    requires p in s.processes && Steps(s, p, Replace, t) && Informed(s, s.processes[p])
    ensures Informed(t, t.processes[p])
  {
    var it := s.processes[p];
    var build, names, todo := it.role.build, it.stage.names, it.stage.todo;
    assert todo == [todo[0]] + todo[1..];
    forall n | n in names && Stale(t, build, n)
      ensures n in todo[1..]
    {
      assert n != todo[0];
      assert Stale(s, build, n);
    }
  }

  lemma StepInforms(s: State, p: nat, e: Event, t: State)
    requires Invariant(s) && Steps(s, p, e, t) && p in t.processes
    ensures Informed(t, t.processes[p])
  {
    if e.Compare? {
      CompareInforms(s, p, s.processes[p]);
    } else if e.Replace? {
      assert Informed(s, s.processes[p]);
      ReplaceInforms(s, p, t);
    } else if !e.Start? {
      assert Informed(s, s.processes[p]);
    }
  }

  lemma StepKeeps(s: State, p: nat, e: Event, t: State)
    requires Invariant(s) && Steps(s, p, e, t)
    ensures Invariant(t)
  {
    StepExcludes(s, p, e, t);
    forall q | q in t.processes
      ensures Informed(t, t.processes[q])
    {
      if q == p {
        StepInforms(s, p, e, t);
      } else {
        OtherStaysInformed(s, p, e, t, q);
      }
    }
  }

  // ------------------------------------------------------------------
  // Runs

  /** A run: each state is a step of some process from the one before. */
  ghost predicate Run(states: seq<State>, moves: seq<(nat, Event)>) {
    |states| == |moves| + 1 &&
    forall i, j :: 0 <= i < |moves| && j == i + 1 ==> Steps(states[i], moves[i].0, moves[i].1, states[j])
  }

  lemma StepAt(states: seq<State>, moves: seq<(nat, Event)>, i: nat, j: nat)
    requires Run(states, moves) && i < |moves| && j == i + 1
    ensures Steps(states[i], moves[i].0, moves[i].1, states[j])
  {
  }

  lemma NothingIsFine(s: State)
    requires s.processes == map[]
    ensures Invariant(s)
  {
  }

  /** What each step of a run keeps holds all along it. */
  lemma {:induction false} KeptAlong(states: seq<State>, keeps: State -> bool, i: nat)
    requires i < |states| && keeps(states[0])
    requires forall k, j :: 0 <= k && j == k + 1 < |states| && keeps(states[k]) ==> keeps(states[j])
    ensures keeps(states[i])
    decreases i
  {
    if i > 0 {
      KeptAlong(states, keeps, i - 1);
    }
  }

  lemma RunKeeps(states: seq<State>, moves: seq<(nat, Event)>, i: nat)
    requires Run(states, moves) && states[0].processes == map[] && i < |states|
    ensures Invariant(states[i])
  {
    NothingIsFine(states[0]);
    forall k, j | 0 <= k && j == k + 1 < |states| && Invariant(states[k])
      ensures Invariant(states[j])
    {
      StepAt(states, moves, k, j);
      StepKeeps(states[k], moves[k].0, moves[k].1, states[j]);
    }
    KeptAlong(states, s => Invariant(s), i);
  }

  /** The executables a build has published are the same in both states. */
  ghost predicate SameExecutables(s: State, t: State, build: Build) {
    forall name :: ((build, name) in t.bin <==> (build, name) in s.bin)
                   && ((build, name) in s.bin ==> t.bin[(build, name)] == s.bin[(build, name)])
  }

  /** While a process holds a build's readers lock through `reading`, nobody replaces
      or removes that build's executables. */
  lemma ReaderUndisturbed(s: State, p: nat, e: Event, t: State, reader: nat, build: Build)
    requires Invariant(s) && Steps(s, p, e, t)
    requires reader in s.processes && s.processes[reader].role.Reader?
    requires Holds(s.processes[reader], (ReadersOf(build), Shared))
    ensures SameExecutables(s, t, build)
  {
    var it := s.processes[reader];
    var plan := Plan(it.role);
    ReaderHoldsAll(it.role.builds, if it.taken < |plan| then it.taken else |plan|, build);
    assert Holds(it, (All, Shared));
    if p in s.processes && p != reader {
      var other := s.processes[p];
      assert Informed(s, other);
      if e.Replace? && other.role.build == build {
        OneOwner(s, p, reader, ReadersOf(build), Exclusive, Shared);
      } else if e.Remove? {
        PlacedHolds(other, build);
        if other.role.AllCleaner? {
          OneOwner(s, p, reader, All, Exclusive, Shared);
        } else if other.role.tag == build.tag {
          OneOwner(s, p, reader, ReadersOf(build), Exclusive, Shared);
        }
      }
    }
  }

  /** So over any part of a run through which it keeps the lock, a reader finds the
      executables it started with. */
  lemma {:induction false} ReaderFindsItsExecutables(states: seq<State>, moves: seq<(nat, Event)>, reader: nat,
                                                     build: Build, i: nat, j: nat)
    requires Run(states, moves) && states[0].processes == map[] && i <= j < |states|
    requires forall k :: i <= k <= j ==>
               reader in states[k].processes && states[k].processes[reader].role.Reader?
               && Holds(states[k].processes[reader], (ReadersOf(build), Shared))
    ensures SameExecutables(states[i], states[j], build)
    decreases j - i
  {
    if i < j {
      var k := j - 1;
      ReaderFindsItsExecutables(states, moves, reader, build, i, k);
      RunKeeps(states, moves, k);
      StepAt(states, moves, k, j);
      ReaderUndisturbed(states[k], moves[k].0, moves[k].1, states[j], reader, build);
    }
  }

  /** The list of changed executables was computed before the readers lock was
      asked for, and is still exact when the lock is granted. */
  lemma ChangedIsStillExact(s: State, p: nat, t: State)
    requires Invariant(s) && Steps(s, p, Take, t) && s.processes[p].stage.Waiting? && Placed(s.processes[p])
    ensures var it := t.processes[p];
            it.stage.Replacing? && Listed(t, it.role.build, it.stage.names, it.stage.todo)
  {
    assert Informed(s, s.processes[p]);
  }

  /** When the renames are done, bin holds exactly what was linked, name by name. */
  lemma PublishedIsLinked(s: State, p: nat, t: State)
    requires Invariant(s) && Steps(s, p, Finish, t)
    ensures forall name :: name in s.processes[p].stage.names ==>
              var key := (s.processes[p].role.build, name);
              key in t.link && key in t.bin && t.bin[key] == t.link[key]
  {
    assert Informed(s, s.processes[p]);
    var it := s.processes[p];
    forall name | name in it.stage.names
      ensures var key := (it.role.build, name); key in t.link && key in t.bin && t.bin[key] == t.link[key]
    {
      assert !Stale(s, it.role.build, name);
    }
  }

  /** The same when nothing had changed and no lock was asked for. */
  lemma UnchangedIsLinked(s: State, p: nat, t: State)
    requires Invariant(s) && Steps(s, p, Compare, t) && p in t.processes && t.processes[p].stage.Working?
    ensures forall name :: name in s.processes[p].stage.names ==>
              var key := (s.processes[p].role.build, name);
              key in t.link && key in t.bin && t.bin[key] == t.link[key]
  {
    assert Informed(s, s.processes[p]);
    var it := s.processes[p];
    assert it.stage.names[..it.stage.done] == it.stage.names;
    forall name | name in it.stage.names
      ensures var key := (it.role.build, name); key in t.link && key in t.bin && t.bin[key] == t.link[key]
    {
      assert !Stale(s, it.role.build, name);
    }
  }
}
