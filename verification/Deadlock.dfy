/** Exactly when the build locks can deadlock: it depends only on what the readers
    that are allowed ask for, one `reading` call after another. */
module Deadlocks {

  import opened Options
  import opened Locks

  /** The reader plans that may be started. */
  type Plans = seq<Build> -> bool

  ghost predicate Permits(plans: Plans, s: State) {
    forall p :: p in s.processes && s.processes[p].role.Reader? ==> plans(s.processes[p].role.builds)
  }

  /** A run from idle, whatever the files, in which only such readers are started. */
  ghost predicate Allowed(plans: Plans, states: seq<State>, moves: seq<(nat, Event)>) {
    Run(states, moves) && states[0].processes == map[] && forall i :: 0 <= i < |states| ==> Permits(plans, states[i])
  }

  ghost predicate Reachable(plans: Plans, s: State) {
    exists states, moves :: Allowed(plans, states, moves) && states[|moves|] == s
  }

  /** Processes there are, and every one of them is waiting for another. */
  ghost predicate Stuck(s: State) {
    s.processes != map[] && forall p :: p in s.processes ==> Blocked(s, p)
  }

  function After(i: nat, n: nat): nat {
    if i + 1 < n then i + 1 else 0
  }

  /** At `at`, the plan asks for the debug build of `to`, and has asked for the release
      build of `held` before, and for no debug build of the tags. */
  predicate Asks(plan: seq<Build>, at: nat, held: string, to: string, tags: seq<string>) {
    && at < |plan| && plan[at] == Build(to, Debug) && Build(held, Release) in plan[..at]
    && forall tag :: tag in tags ==> Build(tag, Debug) !in plan[..at]
  }

  ghost predicate Distinct(tags: seq<string>) {
    forall i, j :: 0 <= i < j < |tags| ==> tags[i] != tags[j]
  }

  /** A ring of tags, each with a reader that has its release build and asks for the
      debug build of the next. */
  ghost predicate Crossing(plans: Plans, tags: seq<string>, ring: seq<seq<Build>>, at: seq<nat>) {
    && 0 < |tags| == |ring| == |at| && Distinct(tags)
    && forall i :: 0 <= i < |tags| ==>
         plans(ring[i]) && Asks(ring[i], at[i], tags[i], tags[After(i, |tags|)], tags)
  }

  ghost predicate Crosses(plans: Plans) {
    exists tags, ring, at :: Crossing(plans, tags, ring, at)
  }

  // ------------------------------------------------------------------
  // Plans by place

  lemma {:induction false} ReadingPlanAt(builds: seq<Build>, i: nat)
    requires i < |builds|
    ensures |ReadingPlan(builds)| == 2 * |builds|
    ensures ReadingPlan(builds)[2 * i] == (All, Shared)
    ensures ReadingPlan(builds)[2 * i + 1] == (ReadersOf(builds[i]), Shared)
  {
    if |builds| > 1 {
      ReadingPlanAt(builds[1..], if i > 0 then i - 1 else 0);
    }
  }

  lemma {:induction false} ReadingPlanLength(builds: seq<Build>)
    ensures |ReadingPlan(builds)| == 2 * |builds|
  {
    if builds != [] {
      ReadingPlanLength(builds[1..]);
    }
  }

  /** What a reader that has taken so many locks of its plan has. */
  lemma ReaderHas(builds: seq<Build>, taken: nat, build: Build)
    requires taken <= 2 * |builds| == |ReadingPlan(builds)|
    ensures (ReadersOf(build), Shared) in ReadingPlan(builds)[..taken] <==> build in builds[..taken / 2]
  {
    var plan := ReadingPlan(builds);
    if (ReadersOf(build), Shared) in plan[..taken] {
      var k :| 0 <= k < taken && plan[k] == (ReadersOf(build), Shared);
      ReadingPlanAt(builds, k / 2);
      assert builds[..taken / 2][k / 2] == build;
    }
    if build in builds[..taken / 2] {
      var i :| 0 <= i < taken / 2 && builds[i] == build;
      ReadingPlanAt(builds, i);
      assert plan[..taken][2 * i + 1] == (ReadersOf(build), Shared);
    }
  }

  // ------------------------------------------------------------------
  // From a stuck state to a ring

  /** A process waiting for a lock, in a state the invariant allows. */
  predicate Waits(it: Process) {
    Wanted(it).Some? && (it.stage.Working? || (Placed(it) && it.role.Builder?))
  }

  lemma StuckWaits(s: State, p: nat)
    requires Invariant(s) && Stuck(s) && p in s.processes
    ensures Waits(s.processes[p]) && Blocked(s, p)
  {
    assert Informed(s, s.processes[p]);
  }

  lemma Blocker(s: State, p: nat) returns (q: nat, kind: Kind)
    requires p in s.processes && Blocked(s, p)
    ensures var wanted := Wanted(s.processes[p]).value;
            q in s.processes && q != p && Holds(s.processes[q], (wanted.0, kind)) && !Compatible(wanted.1, kind)
  {
    var wanted := Wanted(s.processes[p]).value;
    q, kind :| q in s.processes && q != p && Holds(s.processes[q], (wanted.0, kind)) && !Compatible(wanted.1, kind);
  }

  /** Who waits with a readers lock: readers, and a cleaner that has the debug one and
      waits for the release one. */
  lemma ReadersLockHeld(it: Process, build: Build, kind: Kind)
    requires Waits(it) && Holds(it, (ReadersOf(build), kind))
    ensures if it.role.Reader? then kind.Shared?
            else kind.Exclusive? && it.role.TagCleaner? && it.taken == 4 && build == Build(it.role.tag, Debug)
  {
    PlansAre(it.role);
    if it.role.Reader? {
      ReadingIsShared(it.role.builds, (ReadersOf(build), kind));
    }
  }

  /** Nobody waits with the global lock to itself. */
  lemma GlobalLockShared(it: Process, kind: Kind)
    requires Waits(it) && Holds(it, (All, kind))
    ensures kind.Shared?
  {
    PlansAre(it.role);
    if it.role.Reader? {
      ReadingIsShared(it.role.builds, (All, kind));
    }
  }

  lemma ReaderWants(it: Process)
    requires Waits(it) && it.role.Reader?
    ensures var wanted := Wanted(it).value; wanted.1.Shared? && (wanted.0.All? || wanted.0.ReadersOf?)
  {
    assert Wanted(it).value in Plan(it.role);
    ReadingIsShared(it.role.builds, Wanted(it).value);
  }

  lemma CleanerWants(it: Process)
    requires it.role.TagCleaner? && it.taken == 4
    ensures Wanted(it) == Some((ReadersOf(Build(it.role.tag, Release)), Exclusive))
    ensures Holds(it, (ReadersOf(Build(it.role.tag, Debug)), Exclusive))
  {
    PlansAre(it.role);
    assert Plan(it.role)[..4][3] == (ReadersOf(Build(it.role.tag, Debug)), Exclusive);
  }

  predicate WantsDebug(it: Process, tag: string) {
    it.role.Reader? && Wanted(it) == Some((ReadersOf(Build(tag, Debug)), Shared))
  }

  predicate HasRelease(it: Process, tag: string) {
    it.role.Reader? && Holds(it, (ReadersOf(Build(tag, Release)), Shared))
  }

  predicate Cleans(it: Process, tag: string) {
    it.role == TagCleaner(tag) && it.taken == 4
  }

  /** A stuck reader waits for a cleaner. */
  lemma NextCleaner(s: State, r: nat) returns (tag: string, c: nat)
    requires Invariant(s) && Stuck(s) && r in s.processes && s.processes[r].role.Reader?
    ensures WantsDebug(s.processes[r], tag) && c in s.processes && Cleans(s.processes[c], tag)
  {
    StuckWaits(s, r);
    ReaderWants(s.processes[r]);
    var kind;
    c, kind := Blocker(s, r);
    StuckWaits(s, c);
    var it, lock := s.processes[c], Wanted(s.processes[r]).value.0;
    if lock == All {
      GlobalLockShared(it, kind);
    } else {
      ReadersLockHeld(it, lock.build, kind);
    }
    tag := it.role.tag;
  }

  /** And the cleaner for another reader. */
  lemma NextReader(s: State, c: nat, tag: string) returns (r: nat)
    requires Invariant(s) && Stuck(s) && c in s.processes && Cleans(s.processes[c], tag)
    ensures r in s.processes && HasRelease(s.processes[r], tag)
  {
    StuckWaits(s, c);
    CleanerWants(s.processes[c]);
    var kind;
    r, kind := Blocker(s, c);
    StuckWaits(s, r);
    ReadersLockHeld(s.processes[r], Build(tag, Release), kind);
  }

  /** Where a lock stands in the order all, mode, readers; debug before release. */
  function RankOf(lock: Lock): nat {
    match lock
    case All => 0
    case ModeOf(build) => if build.mode.Debug? then 1 else 2
    case ReadersOf(build) => if build.mode.Debug? then 3 else 4
  }

  /** A waiting builder or cleaner wants a lock above those it holds. */
  lemma WaitsUpward(it: Process, held: Claim)
    requires Waits(it) && !it.role.Reader? && Holds(it, held)
    ensures RankOf(held.0) < RankOf(Wanted(it).value.0) <= 4
  {
    PlansAre(it.role);
  }

  function Above(it: Process): nat {
    if Wanted(it).Some? then 5 - RankOf(Wanted(it).value.0) else 0
  }

  /** Follow the holders of wanted locks upward: there is a reader among them. */
  lemma {:induction false} SomeReader(s: State, p: nat) returns (r: nat)
    requires Invariant(s) && Stuck(s) && p in s.processes
    ensures r in s.processes && s.processes[r].role.Reader?
    decreases Above(s.processes[p])
  {
    if s.processes[p].role.Reader? {
      return p;
    }
    StuckWaits(s, p);
    var holder, kind := Blocker(s, p);
    StuckWaits(s, holder);
    if s.processes[holder].role.Reader? {
      return holder;
    }
    WaitsUpward(s.processes[holder], (Wanted(s.processes[p]).value.0, kind));
    r := SomeReader(s, holder);
  }

  /** A tag being cleaned: who has its release build, who cleans it, and the tag that
      reader waits for. */
  datatype Link = Link(reader: nat, cleaner: nat, next: string)

  ghost predicate Linked(s: State, tag: string, link: Link) {
    && link.reader in s.processes && link.cleaner in s.processes && Cleans(s.processes[link.cleaner], tag)
    && HasRelease(s.processes[link.reader], tag) && WantsDebug(s.processes[link.reader], link.next)
  }

  ghost function CleanedTags(s: State): set<string> {
    set p | p in s.processes && s.processes[p].role.TagCleaner? && s.processes[p].taken == 4 :: s.processes[p].role.tag
  }

  lemma LinkOf(s: State, tag: string) returns (link: Link)
    requires Invariant(s) && Stuck(s) && tag in CleanedTags(s)
    ensures Linked(s, tag, link) && link.next in CleanedTags(s)
  {
    var cleaner :| cleaner in s.processes && Cleans(s.processes[cleaner], tag);
    var reader := NextReader(s, cleaner, tag);
    var next, c := NextCleaner(s, reader);
    link := Link(reader, cleaner, next);
    assert s.processes[c].role.tag == next;
  }

  /** A link for every tag being cleaned. */
  ghost predicate Links(s: State, links: map<string, Link>) {
    forall tag :: tag in links ==> Linked(s, tag, links[tag])
  }

  predicate LeadsOn(links: map<string, Link>, tag: string) {
    tag in links ==> links[tag].next in links
  }

  ghost predicate Closed(links: map<string, Link>) {
    forall tag :: LeadsOn(links, tag)
  }

  lemma Choose(tags: set<string>, fits: (string, Link) -> bool) returns (links: map<string, Link>)
    requires forall tag :: tag in tags ==> exists link :: fits(tag, link)
    ensures links.Keys == tags && forall tag :: tag in links ==> fits(tag, links[tag])
  {
    links := map[];
    var left := tags;
    while left != {}
      invariant left <= tags && links.Keys == tags - left && forall tag :: tag in links ==> fits(tag, links[tag])
      decreases left
    {
      var tag :| tag in left;
      var link :| fits(tag, link);
      links, left := links[tag := link], left - {tag};
    }
  }

  lemma AllLinks(s: State) returns (links: map<string, Link>)
    requires Invariant(s) && Stuck(s)
    ensures Links(s, links) && Closed(links) && links.Keys == CleanedTags(s)
  {
    var tags := CleanedTags(s);
    var fits := (tag: string, link: Link) => Linked(s, tag, link) && link.next in tags;
    forall tag | tag in tags
      ensures exists link :: fits(tag, link)
    {
      var link := LinkOf(s, tag);
      assert fits(tag, link);
    }
    links := Choose(tags, fits);
    forall tag | tag in links
      ensures Linked(s, tag, links[tag]) && LeadsOn(links, tag)
    {
      assert fits(tag, links[tag]);
    }
  }

  /** The tags from one on, each waiting for the next. */
  ghost predicate Trail(links: map<string, Link>, tags: seq<string>) {
    && Distinct(tags) && (forall i :: 0 <= i < |tags| ==> tags[i] in links)
    && forall i, j :: 0 <= i && j == i + 1 < |tags| ==> links[tags[i]].next == tags[j]
  }

  ghost predicate Ring(links: map<string, Link>, tags: seq<string>) {
    && 0 < |tags| && Distinct(tags)
    && forall i :: 0 <= i < |tags| ==> tags[i] in links && links[tags[i]].next == tags[After(i, |tags|)]
  }

  ghost function Elements(tags: seq<string>): set<string> {
    set tag | tag in tags
  }

  /** Follow the links until a tag comes again. */
  lemma {:induction false} FollowLinks(links: map<string, Link>, tags: seq<string>) returns (ring: seq<string>)
    requires Closed(links) && tags != [] && Trail(links, tags)
    ensures Ring(links, ring)
    decreases links.Keys - Elements(tags)
  {
    var n := |tags|;
    assert LeadsOn(links, tags[n - 1]);
    var next := links[tags[n - 1]].next;
    if next in tags {
      var m :| 0 <= m < n && tags[m] == next;
      ring := tags[m..];
      forall i | 0 <= i < |ring|
        ensures ring[i] in links && links[ring[i]].next == ring[After(i, |ring|)]
      {
        assert ring[i] == tags[m + i];
      }
    } else {
      assert Elements(tags + [next]) == Elements(tags) + {next};
      ring := FollowLinks(links, tags + [next]);
    }
  }

  lemma RingFrom(links: map<string, Link>, tag: string) returns (ring: seq<string>)
    requires Closed(links) && tag in links
    ensures Ring(links, ring)
  {
    ring := FollowLinks(links, [tag]);
  }

  /** A reader waiting in a ring asks for what the ring needs. */
  lemma ReaderAsks(s: State, links: map<string, Link>, tags: seq<string>, i: nat)
    requires Invariant(s) && Links(s, links) && Ring(links, tags) && i < |tags|
    ensures var it := s.processes[links[tags[i]].reader];
            it.role.Reader? && Asks(it.role.builds, it.taken / 2, tags[i], tags[After(i, |tags|)], tags)
  {
    var r := links[tags[i]].reader;
    var it := s.processes[r];
    assert Linked(s, tags[i], links[tags[i]]);
    WaitingReader(it, tags[i], tags[After(i, |tags|)]);
    forall tag | tag in tags
      ensures Build(tag, Debug) !in it.role.builds[..it.taken / 2]
    {
      assert Linked(s, tag, links[tag]);
      CleanerExcludes(s, r, links[tag].cleaner, tag);
    }
  }

  lemma WaitingReader(it: Process, held: string, to: string)
    requires HasRelease(it, held) && WantsDebug(it, to)
    ensures var builds, at := it.role.builds, it.taken / 2;
            && at < |builds| && it.taken < |ReadingPlan(builds)| == 2 * |builds| && builds[at] == Build(to, Debug)
            && Build(held, Release) in builds[..at]
  {
    var builds := it.role.builds;
    ReadingPlanLength(builds);
    ReadingPlanAt(builds, it.taken / 2);
    ReaderHas(builds, it.taken, Build(held, Release));
  }

  /** While a cleaner has the debug readers lock, no reader does. */
  lemma CleanerExcludes(s: State, r: nat, c: nat, tag: string)
    requires Invariant(s) && r in s.processes && c in s.processes && Cleans(s.processes[c], tag)
    requires var it := s.processes[r];
             it.role.Reader? && it.taken < |ReadingPlan(it.role.builds)| == 2 * |it.role.builds|
    ensures var it := s.processes[r]; Build(tag, Debug) !in it.role.builds[..it.taken / 2]
  {
    var it, build := s.processes[r], Build(tag, Debug);
    CleanerWants(s.processes[c]);
    ReaderHas(it.role.builds, it.taken, build);
    if Holds(it, (ReadersOf(build), Shared)) {
      OneOwner(s, c, r, ReadersOf(build), Exclusive, Shared);
    }
  }

  lemma SomeTag(s: State) returns (tag: string)
    requires Invariant(s) && Stuck(s)
    ensures tag in CleanedTags(s)
  {
    var p :| p in s.processes;
    var r := SomeReader(s, p);
    var c;
    tag, c := NextCleaner(s, r);
    assert s.processes[c].role.tag == tag;
  }

  lemma StuckRing(s: State) returns (links: map<string, Link>, tags: seq<string>)
    requires Invariant(s) && Stuck(s)
    ensures Links(s, links) && Ring(links, tags)
  {
    links := AllLinks(s);
    var tag := SomeTag(s);
    tags := RingFrom(links, tag);
  }

  /** Whatever is stuck, some of its readers form a ring. */
  lemma StuckCrosses(plans: Plans, s: State)
    requires Invariant(s) && Stuck(s) && Permits(plans, s)
    ensures Crosses(plans)
  {
    var links, tags := StuckRing(s);
    RingCrosses(plans, s, links, tags);
  }

  lemma RingCrosses(plans: Plans, s: State, links: map<string, Link>, tags: seq<string>)
    requires Invariant(s) && Permits(plans, s) && Links(s, links) && Ring(links, tags)
    ensures Crosses(plans)
  {
    var n := |tags|;
    forall i | 0 <= i < n
      ensures links[tags[i]].reader in s.processes && s.processes[links[tags[i]].reader].role.Reader?
    {
      ReaderAsks(s, links, tags, i);
    }
    var ring := seq(n, i requires 0 <= i < n => s.processes[links[tags[i]].reader].role.builds);
    var at := seq(n, i requires 0 <= i < n => s.processes[links[tags[i]].reader].taken / 2);
    forall i | 0 <= i < n
      ensures plans(ring[i]) && Asks(ring[i], at[i], tags[i], tags[After(i, n)], tags)
    {
      ReaderAsks(s, links, tags, i);
    }
    assert Crossing(plans, tags, ring, at);
  }

  // ------------------------------------------------------------------
  // From a ring to a stuck state

  /** The readers of a ring first, and then a cleaner of each tag. */
  function RoleAt(ring: seq<seq<Build>>, tags: seq<string>, i: nat): Role
    requires i < |ring| + |tags|
  {
    if i < |ring| then Reader(ring[i]) else TagCleaner(tags[i - |ring|])
  }

  /** The first of them, with so many locks each. */
  function Standing(ring: seq<seq<Build>>, tags: seq<string>, takens: seq<nat>): State
    requires |takens| <= |ring| + |tags|
  {
    State(map i: nat | i < |takens| :: Process(RoleAt(ring, tags, i), takens[i], Working), map[], map[])
  }

  /** A reader stops before its debug lock, a cleaner before its release lock. */
  function Goals(at: seq<nat>, n: nat): (goals: seq<nat>)
    ensures |goals| == |at| + n
  {
    seq(|at| + n, i requires 0 <= i => if i < |at| then 2 * at[i] + 1 else 4)
  }

  /** Another lock for the last of them. */
  lemma StandingTakes(ring: seq<seq<Build>>, tags: seq<string>, takens: seq<nat>, t: nat)
    requires |takens| < |ring| + |tags|
    requires var s, i := Standing(ring, tags, takens + [t]), |takens|;
             t < |Plan(RoleAt(ring, tags, i))| && Grantable(s, i, Plan(RoleAt(ring, tags, i))[t])
    ensures Steps(Standing(ring, tags, takens + [t]), |takens|, Take, Standing(ring, tags, takens + [t + 1]))
  {
    var s, i := Standing(ring, tags, takens + [t]), |takens|;
    var after := Process(RoleAt(ring, tags, i), t + 1, Working);
    assert WithProcess(s, i, after) == Standing(ring, tags, takens + [t + 1]);
  }

  lemma StandingStarts(ring: seq<seq<Build>>, tags: seq<string>, takens: seq<nat>)
    requires |takens| < |ring| + |tags|
    ensures Steps(Standing(ring, tags, takens), |takens|, Start(RoleAt(ring, tags, |takens|)),
                  Standing(ring, tags, takens + [0]))
  {
    var s, i := Standing(ring, tags, takens), |takens|;
    var started := Process(RoleAt(ring, tags, i), 0, Working);
    assert WithProcess(s, i, started) == Standing(ring, tags, takens + [0]);
  }

  /** What a reader or a cleaner short of its goal has. */
  lemma HeldShort(it: Process, claim: Claim)
    requires it.stage.Working? && Holds(it, claim)
    ensures it.role.Reader? ==> claim.1.Shared? && (claim.0.All? || claim.0.ReadersOf?)
    ensures it.role.TagCleaner? && it.taken <= 4 ==>
              claim == (All, Shared) || claim.0 == ReadersOf(Build(it.role.tag, Debug))
              || (claim.0.ModeOf? && claim.0.build.tag == it.role.tag)
  {
    PlansAre(it.role);
    if it.role.Reader? {
      ReadingIsShared(it.role.builds, claim);
    }
  }

  /** The others let a reader of the ring take what it asks for. */
  lemma ReaderIsGranted(ring: seq<seq<Build>>, tags: seq<string>, takens: seq<nat>, t: nat)
    requires |takens| < |ring| && t < |ReadingPlan(ring[|takens|])|
    ensures Grantable(Standing(ring, tags, takens + [t]), |takens|, ReadingPlan(ring[|takens|])[t])
  {
    var s, i := Standing(ring, tags, takens + [t]), |takens|;
    var claim := ReadingPlan(ring[i])[t];
    assert claim in ReadingPlan(ring[i]);
    ReadingIsShared(ring[i], claim);
    forall q, kind | q in s.processes && q != i && Holds(s.processes[q], (claim.0, kind))
      ensures Compatible(claim.1, kind)
    {
      HeldShort(s.processes[q], (claim.0, kind));
    }
  }

  /** The first four locks of a tag cleaner, against what a process of the ring holds. */
  lemma CleanerPasses(it: Process, tag: string, t: nat, kind: Kind)
    requires it.stage.Working? && t < |Plan(TagCleaner(tag))| == 5 && t < 4
    requires Holds(it, (Plan(TagCleaner(tag))[t].0, kind))
    requires it.role.TagCleaner? ==> it.taken <= 4 && it.role.tag != tag
    requires it.role.Reader? && t == 3 ==> !Holds(it, (ReadersOf(Build(tag, Debug)), Shared))
    requires it.role.Reader? || it.role.TagCleaner?
    ensures Compatible(Plan(TagCleaner(tag))[t].1, kind)
  {
    PlansAre(TagCleaner(tag));
    HeldShort(it, (Plan(TagCleaner(tag))[t].0, kind));
  }

  /** And a cleaner too, up to its goal. */
  lemma CleanerIsGranted(plans: Plans, tags: seq<string>, ring: seq<seq<Build>>, at: seq<nat>, i: nat, t: nat)
    requires Crossing(plans, tags, ring, at) && |ring| <= i < |ring| + |tags| && t < 4
    ensures var role := TagCleaner(tags[i - |ring|]);
            |Plan(role)| == 5 && Grantable(Standing(ring, tags, Goals(at, |tags|)[..i] + [t]), i, Plan(role)[t])
  {
    var tag, k := tags[i - |ring|], |ring|;
    var s := Standing(ring, tags, Goals(at, |tags|)[..i] + [t]);
    PlansAre(TagCleaner(tag));
    var claim := Plan(TagCleaner(tag))[t];
    forall q, kind | q in s.processes && q != i && Holds(s.processes[q], (claim.0, kind))
      ensures Compatible(claim.1, kind)
    {
      if q >= k {
        assert tags[q - k] != tags[i - k];
      } else if t == 3 {
        RingReaderHas(plans, tags, ring, at, q, tag);
      }
      CleanerPasses(s.processes[q], tag, t, kind);
    }
  }

  /** No reader of the ring gets a debug lock of its tags. */
  lemma RingReaderHas(plans: Plans, tags: seq<string>, ring: seq<seq<Build>>, at: seq<nat>, i: nat, tag: string)
    requires Crossing(plans, tags, ring, at) && i < |ring| && tag in tags
    ensures var it := Process(Reader(ring[i]), 2 * at[i] + 1, Working);
            && !Holds(it, (ReadersOf(Build(tag, Debug)), Shared))
            && Holds(it, (ReadersOf(Build(tags[i], Release)), Shared))
            && Wanted(it) == Some((ReadersOf(Build(tags[After(i, |tags|)], Debug)), Shared))
  {
    ReadingPlanAt(ring[i], at[i]);
    ReaderHas(ring[i], 2 * at[i] + 1, Build(tag, Debug));
    ReaderHas(ring[i], 2 * at[i] + 1, Build(tags[i], Release));
  }

  lemma BlockedBy(s: State, p: nat, q: nat, wanted: Claim, kind: Kind)
    requires p in s.processes && q in s.processes && q != p && Wanted(s.processes[p]) == Some(wanted)
    requires Holds(s.processes[q], (wanted.0, kind)) && !Compatible(wanted.1, kind)
    ensures Blocked(s, p)
  {
  }

  lemma StandingMember(ring: seq<seq<Build>>, tags: seq<string>, takens: seq<nat>, i: nat)
    requires |takens| <= |ring| + |tags| && i < |takens|
    ensures var s := Standing(ring, tags, takens);
            i in s.processes && s.processes[i] == Process(RoleAt(ring, tags, i), takens[i], Working)
  {
  }

  lemma WaitsForCleaner(s: State, r: nat, c: nat, tag: string)
    requires r in s.processes && c in s.processes && r != c && WantsDebug(s.processes[r], tag)
    requires Cleans(s.processes[c], tag)
    ensures Blocked(s, r)
  {
    CleanerWants(s.processes[c]);
    BlockedBy(s, r, c, (ReadersOf(Build(tag, Debug)), Shared), Exclusive);
  }

  lemma WaitsForReader(s: State, c: nat, r: nat, tag: string)
    requires r in s.processes && c in s.processes && r != c && HasRelease(s.processes[r], tag)
    requires Cleans(s.processes[c], tag)
    ensures Blocked(s, c)
  {
    CleanerWants(s.processes[c]);
    BlockedBy(s, c, r, (ReadersOf(Build(tag, Release)), Exclusive), Shared);
  }

  /** Who is at its goal wants what a ring wants. */
  lemma AtGoal(plans: Plans, tags: seq<string>, ring: seq<seq<Build>>, at: seq<nat>, i: nat)
    requires Crossing(plans, tags, ring, at) && i < |ring|
    ensures var s := Standing(ring, tags, Goals(at, |tags|));
            && i in s.processes && |ring| + i in s.processes
            && WantsDebug(s.processes[i], tags[After(i, |tags|)]) && HasRelease(s.processes[i], tags[i])
            && Cleans(s.processes[|ring| + i], tags[i])
  {
    StandingMember(ring, tags, Goals(at, |tags|), i);
    StandingMember(ring, tags, Goals(at, |tags|), |ring| + i);
    ReaderAtGoal(plans, tags, ring, at, i);
    CleanerAtGoal(ring, tags, at, i);
  }

  lemma ReaderAtGoal(plans: Plans, tags: seq<string>, ring: seq<seq<Build>>, at: seq<nat>, i: nat)
    requires Crossing(plans, tags, ring, at) && i < |ring|
    ensures var it := Process(RoleAt(ring, tags, i), Goals(at, |tags|)[i], Working);
            WantsDebug(it, tags[After(i, |tags|)]) && HasRelease(it, tags[i])
  {
    RingReaderHas(plans, tags, ring, at, i, tags[i]);
  }

  lemma CleanerAtGoal(ring: seq<seq<Build>>, tags: seq<string>, at: seq<nat>, i: nat)
    requires |ring| == |tags| == |at| && i < |ring|
    ensures Cleans(Process(RoleAt(ring, tags, |ring| + i), Goals(at, |tags|)[|ring| + i], Working), tags[i])
  {
  }

  /** Each reader waits for the next cleaner. */
  lemma ReaderBlocked(plans: Plans, tags: seq<string>, ring: seq<seq<Build>>, at: seq<nat>, i: nat)
    requires Crossing(plans, tags, ring, at) && i < |ring|
    ensures var s := Standing(ring, tags, Goals(at, |tags|)); i in s.processes && Blocked(s, i)
  {
    var next := After(i, |tags|);
    AtGoal(plans, tags, ring, at, i);
    AtGoal(plans, tags, ring, at, next);
    WaitsForCleaner(Standing(ring, tags, Goals(at, |tags|)), i, |ring| + next, tags[next]);
  }

  /** And each cleaner for its reader. */
  lemma CleanerBlocked(plans: Plans, tags: seq<string>, ring: seq<seq<Build>>, at: seq<nat>, i: nat)
    requires Crossing(plans, tags, ring, at) && i < |ring|
    ensures var s := Standing(ring, tags, Goals(at, |tags|)); |ring| + i in s.processes && Blocked(s, |ring| + i)
  {
    AtGoal(plans, tags, ring, at, i);
    WaitsForReader(Standing(ring, tags, Goals(at, |tags|)), |ring| + i, i, tags[i]);
  }

  /** All of them at their goals wait for each other. */
  lemma StandingIsStuck(plans: Plans, tags: seq<string>, ring: seq<seq<Build>>, at: seq<nat>)
    requires Crossing(plans, tags, ring, at)
    ensures Stuck(Standing(ring, tags, Goals(at, |tags|)))
  {
    var s, k := Standing(ring, tags, Goals(at, |tags|)), |ring|;
    assert 0 in s.processes;
    forall p | p in s.processes
      ensures Blocked(s, p)
    {
      if p < k {
        ReaderBlocked(plans, tags, ring, at, p);
      } else {
        CleanerBlocked(plans, tags, ring, at, p - k);
      }
    }
  }

  lemma StandingPermits(plans: Plans, tags: seq<string>, ring: seq<seq<Build>>, at: seq<nat>, takens: seq<nat>)
    requires Crossing(plans, tags, ring, at) && |takens| <= |ring| + |tags|
    ensures Permits(plans, Standing(ring, tags, takens))
  {
  }

  lemma Append(states: seq<State>, moves: seq<(nat, Event)>, p: nat, e: Event, t: State)
    requires Run(states, moves) && Steps(states[|moves|], p, e, t)
    ensures Run(states + [t], moves + [(p, e)])
  {
    var more, longer := states + [t], moves + [(p, e)];
    forall i, j | 0 <= i < |longer| && j == i + 1
      ensures Steps(more[i], longer[i].0, longer[i].1, more[j])
    {
      if i < |moves| {
        assert Steps(states[i], moves[i].0, moves[i].1, states[j]);
      }
    }
  }

  lemma AllowedAppend(plans: Plans, states: seq<State>, moves: seq<(nat, Event)>, p: nat, e: Event, t: State)
    requires Allowed(plans, states, moves) && Steps(states[|moves|], p, e, t) && Permits(plans, t)
    ensures Allowed(plans, states + [t], moves + [(p, e)])
  {
    Append(states, moves, p, e, t);
  }

  /** The members of a ring start one after another and take their locks. */
  lemma RingIsReachable(plans: Plans, tags: seq<string>, ring: seq<seq<Build>>, at: seq<nat>)
    returns (states: seq<State>, moves: seq<(nat, Event)>)
    requires Crossing(plans, tags, ring, at)
    ensures Allowed(plans, states, moves) && states[|moves|] == Standing(ring, tags, Goals(at, |tags|))
  {
    var goals := Goals(at, |tags|);
    assert Standing(ring, tags, []).processes == map[];
    states, moves := [Standing(ring, tags, [])], [];
    for i := 0 to |goals|
      invariant Allowed(plans, states, moves) && states[|moves|] == Standing(ring, tags, goals[..i])
    {
      states, moves := OneMore(plans, tags, ring, at, i, states, moves);
    }
    assert goals[..|goals|] == goals;
  }

  lemma Grow(plans: Plans, tags: seq<string>, ring: seq<seq<Build>>, at: seq<nat>, before: seq<State>,
             did: seq<(nat, Event)>, i: nat, e: Event, takens: seq<nat>)
    returns (states: seq<State>, moves: seq<(nat, Event)>)
    requires Crossing(plans, tags, ring, at) && |takens| <= |ring| + |tags| && Allowed(plans, before, did)
    requires Steps(before[|did|], i, e, Standing(ring, tags, takens))
    ensures Allowed(plans, states, moves) && states[|moves|] == Standing(ring, tags, takens)
  {
    var s := Standing(ring, tags, takens);
    StandingPermits(plans, tags, ring, at, takens);
    AllowedAppend(plans, before, did, i, e, s);
    states, moves := before + [s], did + [(i, e)];
  }

  /** The next member takes its locks. */
  lemma OneMore(plans: Plans, tags: seq<string>, ring: seq<seq<Build>>, at: seq<nat>, i: nat,
                before: seq<State>, did: seq<(nat, Event)>)
    returns (states: seq<State>, moves: seq<(nat, Event)>)
    requires Crossing(plans, tags, ring, at) && i < |ring| + |tags|
    requires Allowed(plans, before, did) && before[|did|] == Standing(ring, tags, Goals(at, |tags|)[..i])
    ensures Allowed(plans, states, moves) && states[|moves|] == Standing(ring, tags, Goals(at, |tags|)[..i + 1])
  {
    var goals := Goals(at, |tags|);
    var along := (k: nat) => MidWay(ring, tags, goals[..i], k);
    states, moves := OneStarts(plans, tags, ring, at, goals[..i], before, did);
    GoesOnward(plans, tags, ring, at, i, goals, along);
    states, moves := TakesUp(plans, along, i, goals[i], states, moves);
    assert goals[..i + 1] == goals[..i] + [goals[i]];
  }

  lemma OneStarts(plans: Plans, tags: seq<string>, ring: seq<seq<Build>>, at: seq<nat>, takens: seq<nat>,
                  before: seq<State>, did: seq<(nat, Event)>)
    returns (states: seq<State>, moves: seq<(nat, Event)>)
    requires Crossing(plans, tags, ring, at) && |takens| < |ring| + |tags|
    requires Allowed(plans, before, did) && before[|did|] == Standing(ring, tags, takens)
    ensures Allowed(plans, states, moves) && states[|moves|] == Standing(ring, tags, takens + [0])
  {
    StandingStarts(ring, tags, takens);
    var start := Start(RoleAt(ring, tags, |takens|));
    states, moves := Grow(plans, tags, ring, at, before, did, |takens|, start, takens + [0]);
  }

  lemma GoesOnward(plans: Plans, tags: seq<string>, ring: seq<seq<Build>>, at: seq<nat>, i: nat, goals: seq<nat>,
                   along: nat -> State)
    requires Crossing(plans, tags, ring, at) && i < |ring| + |tags| && goals == Goals(at, |tags|) && i < |goals|
    requires forall k: nat :: along(k) == MidWay(ring, tags, goals[..i], k)
    ensures forall k :: 0 <= k < goals[i] ==> Onward(plans, along, i, k)
  {
    forall k | 0 <= k < goals[i]
      ensures Onward(plans, along, i, k)
    {
      MemberTakes(plans, tags, ring, at, i, k);
      StandingPermits(plans, tags, ring, at, goals[..i] + [k + 1]);
    }
  }

  function MidWay(ring: seq<seq<Build>>, tags: seq<string>, done: seq<nat>, k: nat): State {
    if |done| < |ring| + |tags| then Standing(ring, tags, done + [k]) else State(map[], map[], map[])
  }

  ghost predicate Onward(plans: Plans, s: nat -> State, i: nat, k: nat) {
    Steps(s(k), i, Take, s(k + 1)) && Permits(plans, s(k + 1))
  }

  /** One process taking lock after lock. */
  lemma {:induction false} TakesUp(plans: Plans, s: nat -> State, i: nat, t: nat, before: seq<State>,
                                   did: seq<(nat, Event)>)
    returns (states: seq<State>, moves: seq<(nat, Event)>)
    requires Allowed(plans, before, did) && before[|did|] == s(0) && forall k :: 0 <= k < t ==> Onward(plans, s, i, k)
    ensures Allowed(plans, states, moves) && states[|moves|] == s(t)
    decreases t
  {
    if t == 0 {
      return before, did;
    }
    states, moves := TakesUp(plans, s, i, t - 1, before, did);
    assert Onward(plans, s, i, t - 1);
    AllowedAppend(plans, states, moves, i, Take, s(t));
    states, moves := states + [s(t)], moves + [(i, Take)];
  }

  lemma MemberTakes(plans: Plans, tags: seq<string>, ring: seq<seq<Build>>, at: seq<nat>, i: nat, t: nat)
    requires Crossing(plans, tags, ring, at) && i < |ring| + |tags| && t < Goals(at, |tags|)[i]
    ensures var done := Goals(at, |tags|)[..i];
            Steps(Standing(ring, tags, done + [t]), i, Take, Standing(ring, tags, done + [t + 1]))
  {
    var done := Goals(at, |tags|)[..i];
    if i < |ring| {
      ReadingPlanAt(ring[i], at[i]);
      ReaderIsGranted(ring, tags, done, t);
    } else {
      CleanerIsGranted(plans, tags, ring, at, i, t);
    }
    StandingTakes(ring, tags, done, t);
  }

  // ------------------------------------------------------------------
  // Exactly

  lemma ReachableIsInvariant(plans: Plans, s: State)
    requires Reachable(plans, s)
    ensures Invariant(s) && Permits(plans, s)
  {
    var states, moves :| Allowed(plans, states, moves) && states[|moves|] == s;
    RunKeeps(states, moves, |moves|);
  }

  /** The locks can deadlock exactly when some of the allowed reader plans form a ring. */
  lemma DeadlockExactly(plans: Plans)
    ensures (exists s :: Reachable(plans, s) && Stuck(s)) <==> Crosses(plans)
  {
    if s :| Reachable(plans, s) && Stuck(s) {
      ReachableIsInvariant(plans, s);
      StuckCrosses(plans, s);
    }
    if Crosses(plans) {
      var tags, ring, at :| Crossing(plans, tags, ring, at);
      var states, moves := RingIsReachable(plans, tags, ring, at);
      StandingIsStuck(plans, tags, ring, at);
      assert Reachable(plans, Standing(ring, tags, Goals(at, |tags|)));
    }
  }
}
