/** The lock protocol read off event by event: who holds a lock, when it is granted,
    when each event can happen, and what it makes of every process and every file. */
module LockForms {
  import opened Options
  import opened Locks

  // ------------------------------------------------------------------
  // Holding and granting

  /** A process holds what its plan names before the place it has reached, and a
      builder replacing executables its readers lock as well. */
  lemma HoldsExactly(p: Process, lock: Lock, kind: Kind)
    ensures Holds(p, (lock, kind)) <==>
            || (exists i :: 0 <= i < |Plan(p.role)| && i < p.taken && Plan(p.role)[i] == (lock, kind))
            || (p.role.Builder? && p.stage.Replacing? && lock == ReadersOf(p.role.build) && kind == Exclusive)
  {
    var plan := Plan(p.role);
    var taken := plan[..if p.taken < |plan| then p.taken else |plan|];
    if (lock, kind) in taken {
      var i :| 0 <= i < |taken| && taken[i] == (lock, kind);
      assert plan[i] == (lock, kind);
    }
    if i :| 0 <= i < |plan| && i < p.taken && plan[i] == (lock, kind) {
      assert taken[i] == (lock, kind);
    }
  }

  ghost predicate HeldByOther(s: State, p: nat, lock: Lock, kind: Kind) {
    exists q :: q in s.processes && q != p && Holds(s.processes[q], (lock, kind))
  }

  lemma Excludes(s: State, p: nat, q: nat, lock: Lock, mine: Kind, kind: Kind)
    requires q in s.processes && q != p && Holds(s.processes[q], (lock, kind))
    requires mine == Exclusive || kind == Exclusive
    ensures !Grantable(s, p, (lock, mine))
  {
    assert !Compatible((lock, mine).1, kind);
  }

  lemma SomeoneExcludes(s: State, p: nat, lock: Lock, mine: Kind)
    requires !Grantable(s, p, (lock, mine))
    ensures HeldByOther(s, p, lock, Exclusive) || (mine == Exclusive && HeldByOther(s, p, lock, Shared))
  {
    var q, kind :| q in s.processes && q != p && Holds(s.processes[q], (lock, kind)) && !Compatible(mine, kind);
    if kind == Shared {
      assert HeldByOther(s, p, lock, Shared);
    }
  }

  /** An exclusive lock is granted when no other process holds it, a shared one when
      none holds it exclusively. */
  lemma GrantedExactly(s: State, p: nat, lock: Lock, mine: Kind)
    ensures Grantable(s, p, (lock, mine)) <==>
            !HeldByOther(s, p, lock, Exclusive) && (mine == Exclusive ==> !HeldByOther(s, p, lock, Shared))
  {
    if !Grantable(s, p, (lock, mine)) {
      SomeoneExcludes(s, p, lock, mine);
    } else if HeldByOther(s, p, lock, Exclusive) {
      var q :| q in s.processes && q != p && Holds(s.processes[q], (lock, Exclusive));
      Excludes(s, p, q, lock, mine, Exclusive);
    } else if mine == Exclusive && HeldByOther(s, p, lock, Shared) {
      var q :| q in s.processes && q != p && Holds(s.processes[q], (lock, Shared));
      Excludes(s, p, q, lock, mine, Shared);
    }
  }

  // ------------------------------------------------------------------
  // What an event does

  /** What a map has for a key, if anything. */
  function At(files: Files, build: Build, name: string): Option<string> {
    if (build, name) in files then Some(files[(build, name)]) else None
  }

  /** The file is one that a cleaner of this role removes. */
  predicate Removes(role: Role, build: Build) {
    role == AllCleaner || role == TagCleaner(build.tag)
  }

  /** Every file after every event.  Linking and unlinking touch one linked file, a
      replacement copies one linked file, and a removal takes both files away from
      every build of the tag, or from all. */
  lemma FilesExactly(s: State, p: nat, e: Event, t: State, build: Build, name: string)
    requires Steps(s, p, e, t)
    ensures At(t.link, build, name) ==
            match e
            case LinkOne(n, content) =>
              if s.processes[p].role == Builder(build) && n == name then Some(content) else At(s.link, build, name)
            case UnlinkOne(n) =>
              if s.processes[p].role == Builder(build) && n == name then None else At(s.link, build, name)
            case Remove => if Removes(s.processes[p].role, build) then None else At(s.link, build, name)
            case _ => At(s.link, build, name)
    ensures At(t.bin, build, name) ==
            match e
            case Replace =>
              if s.processes[p].role == Builder(build) && s.processes[p].stage.todo[0] == name
              then At(s.link, build, name)
              else At(s.bin, build, name)
            case Remove => if Removes(s.processes[p].role, build) then None else At(s.bin, build, name)
            case _ => At(s.bin, build, name)
  {
  }

  /** Nobody else is touched. */
  lemma OthersStay(s: State, p: nat, e: Event, t: State, q: nat)
    requires Steps(s, p, e, t) && q != p
    ensures q in t.processes <==> q in s.processes
    ensures q in s.processes ==> t.processes[q] == s.processes[q]
  {
  }

  /** The process itself after every event: where it stands in its plan, and what it
      is doing. */
  lemma ProcessExactly(s: State, p: nat, e: Event, t: State)
    requires Steps(s, p, e, t) && !e.Start? && !e.Exit? && !e.Compare?
    ensures p in s.processes && p in t.processes
    ensures var it, after := s.processes[p], t.processes[p];
            && after.role == it.role
            && after.taken == (if e.Take? && it.taken < |Plan(it.role)| then it.taken + 1 else it.taken)
            && after.stage ==
               match e
               case Take =>
                 if it.taken < |Plan(it.role)| then it.stage else Replacing(it.stage.names, it.stage.changed)
               case Publish(names) => Comparing(names, 0, [])
               case Replace => Replacing(it.stage.names, it.stage.todo[1..])
               case Finish => Working
               case _ => it.stage
  {
  }

  /** A turn of the comparison.  A name that is not linked ends the process; a name
      whose executable is missing or other than the linked one is noted; behind the
      last name the builder waits for the readers lock, or is done when none was. */
  lemma ComparisonExactly(s: State, p: nat, t: State)
    requires Steps(s, p, Compare, t)
    ensures var it := s.processes[p];
            var build, names, done, changed := it.role.build, it.stage.names, it.stage.done, it.stage.changed;
            if done >= |names| then
              && p in t.processes && t.processes[p].role == it.role && t.processes[p].taken == it.taken
              && t.processes[p].stage == (if changed == [] then Working else Waiting(names, changed))
            else if At(s.link, build, names[done]) == None then p !in t.processes
            else
              && p in t.processes && t.processes[p].role == it.role && t.processes[p].taken == it.taken
              && t.processes[p].stage ==
                 Comparing(names, done + 1,
                           changed + if At(s.bin, build, names[done]) == At(s.link, build, names[done]) then []
                                     else [names[done]])
  {
  }

  lemma StartsAndExits(s: State, p: nat, e: Event, t: State)
    requires Steps(s, p, e, t)
    ensures e.Start? ==> p !in s.processes && p in t.processes && t.processes[p] == Process(e.role, 0, Working)
    ensures e.Exit? ==> p in s.processes && p !in t.processes
  {
  }

  // ------------------------------------------------------------------
  // When an event can happen

  ghost predicate CanDo(s: State, p: nat, e: Event) {
    exists t :: Steps(s, p, e, t)
  }

  /** Taking needs the grant: of the plan's next lock, or behind the plan of the
      readers lock, which only a builder with something to replace asks for. */
  lemma TakesWhenGranted(s: State, p: nat)
    ensures CanDo(s, p, Take) <==>
            && p in s.processes
            && var it := s.processes[p];
               if it.taken < |Plan(it.role)| then Grantable(s, p, Plan(it.role)[it.taken])
               else it.role.Builder? && it.stage.Waiting? && Grantable(s, p, (ReadersOf(it.role.build), Exclusive))
  {
    if p in s.processes && Wanted(s.processes[p]).Some? && Grantable(s, p, Wanted(s.processes[p]).value) {
      var it := s.processes[p];
      if it.taken < |Plan(it.role)| {
        assert Steps(s, p, Take, WithProcess(s, p, it.(taken := it.taken + 1)));
      } else {
        var after := it.(stage := Replacing(it.stage.names, it.stage.changed));
        assert Steps(s, p, Take, WithProcess(s, p, after));
      }
    }
  }

  /** A process that has all the locks of its plan. */
  predicate Through(s: State, p: nat) {
    p in s.processes && s.processes[p].taken >= |Plan(s.processes[p].role)|
  }

  /** A builder links, unlinks and begins to publish with its plan's locks and between
      two publications. */
  lemma BuildsWhenThrough(s: State, p: nat, name: string, content: string, names: seq<string>)
    ensures var able := Through(s, p) && s.processes[p].role.Builder? && s.processes[p].stage == Working;
            && (CanDo(s, p, LinkOne(name, content)) <==> able)
            && (CanDo(s, p, UnlinkOne(name)) <==> able)
            && (CanDo(s, p, Publish(names)) <==> able)
  {
    if Through(s, p) && s.processes[p].role.Builder? && s.processes[p].stage == Working {
      var it := s.processes[p];
      var key := (it.role.build, name);
      var left := map k | k in s.link && k != key :: s.link[k];
      assert Steps(s, p, LinkOne(name, content), s.(link := s.link[key := content]));
      assert Steps(s, p, UnlinkOne(name), s.(link := left));
      assert Steps(s, p, Publish(names), WithProcess(s, p, it.(stage := Comparing(names, 0, []))));
    }
  }

  /** It compares once it has begun, replaces while it has something linked to replace,
      and is done when it has nothing. */
  lemma PublishesInTurn(s: State, p: nat)
    ensures CanDo(s, p, Compare) <==> Through(s, p) && s.processes[p].role.Builder? && s.processes[p].stage.Comparing?
    ensures CanDo(s, p, Replace) <==>
            && p in s.processes && s.processes[p].role.Builder? && s.processes[p].stage.Replacing?
            && s.processes[p].stage.todo != []
            && At(s.link, s.processes[p].role.build, s.processes[p].stage.todo[0]).Some?
    ensures CanDo(s, p, Finish) <==>
            p in s.processes && s.processes[p].stage.Replacing? && s.processes[p].stage.todo == []
  {
    if p in s.processes {
      var it := s.processes[p];
      if Through(s, p) && it.role.Builder? && it.stage.Comparing? {
        assert Steps(s, p, Compare, Compared(s, p, it));
      }
      if it.stage.Replacing? && it.stage.todo == [] {
        assert Steps(s, p, Finish, WithProcess(s, p, it.(stage := Working)));
      }
      if it.role.Builder? && it.stage.Replacing? && it.stage.todo != [] {
        var key := (it.role.build, it.stage.todo[0]);
        if key in s.link {
          var after := it.(stage := Replacing(it.stage.names, it.stage.todo[1..]));
          assert Steps(s, p, Replace, WithProcess(s.(bin := s.bin[key := s.link[key]]), p, after));
        }
      }
    }
  }

  /** A cleaner removes with all its locks, a new process starts under a new number,
      and any process can end at any time. */
  lemma CleansWhenThrough(s: State, p: nat, role: Role)
    ensures CanDo(s, p, Remove) <==>
            Through(s, p) && (s.processes[p].role.TagCleaner? || s.processes[p].role.AllCleaner?)
    ensures CanDo(s, p, Start(role)) <==> p !in s.processes
    ensures CanDo(s, p, Exit) <==> p in s.processes
  {
    if p in s.processes {
      var it := s.processes[p];
      assert Steps(s, p, Exit, Without(s, p));
      if Through(s, p) && (it.role.TagCleaner? || it.role.AllCleaner?) {
        assert Steps(s, p, Remove, s.(link := Cleaned(s.link, it.role), bin := Cleaned(s.bin, it.role)));
      }
    } else {
      assert Steps(s, p, Start(role), WithProcess(s, p, Process(role, 0, Working)));
    }
  }
}
