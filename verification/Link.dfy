/** The link verifier, against a builder nobody trusts: after each builder run it
    decides whether the executable is a link of the library and objects as they
    are, keeps a record of what was linked, and removes what must be remade. */
module Links {

  import opened Options

  type Byte = b: int | 0 <= b < 256

  type Bytes = seq<Byte>

  type Hash = Bytes -> string

  /** The hypothesis on the digest: no two contents share one. */
  ghost predicate Injective(digest: Hash) {
    forall a, b :: digest(a) == digest(b) ==> a == b
  }

  /** What an executable is linked from: members of the library, and objects. */
  datatype Input = Member(name: string) | Object(directory: string, name: string)

  datatype Executable = Executable(content: Bytes, stamp: string)

  datatype Record = Record(executable: string, inputs: map<Input, string>)

  type Files = map<string, Bytes>

  /** A build tree: compiled library objects, the archive's members, the other
      object directories, the library's exchange file, the executables in link/
      and the record beside each. */
  datatype Tree = Tree(
    compiled: Files,
    archive: Files,
    objects: map<string, Files>,
    exchange: bool,
    executables: map<string, Executable>,
    records: map<string, Record>)

  // ------------------------------------------------------------------
  // What the verifier computes

  predicate Padding(tail: Bytes) {
    forall i :: 0 <= i < |tail| ==> tail[i] == 0 || tail[i] == 10
  }

  /** `holds`: a member may be padded to eight bytes with NUL or newline. */
  predicate Holds(member: Option<Bytes>, compiled: Option<Bytes>) {
    if member.None? || compiled.None? then member == compiled
    else
      && |compiled.value| <= |member.value| && member.value[..|compiled.value|] == compiled.value
      && |member.value| - |compiled.value| < 8 && Padding(member.value[|compiled.value|..])
  }

  function Get(files: Files, name: string): Option<Bytes> {
    if name in files then Some(files[name]) else None
  }

  function StaleOf(archive: Files, compiled: Files): set<string> {
    set name | name in archive.Keys + compiled.Keys && !Holds(Get(archive, name), Get(compiled, name))
  }

  /** `stale_library`: the objects the library does not hold as compiled. */
  function StaleMembers(tree: Tree): set<string> {
    StaleOf(tree.archive, tree.compiled)
  }

  const ABSENT := "absent"

  function Stamp(tree: Tree, name: string): string {
    if name in tree.executables then tree.executables[name].stamp else ABSENT
  }

  function ObjectsOf(tree: Tree, directory: string): Files {
    if directory in tree.objects then tree.objects[directory] else map[]
  }

  /** The contents an executable of these objects is to be linked from. */
  function Contents(tree: Tree, directory: string): map<Input, Bytes> {
    ContentsOf(tree.archive, ObjectsOf(tree, directory), directory)
  }

  function ContentsOf(archive: Files, others: Files, directory: string): map<Input, Bytes> {
    (map name | name in archive :: Member(name) := archive[name])
    + (map name | name in others :: Object(directory, name) := others[name])
  }

  function Digests(digest: Hash, contents: map<Input, Bytes>): map<Input, string> {
    map input | input in contents :: digest(contents[input])
  }

  /** `inputs`. */
  function Inputs(digest: Hash, tree: Tree, directory: string): map<Input, string> {
    Digests(digest, Contents(tree, directory))
  }

  datatype Status = Linked(digest: string) | Remake | MissingExecutable

  function Unlinked(tree: Tree, name: string): Tree {
    tree.(executables := tree.executables - {name})
  }

  /** `verify`: the status it exits with and the tree it leaves. */
  function Verified(digest: Hash, tree: Tree, name: string, directory: string, before: string): (Status, Tree) {
    if StaleMembers(tree) != {} then (Remake, Unlinked(tree, name).(exchange := false))
    else if name !in tree.executables then (MissingExecutable, tree)
    else
      var current, linked := Inputs(digest, tree, directory), digest(tree.executables[name].content);
      if Stamp(tree, name) != before then
        (Linked(linked), tree.(records := tree.records[name := Record(linked, current)]))
      else if name in tree.records && tree.records[name] == Record(linked, current) then (Linked(linked), tree)
      else (Remake, Unlinked(tree, name))
  }

  // ------------------------------------------------------------------
  // The truth about links

  /** Contents that really were linked into an executable's content. */
  type Facts = set<(Bytes, map<Input, Bytes>)>

  /** The record is of a link that happened. */
  ghost predicate RecordTrue(digest: Hash, facts: Facts, record: Record) {
    exists content, inputs ::
      (content, inputs) in facts && digest(content) == record.executable && Digests(digest, inputs) == record.inputs
  }

  ghost predicate Truthful(digest: Hash, facts: Facts, tree: Tree) {
    forall name :: name in tree.records ==> RecordTrue(digest, facts, tree.records[name])
  }

  /** The executable is a link of the library's members and the objects as they
      are, and the library holds every object as compiled. */
  ghost predicate UpToDate(facts: Facts, tree: Tree, name: string, directory: string) {
    && name in tree.executables
    && (tree.executables[name].content, Contents(tree, directory)) in facts
    && Whole(tree)
  }

  /** A member is the compiled object with at most seven bytes of NUL or line feed
      behind it. */
  ghost predicate IsObject(member: Bytes, compiled: Bytes) {
    exists pad: Bytes :: |pad| <= 7 && (forall i :: 0 <= i < |pad| ==> pad[i] == 0 || pad[i] == 10)
                         && member == compiled + pad
  }

  /** The library holds every object as compiled, and nothing else. */
  ghost predicate Whole(tree: Tree) {
    tree.archive.Keys == tree.compiled.Keys
    && forall n :: n in tree.archive ==> IsObject(tree.archive[n], tree.compiled[n])
  }

  lemma HoldsIsObject(member: Bytes, compiled: Bytes)
    ensures Holds(Some(member), Some(compiled)) <==> IsObject(member, compiled)
  {
    if Holds(Some(member), Some(compiled)) {
      assert member == compiled + member[|compiled|..];
    }
    if pad: Bytes :| |pad| <= 7 && (forall i :: 0 <= i < |pad| ==> pad[i] == 0 || pad[i] == 10)
                     && member == compiled + pad {
      assert member[|compiled|..] == pad;
    }
  }

  /** A name is stale unless it has a member and an object and the member is the object. */
  lemma StaleExactly(tree: Tree, n: string)
    ensures n in StaleMembers(tree) <==>
              n in tree.archive.Keys + tree.compiled.Keys
              && !(n in tree.archive && n in tree.compiled && IsObject(tree.archive[n], tree.compiled[n]))
  {
    if n in tree.archive && n in tree.compiled {
      HoldsIsObject(tree.archive[n], tree.compiled[n]);
    }
  }

  /** Nothing is stale exactly when the library holds what was compiled. */
  lemma NothingStaleIsWhole(tree: Tree)
    ensures StaleMembers(tree) == {} <==> Whole(tree)
  {
    if StaleMembers(tree) == {} {
      forall n
        ensures n in tree.archive <==> n in tree.compiled
        ensures n in tree.archive ==> IsObject(tree.archive[n], tree.compiled[n])
      {
        StaleExactly(tree, n);
      }
    } else {
      var n :| n in StaleMembers(tree);
      StaleExactly(tree, n);
    }
  }

  lemma DigestsTell(digest: Hash, a: map<Input, Bytes>, b: map<Input, Bytes>)
    requires Injective(digest) && Digests(digest, a) == Digests(digest, b)
    ensures a == b
  {
    assert Digests(digest, a).Keys == a.Keys && Digests(digest, b).Keys == b.Keys;
    forall input | input in a
      ensures a[input] == b[input]
    {
      assert Digests(digest, a)[input] == Digests(digest, b)[input];
    }
  }

  /** One verification: the records stay true, and a zero status means up to date.
      `relinked` is the hypothesis on the builder: when the stamp has changed, the
      executable was linked in this run, after everything else in it. */
  lemma VerifyTells(digest: Hash, facts: Facts, tree: Tree, name: string, directory: string, before: string)
    requires Injective(digest) && Truthful(digest, facts, tree)
    requires name in tree.executables && Stamp(tree, name) != before ==>
               (tree.executables[name].content, Contents(tree, directory)) in facts
    ensures var (status, after) := Verified(digest, tree, name, directory, before);
            && Truthful(digest, facts, after)
            && (status.Linked? ==> UpToDate(facts, after, name, directory)
                                   && status.digest == digest(after.executables[name].content))
            && (status.Remake? ==> name !in after.executables)
  {
    NothingStaleIsWhole(tree);
    if StaleMembers(tree) == {} && name in tree.executables {
      var content, contents := tree.executables[name].content, Contents(tree, directory);
      if Stamp(tree, name) != before {
        NewRecordIsTrue(digest, facts, tree, name, content, contents);
      } else if name in tree.records && tree.records[name] == Record(digest(content), Digests(digest, contents)) {
        MatchingRecordTells(digest, facts, tree.records[name], content, contents);
      }
    }
  }

  lemma NewRecordIsTrue(digest: Hash, facts: Facts, tree: Tree, name: string, content: Bytes,
                        contents: map<Input, Bytes>)
    requires Truthful(digest, facts, tree) && (content, contents) in facts
    ensures var record := Record(digest(content), Digests(digest, contents));
            Truthful(digest, facts, tree.(records := tree.records[name := record]))
  {
    assert RecordTrue(digest, facts, Record(digest(content), Digests(digest, contents)));
  }

  /** A true record that matches what is there speaks of what is there. */
  lemma MatchingRecordTells(digest: Hash, facts: Facts, record: Record, content: Bytes, contents: map<Input, Bytes>)
    requires Injective(digest) && RecordTrue(digest, facts, record)
    requires record == Record(digest(content), Digests(digest, contents))
    ensures (content, contents) in facts
  {
    var c, i :| (c, i) in facts && digest(c) == record.executable && Digests(digest, i) == record.inputs;
    DigestsTell(digest, i, contents);
  }

  // ------------------------------------------------------------------
  // What is compared, and what is left alone

  lemma MemberOrObject(archive: Files, others: Files, directory: string, n: string, d: string)
    ensures var contents := ContentsOf(archive, others, directory);
            && (Member(n) in contents <==> n in archive)
            && (Object(d, n) in contents <==> d == directory && n in others)
            && (Member(n) in contents ==> contents[Member(n)] == archive[n])
            && (Object(d, n) in contents ==> contents[Object(d, n)] == others[n])
  {
  }

  /** Linked are the library's members and the objects of the one directory, each
      with its content. */
  lemma ContentsExactly(tree: Tree, directory: string, n: string, d: string)
    ensures var contents := Contents(tree, directory);
            && (Member(n) in contents <==> n in tree.archive)
            && (Object(d, n) in contents <==> d == directory && d in tree.objects && n in tree.objects[d])
            && (Member(n) in contents ==> contents[Member(n)] == tree.archive[n])
            && (Object(d, n) in contents ==> contents[Object(d, n)] == tree.objects[d][n])
  {
    MemberOrObject(tree.archive, ObjectsOf(tree, directory), directory, n, d);
  }

  /** And compared are the digests of these. */
  lemma InputsExactly(digest: Hash, tree: Tree, directory: string, input: Input)
    ensures var contents, inputs := Contents(tree, directory), Inputs(digest, tree, directory);
            (input in inputs <==> input in contents) && (input in inputs ==> inputs[input] == digest(contents[input]))
  {
  }

  /** The record beside an executable is of this content and of what is there to link. */
  predicate Recorded(digest: Hash, tree: Tree, name: string, directory: string)
    requires name in tree.executables
  {
    name in tree.records && tree.records[name].executable == digest(tree.executables[name].content)
    && tree.records[name].inputs == Inputs(digest, tree, directory)
  }

  /** A remake is asked for exactly when the library is not whole, or the executable is
      the one that was there and nothing records it; then it is removed. */
  lemma RemakesExactly(digest: Hash, tree: Tree, name: string, directory: string, before: string)
    ensures var status, present := Verified(digest, tree, name, directory, before).0, name in tree.executables;
            && (status.MissingExecutable? <==> Whole(tree) && !present)
            && (status.Remake? <==>
                  !Whole(tree) || (present && tree.executables[name].stamp == before
                                   && !Recorded(digest, tree, name, directory)))
            && (status.Linked? ==> status.digest == digest(tree.executables[name].content))
  {
    NothingStaleIsWhole(tree);
  }

  /** Of a stale library a verification removes the exchange file and its own
      executable, and nothing else; */
  lemma LeavesStale(digest: Hash, tree: Tree, name: string, directory: string, before: string)
    requires StaleMembers(tree) != {}
    ensures Verified(digest, tree, name, directory, before) ==
            (Remake, tree.(exchange := false, executables := tree.executables - {name}))
  {
  }

  /** otherwise it removes its own executable at most, and with a remake, */
  lemma LeavesFiles(digest: Hash, tree: Tree, name: string, directory: string, before: string)
    requires StaleMembers(tree) == {}
    ensures var (status, after) := Verified(digest, tree, name, directory, before);
            after == tree.(executables := after.executables, records := after.records)
            && after.executables == (if status.Remake? then tree.executables - {name} else tree.executables)
  {
  }

  /** and writes the record of its own executable at most, and after a new link. */
  lemma LeavesRecords(digest: Hash, tree: Tree, name: string, directory: string, before: string)
    requires StaleMembers(tree) == {} && name in tree.executables
    ensures var (status, after) := Verified(digest, tree, name, directory, before);
            if tree.executables[name].stamp != before then
              var content, inputs := tree.executables[name].content, Inputs(digest, tree, directory);
              after.records == tree.records[name := Record(digest(content), inputs)]
            else after.records == tree.records
  {
  }

  // ------------------------------------------------------------------
  // Every history of builder runs and verifications

  /** One round: what the builder left of the objects and the library, whether it
      linked the executable, and whether the verification followed. */
  datatype Round = Round(
    name: string,
    directory: string,
    compiled: Files,
    archive: Files,
    objects: map<string, Files>,
    exchange: bool,
    link: Option<Executable>,
    verified: bool)

  /** The tree after the builder's run.  It may change objects and library as it
      likes; what it links, it links last. */
  function Built(tree: Tree, round: Round): Tree {
    tree.(compiled := round.compiled, archive := round.archive, objects := round.objects, exchange := round.exchange,
          executables := if round.link.Some? then tree.executables[round.name := round.link.value]
                         else tree.executables)
  }

  /** The hypotheses on the builder: a link changes the stamp. */
  ghost predicate Fair(tree: Tree, round: Round) {
    round.link.Some? ==> round.link.value.stamp != Stamp(tree, round.name) && round.link.value.stamp != ABSENT
  }

  function Learned(facts: Facts, tree: Tree, round: Round): Facts {
    if round.link.Some? then facts + {(round.link.value.content, Contents(Built(tree, round), round.directory))}
    else facts
  }

  function After(digest: Hash, tree: Tree, round: Round): Tree {
    if round.verified then Verified(digest, Built(tree, round), round.name, round.directory, Stamp(tree, round.name)).1
    else Built(tree, round)
  }

  function StatusOf(digest: Hash, tree: Tree, round: Round): Status {
    Verified(digest, Built(tree, round), round.name, round.directory, Stamp(tree, round.name)).0
  }

  lemma KnowingMore(digest: Hash, facts: Facts, more: Facts, tree: Tree, built: Tree)
    requires Truthful(digest, facts, tree) && facts <= more && built.records == tree.records
    ensures Truthful(digest, more, built)
  {
    forall name | name in built.records
      ensures RecordTrue(digest, more, built.records[name])
    {
      assert RecordTrue(digest, facts, tree.records[name]);
      var c, i :| (c, i) in facts && digest(c) == tree.records[name].executable
                  && Digests(digest, i) == tree.records[name].inputs;
      assert (c, i) in more;
    }
  }

  /** What a round leaves true. */
  ghost predicate Told(digest: Hash, facts: Facts, tree: Tree, round: Round, status: Status) {
    && Truthful(digest, facts, tree)
    && (round.verified && status.Linked? ==>
          UpToDate(facts, tree, round.name, round.directory)
          && status.digest == digest(tree.executables[round.name].content))
  }

  lemma RoundTells(digest: Hash, facts: Facts, tree: Tree, round: Round)
    requires Injective(digest) && Truthful(digest, facts, tree) && Fair(tree, round)
    ensures Told(digest, Learned(facts, tree, round), After(digest, tree, round), round, StatusOf(digest, tree, round))
  {
    var built, known := Built(tree, round), Learned(facts, tree, round);
    KnowingMore(digest, facts, known, tree, built);
    if round.verified {
      VerifyTells(digest, known, built, round.name, round.directory, Stamp(tree, round.name));
    }
  }

  /** One round of a history: a fair builder, and what came of it. */
  ghost predicate Follows(digest: Hash, tree: Tree, facts: Facts, round: Round, after: Tree, known: Facts) {
    Fair(tree, round) && after == After(digest, tree, round) && known == Learned(facts, tree, round)
  }

  /** The trees a history goes through, and what was linked on the way. */
  ghost predicate History(digest: Hash, trees: seq<Tree>, facts: seq<Facts>, rounds: seq<Round>) {
    && |trees| == |rounds| + 1 && |facts| == |trees|
    && forall i, j :: 0 <= i < |rounds| && j == i + 1 ==>
         Follows(digest, trees[i], facts[i], rounds[i], trees[j], facts[j])
  }

  lemma FollowTells(digest: Hash, tree: Tree, facts: Facts, round: Round, after: Tree, known: Facts)
    requires Injective(digest) && Truthful(digest, facts, tree) && Follows(digest, tree, facts, round, after, known)
    ensures Told(digest, known, after, round, StatusOf(digest, tree, round))
  {
    RoundTells(digest, facts, tree, round);
  }

  lemma RoundAt(digest: Hash, trees: seq<Tree>, facts: seq<Facts>, rounds: seq<Round>, i: nat, j: nat)
    requires History(digest, trees, facts, rounds) && i < |rounds| && j == i + 1
    ensures Follows(digest, trees[i], facts[i], rounds[i], trees[j], facts[j])
  {
  }

  /** Over every history from a tree without records, interrupted rounds included,
      the records stay true. */
  lemma {:induction false} RecordsStayTrue(digest: Hash, trees: seq<Tree>, facts: seq<Facts>, rounds: seq<Round>,
                                           i: nat)
    requires Injective(digest) && History(digest, trees, facts, rounds) && trees[0].records == map[] && i < |trees|
    ensures Truthful(digest, facts[i], trees[i])
    decreases i
  {
    if i > 0 {
      RecordsStayTrue(digest, trees, facts, rounds, i - 1);
      RoundAt(digest, trees, facts, rounds, i - 1, i);
      FollowTells(digest, trees[i - 1], facts[i - 1], rounds[i - 1], trees[i], facts[i]);
    }
  }

  /** And whenever a verification exits with zero, the executable is a link of the
      library and the objects as they then are. */
  lemma AcceptedIsUpToDate(digest: Hash, trees: seq<Tree>, facts: seq<Facts>, rounds: seq<Round>, i: nat, j: nat)
    requires Injective(digest) && History(digest, trees, facts, rounds) && trees[0].records == map[]
    requires i < |rounds| && j == i + 1
    requires rounds[i].verified && StatusOf(digest, trees[i], rounds[i]).Linked?
    ensures UpToDate(facts[j], trees[j], rounds[i].name, rounds[i].directory)
    ensures StatusOf(digest, trees[i], rounds[i]).digest == digest(trees[j].executables[rounds[i].name].content)
  {
    RecordsStayTrue(digest, trees, facts, rounds, i);
    RoundAt(digest, trees, facts, rounds, i, j);
    FollowTells(digest, trees[i], facts[i], rounds[i], trees[j], facts[j]);
  }

  // ------------------------------------------------------------------
  // Getting there, and staying there

  /** What verification accepted it accepts again while nothing changes. */
  lemma AcceptedStaysAccepted(digest: Hash, tree: Tree, name: string, directory: string, before: string)
    requires Verified(digest, tree, name, directory, before).0.Linked?
    ensures var (status, after) := Verified(digest, tree, name, directory, before);
            Verified(digest, after, name, directory, Stamp(after, name)) == (status, after)
  {
    var after := Verified(digest, tree, name, directory, before).1;
    SameInputs(tree, after, directory);
    AcceptedIsThere(digest, tree, name, directory, before);
  }

  /** What accepting leaves: nothing stale, the executable as it was, and its record. */
  lemma AcceptedIsThere(digest: Hash, tree: Tree, name: string, directory: string, before: string)
    requires Verified(digest, tree, name, directory, before).0.Linked?
    ensures var after := Verified(digest, tree, name, directory, before).1;
            && StaleMembers(tree) == {} && name in tree.executables && after.executables == tree.executables
            && name in after.records
            && after.records[name] == Record(digest(tree.executables[name].content), Inputs(digest, tree, directory))
  {
  }

  /** The record is no input. */
  lemma SameInputs(tree: Tree, after: Tree, directory: string)
    requires after.archive == tree.archive && after.compiled == tree.compiled && after.objects == tree.objects
    ensures StaleMembers(after) == StaleMembers(tree) && Contents(after, directory) == Contents(tree, directory)
  {
    assert ObjectsOf(after, directory) == ObjectsOf(tree, directory);
    SameContents(after.archive, tree.archive, ObjectsOf(after, directory), ObjectsOf(tree, directory), directory);
    SameStale(after.archive, tree.archive, after.compiled, tree.compiled);
  }

  lemma SameContents(a: Files, b: Files, c: Files, d: Files, directory: string)
    requires a == b && c == d
    ensures ContentsOf(a, c, directory) == ContentsOf(b, d, directory)
  {
  }

  lemma SameStale(a: Files, b: Files, c: Files, d: Files)
    requires a == b && c == d
    ensures StaleOf(a, c) == StaleOf(b, d)
  {
  }

  // ------------------------------------------------------------------
  // Two rounds

  /** The files a verification removes when it is not satisfied: the exchange file
      and the executable of a stale library, and the executable nothing records. */
  datatype Removals = Removals(exchange: bool, stale: bool, unrecorded: bool)

  const ALL := Removals(true, true, true)

  function UnlinkedIf(removes: bool, tree: Tree, name: string): Tree {
    if removes then Unlinked(tree, name) else tree
  }

  /** `verify` if it removed only these. */
  function Judged(removals: Removals, digest: Hash, tree: Tree, name: string, directory: string, before: string):
    (Status, Tree)
  {
    var verified := Verified(digest, tree, name, directory, before);
    if !verified.0.Remake? then verified
    else if StaleMembers(tree) != {} then
      (Remake, UnlinkedIf(removals.stale, tree, name).(exchange := tree.exchange && !removals.exchange))
    else (Remake, UnlinkedIf(removals.unrecorded, tree, name))
  }

  function JudgedRound(removals: Removals, digest: Hash, tree: Tree, round: Round): (Status, Tree) {
    Judged(removals, digest, Built(tree, round), round.name, round.directory, Stamp(tree, round.name))
  }

  /** `landin_link`: a second round only when the first asks for a remake, and no third. */
  function TwoRounds(removals: Removals, digest: Hash, tree: Tree, first: Round, second: Round): Status {
    var judged := JudgedRound(removals, digest, tree, first);
    if judged.0.Remake? then JudgedRound(removals, digest, judged.1, second).0 else judged.0
  }

  /** What is asked of the builder: it links an executable that is missing, */
  ghost predicate LinksMissing(tree: Tree, round: Round) {
    Fair(tree, round) && (round.name !in tree.executables ==> round.link.Some?)
  }

  /** makes the library whole when its exchange file is missing, and leaves a whole
      one whole. */
  ghost predicate Diligent(tree: Tree, round: Round) {
    LinksMissing(tree, round) && (!tree.exchange || Whole(tree) ==> Whole(Built(tree, round)))
  }

  /** Two rounds for one executable, with a builder that is diligent in the second. */
  ghost predicate Rounds(removals: Removals, digest: Hash, tree: Tree, first: Round, second: Round) {
    && second.name == first.name && second.directory == first.directory
    && LinksMissing(tree, first) && Diligent(JudgedRound(removals, digest, tree, first).1, second)
  }

  /** Whatever the first round leaves, at most two rounds end in a link. */
  ghost predicate Settles(removals: Removals, digest: Hash) {
    forall tree, first, second :: Rounds(removals, digest, tree, first, second) ==>
      TwoRounds(removals, digest, tree, first, second).Linked?
  }

  /** What a remake leaves: no executable, and a library without its exchange file or whole. */
  lemma RemakeLeaves(digest: Hash, tree: Tree, round: Round)
    requires JudgedRound(ALL, digest, tree, round).0.Remake?
    ensures var after := JudgedRound(ALL, digest, tree, round).1;
            round.name !in after.executables && (!after.exchange || Whole(after))
  {
    var built, after := Built(tree, round), JudgedRound(ALL, digest, tree, round).1;
    SameStale(after.archive, built.archive, after.compiled, built.compiled);
    NothingStaleIsWhole(after);
  }

  /** A round that links against a library it has made whole is accepted. */
  lemma LinkSettles(digest: Hash, tree: Tree, round: Round)
    requires Fair(tree, round) && round.link.Some? && Whole(Built(tree, round))
    ensures JudgedRound(ALL, digest, tree, round).0.Linked?
  {
    NothingStaleIsWhole(Built(tree, round));
  }

  lemma TwoRoundsLink(digest: Hash, tree: Tree, first: Round, second: Round)
    requires Rounds(ALL, digest, tree, first, second)
    ensures TwoRounds(ALL, digest, tree, first, second).Linked?
  {
    FirstRoundLinks(digest, tree, first);
    if JudgedRound(ALL, digest, tree, first).0.Remake? {
      RemakeLeaves(digest, tree, first);
      LinkSettles(digest, JudgedRound(ALL, digest, tree, first).1, second);
    }
  }

  lemma FirstRoundLinks(digest: Hash, tree: Tree, round: Round)
    requires LinksMissing(tree, round)
    ensures !JudgedRound(ALL, digest, tree, round).0.MissingExecutable?
  {
    assert round.name in Built(tree, round).executables;
  }

  lemma SettlesByAll(digest: Hash)
    ensures Settles(ALL, digest)
  {
    forall tree, first, second | Rounds(ALL, digest, tree, first, second)
      ensures TwoRounds(ALL, digest, tree, first, second).Linked?
    {
      TwoRoundsLink(digest, tree, first, second);
    }
  }

  /** A verified round is judged by all the removals. */
  lemma JudgedByAll(digest: Hash, tree: Tree, round: Round)
    requires round.verified
    ensures JudgedRound(ALL, digest, tree, round) == (StatusOf(digest, tree, round), After(digest, tree, round))
  {
  }

  /** So of the verifier itself: whatever the first round left, after at most two the
      executable is a link. */
  lemma RemakeSettles(digest: Hash, tree: Tree, first: Round, second: Round)
    requires second.name == first.name && second.directory == first.directory && first.verified && second.verified
    requires LinksMissing(tree, first) && Diligent(After(digest, tree, first), second)
    ensures var status := StatusOf(digest, tree, first);
            status.Linked? || (status.Remake? && StatusOf(digest, After(digest, tree, first), second).Linked?)
  {
    JudgedByAll(digest, tree, first);
    JudgedByAll(digest, After(digest, tree, first), second);
    FirstRoundLinks(digest, tree, first);
    TwoRoundsLink(digest, tree, first, second);
  }

  // Each removal is needed: what two rounds come to without it.

  const OLD := Executable([], "old")

  /** A library that lacks a compiled object, and one that lacks nothing. */
  const STALE := Tree(map["a.o" := []], map[], map[], true, map["refine" := OLD], map[])
  const PLAIN := Tree(map[], map[], map[], true, map["refine" := OLD], map[])

  function Leaving(tree: Tree, archive: Files, link: Option<Executable>): Round {
    Round("refine", "refine-obj", tree.compiled, archive, tree.objects, tree.exchange, link, true)
  }

  lemma StaleIsStale()
    ensures !Whole(STALE) && StaleMembers(STALE) != {}
  {
    assert "a.o" in StaleMembers(STALE);
  }

  /** With the exchange file kept the builder may leave the library as it is. */
  lemma ExchangeMustGo(removals: Removals, digest: Hash)
    requires !removals.exchange
    ensures !Settles(removals, digest)
  {
    StaleIsStale();
    var first := Leaving(STALE, STALE.archive, None);
    var after := JudgedRound(removals, digest, STALE, first).1;
    assert Built(STALE, first) == STALE;
    var second := Leaving(STALE, STALE.archive, Some(Executable([], "new")));
    SameStale(Built(after, second).archive, STALE.archive, Built(after, second).compiled, STALE.compiled);
    NothingStaleIsWhole(after);
    SameStale(after.archive, STALE.archive, after.compiled, STALE.compiled);
    assert Rounds(removals, digest, STALE, first, second);
    assert TwoRounds(removals, digest, STALE, first, second) == Remake;
  }

  /** With the executable of a stale library kept it may make the library and not link. */
  lemma StaleMustGo(removals: Removals, digest: Hash)
    requires !removals.stale
    ensures !Settles(removals, digest)
  {
    StaleIsStale();
    var first := Leaving(STALE, STALE.archive, None);
    assert Built(STALE, first) == STALE;
    var second := Leaving(STALE, STALE.compiled, None);
    var after := JudgedRound(removals, digest, STALE, first).1;
    assert Whole(Built(after, second));
    assert Rounds(removals, digest, STALE, first, second);
    assert TwoRounds(removals, digest, STALE, first, second) == Remake;
  }

  /** And so with an executable nothing records. */
  lemma UnrecordedMustGo(removals: Removals, digest: Hash)
    requires !removals.unrecorded
    ensures !Settles(removals, digest)
  {
    var first := Leaving(PLAIN, map[], None);
    assert Built(PLAIN, first) == PLAIN;
    assert Whole(PLAIN);
    NothingStaleIsWhole(PLAIN);
    assert Rounds(removals, digest, PLAIN, first, first);
    assert TwoRounds(removals, digest, PLAIN, first, first) == Remake;
  }

  /** Two rounds always settle if and only if everything is removed. */
  lemma SettlesExactly(removals: Removals, digest: Hash)
    ensures Settles(removals, digest) <==> removals == ALL
  {
    if removals == ALL {
      SettlesByAll(digest);
    } else if !removals.exchange {
      ExchangeMustGo(removals, digest);
    } else if !removals.stale {
      StaleMustGo(removals, digest);
    } else {
      UnrecordedMustGo(removals, digest);
    }
  }

  // ------------------------------------------------------------------
  // What was published

  /** `published`: every name's executable in bin/ is the one its manifest row records. */
  predicate Published(digest: Hash, bin: Files, rows: map<string, string>, names: seq<string>) {
    forall i :: 0 <= i < |names| ==> names[i] in rows && names[i] in bin && digest(bin[names[i]]) == rows[names[i]]
  }

  /** The row of an executable is what some accepted round of the history reported. */
  ghost predicate RowOf(digest: Hash, trees: seq<Tree>, rounds: seq<Round>, name: string, row: string, k: nat)
    requires |trees| == |rounds| + 1
  {
    && k < |rounds| && rounds[k].verified && rounds[k].name == name
    && StatusOf(digest, trees[k], rounds[k]) == Linked(row)
  }

  lemma AcceptedRow(digest: Hash, trees: seq<Tree>, facts: seq<Facts>, rounds: seq<Round>, name: string, row: string,
                    content: Bytes, k: nat, j: nat)
    requires Injective(digest) && History(digest, trees, facts, rounds) && trees[0].records == map[]
    requires RowOf(digest, trees, rounds, name, row, k) && j == k + 1 && digest(content) == row
    ensures UpToDate(facts[j], trees[j], name, rounds[k].directory) && content == trees[j].executables[name].content
  {
    AcceptedIsUpToDate(digest, trees, facts, rounds, k, j);
    assert digest(content) == digest(trees[j].executables[name].content);
  }

  /** Every row came from an accepted round. */
  ghost predicate RowsOf(digest: Hash, trees: seq<Tree>, rounds: seq<Round>, rows: map<string, string>)
    requires |trees| == |rounds| + 1
  {
    forall name :: name in rows ==> exists k :: RowOf(digest, trees, rounds, name, rows[name], k)
  }

  lemma RowIsAccepted(digest: Hash, trees: seq<Tree>, rounds: seq<Round>, rows: map<string, string>, name: string)
    returns (k: nat)
    requires |trees| == |rounds| + 1 && RowsOf(digest, trees, rounds, rows) && name in rows
    ensures RowOf(digest, trees, rounds, name, rows[name], k)
  {
    k :| RowOf(digest, trees, rounds, name, rows[name], k);
  }

  /** If the rows came from accepted rounds of a history, each executable published
      against them is what one of those rounds accepted: a link of the library and
      the objects as they were when it ended. */
  lemma PublishedIsAccepted(digest: Hash, trees: seq<Tree>, facts: seq<Facts>, rounds: seq<Round>,
                            bin: Files, rows: map<string, string>, names: seq<string>, i: nat)
    returns (k: nat, j: nat)
    requires Injective(digest) && History(digest, trees, facts, rounds) && trees[0].records == map[]
    requires RowsOf(digest, trees, rounds, rows) && Published(digest, bin, rows, names) && i < |names|
    ensures k < |rounds| && j == k + 1 && rounds[k].name == names[i]
    ensures UpToDate(facts[j], trees[j], names[i], rounds[k].directory)
    ensures bin[names[i]] == trees[j].executables[names[i]].content
  {
    k := RowIsAccepted(digest, trees, rounds, rows, names[i]);
    j := k + 1;
    AcceptedRow(digest, trees, facts, rounds, names[i], rows[names[i]], bin[names[i]], k, j);
  }

  // ------------------------------------------------------------------
  // The verifier itself

  class BuildTree {
    const digest: Hash
    var compiled: Files
    var archive: Files
    var objects: map<string, Files>
    var exchange: bool
    var executables: map<string, Executable>
    var records: map<string, Record>

    ghost function Now(): Tree
      reads this
    {
      Tree(compiled, archive, objects, exchange, executables, records)
    }

    constructor (digest: Hash, tree: Tree)
      ensures this.digest == digest && Now() == tree
    {
      this.digest := digest;
      compiled, archive, objects, exchange := tree.compiled, tree.archive, tree.objects, tree.exchange;
      executables, records := tree.executables, tree.records;
    }

    /** `stale_library`. */
    method StaleLibrary() returns (stale: set<string>)
      ensures stale == StaleMembers(Now())
    {
      stale := {};
      var left := archive.Keys + compiled.Keys;
      while left != {}
        invariant left <= archive.Keys + compiled.Keys
        invariant stale == set name | name in archive.Keys + compiled.Keys - left
                                      && !Holds(Get(archive, name), Get(compiled, name))
        decreases left
      {
        var name :| name in left;
        if !Holds(Get(archive, name), Get(compiled, name)) {
          stale := stale + {name};
        }
        left := left - {name};
      }
    }

    method Verify(name: string, directory: string, before: string) returns (status: Status)
      modifies this`exchange, this`executables, this`records
      ensures (status, Now()) == Verified(digest, old(Now()), name, directory, before)
    {
      var stale := StaleLibrary();
      if stale != {} {
        exchange := false;
        executables := executables - {name};
        return Remake;
      }
      if name !in executables {
        return MissingExecutable;
      }
      ghost var was := Now();
      var current := CurrentInputs(directory);
      var linked := digest(executables[name].content);
      var stamp := executables[name].stamp;
      if stamp != before {
        records := records[name := Record(linked, current)];
      } else if !(name in records && records[name].executable == linked && records[name].inputs == current) {
        executables := executables - {name};
        return Remake;
      }
      return Linked(linked);
    }

    method CurrentInputs(directory: string) returns (current: map<Input, string>)
      ensures current == Inputs(digest, Now(), directory)
    {
      var others := if directory in objects then objects[directory] else map[];
      var contents := ContentsOf(archive, others, directory);
      current := map input | input in contents :: digest(contents[input]);
    }
  }
}
