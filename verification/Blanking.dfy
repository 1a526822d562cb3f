/** The symbol table reads each line with the highlighter's comments and literals
    blanked.  That is the text `visible_code` leaves, exactly when every line is
    tidy: a condition on the characters where a chunk of code begins. */
module Blanking {

  import opened Options
  import opened Characters
  import opened Visibility
  import opened Highlighting

  predicate Hides(kind: Class) {
    kind.Comment? || kind.DocComment? || kind.Quoted?
  }

  /** The line as `collect_symbols` blanks it. */
  function Blanked(pieces: seq<Piece>): string {
    if pieces == [] then "" else Shown(pieces[0].body, Hides(pieces[0].kind)) + Blanked(pieces[1..])
  }

  function BlankedLines(lines: seq<string>, open: Open): seq<string> {
    if lines == [] then []
    else [Blanked(Line(lines[0], open).pieces)] + BlankedLines(lines[1..], Line(lines[0], open).open)
  }

  function StateOf(open: Open): State {
    State(open.depth, if open.raw.Some? then |open.raw.value| else 0)
  }

  /** A quoted literal closed on its line, a character literal of one character, and
      no sign directly before two hyphens. */
  predicate TidyAt(s: string)
    requires s != ""
  {
    if StartsWith(s, "--") then true
    else if s[0] == '"' then Quotes(s) >= 3 || TextRest(s[1..]).Some?
    else if s[0] == '\'' then CharacterLength(s).Some?
    else !(Sign(s[0]) && StartsWith(s[1..], "--"))
  }

  predicate Tidy(line: string, state: State)
    decreases |line|
  {
    line == ""
    || (var c := Next(line, state); (state == CODE ==> TidyAt(line)) && Tidy(line[c.length..], c.after))
  }

  predicate TidyLines(lines: seq<string>, state: State) {
    lines == [] || (Tidy(lines[0], state) && TidyLines(lines[1..], Masked(lines[0], state).state))
  }

  // ------------------------------------------------------------------
  // Stretches of a line

  /** What `visible_code` makes of the rest of a line, and whether that is tidy. */
  datatype Read = Read(view: View, tidy: bool)

  function Reading(s: string, state: State): Read {
    Read(Masked(s, state), Tidy(s, state))
  }

  /** The lemmas below are about any reader that takes the turns of `visible_code`. */
  type Reader = (string, State) -> Read

  function Prefixed(text: string, read: Read): Read {
    read.(view := Before(text, read.view))
  }

  /** From a state, `n` characters are masked or shown alike, and are tidy. */
  ghost predicate Passes(f: Reader, s: string, state: State, n: nat, after: State, masked: bool) {
    n <= |s| && f(s, state) == Prefixed(Shown(s[..n], masked), f(s[n..], after))
  }

  ghost predicate TakesTurn(f: Reader, s: string, state: State) {
    s != "" && (state == CODE ==> TidyAt(s)) ==>
      var c := Next(s, state); Passes(f, s, state, c.length, c.after, c.masked)
  }

  ghost predicate TakesTurns(f: Reader) {
    forall s, state :: TakesTurn(f, s, state)
  }

  lemma ReadingTakesTurns()
    ensures TakesTurns(Reading)
  {
    forall s, state
      ensures TakesTurn(Reading, s, state)
    {
      if s != "" {
        MaskedStart(s, Next(s, state), state);
      }
    }
  }

  lemma PassesNone(f: Reader, s: string, state: State, masked: bool)
    ensures Passes(f, s, state, 0, state, masked)
  {
    assert s[0..] == s && Shown(s[..0], masked) == "";
  }

  lemma PassesNext(f: Reader, s: string, state: State, c: Chunk)
    requires TakesTurns(f) && s != "" && c == Next(s, state) && (state == CODE ==> TidyAt(s))
    ensures Passes(f, s, state, c.length, c.after, c.masked)
  {
    assert TakesTurn(f, s, state);
  }

  lemma ShownBoth(s: string, m: nat, n: nat, masked: bool)
    requires m + n <= |s|
    ensures Shown(s[..m], masked) + Shown(s[m..][..n], masked) == Shown(s[..m + n], masked)
    ensures s[m..][n..] == s[m + n..]
  {
    assert s[..m + n] == s[..m] + s[m..][..n];
  }

  lemma PassesBoth(f: Reader, s: string, state: State, m: nat, between: State, n: nat, after: State, masked: bool)
    requires Passes(f, s, state, m, between, masked) && Passes(f, s[m..], between, n, after, masked)
    ensures Passes(f, s, state, m + n, after, masked)
  {
    ShownBoth(s, m, n, masked);
    BeforeBoth(Shown(s[..m], masked), Shown(s[m..][..n], masked), f(s[m + n..], after).view);
  }

  ghost predicate QuietAt(s: string) {
    s != "" && !StartsWith(s, "--(") && !StartsWith(s, ")--")
  }

  ghost predicate Quiet(s: string, n: nat)
    requires n <= |s|
  {
    forall k :: 0 <= k < n ==> QuietAt(s[k..])
  }

  lemma {:induction false} CommentPasses(f: Reader, s: string, depth: nat, n: nat)
    requires TakesTurns(f) && depth > 0 && n <= |s| && Quiet(s, n)
    ensures Passes(f, s, State(depth, 0), n, State(depth, 0), true)
    decreases n
  {
    var state := State(depth, 0);
    if n == 0 {
      PassesNone(f, s, state, true);
    } else {
      assert s[0..] == s && QuietAt(s[0..]);
      PassesNext(f, s, state, Chunk(1, state, true));
      forall k | 0 <= k < n - 1
        ensures QuietAt(s[1..][k..])
      {
        assert s[1..][k..] == s[k + 1..];
      }
      CommentPasses(f, s[1..], depth, n - 1);
      PassesBoth(f, s, state, 1, state, n - 1, state, true);
    }
  }

  ghost predicate CalmAt(s: string) {
    s != "" && !Opens(s) && !(Sign(s[0]) && StartsWith(s[1..], "--"))
  }

  ghost predicate Calm(s: string, n: nat)
    requires n <= |s|
  {
    forall k :: 0 <= k < n ==> CalmAt(s[k..])
  }

  lemma CalmPassesOne(f: Reader, s: string)
    requires TakesTurns(f) && CalmAt(s)
    ensures Passes(f, s, CODE, 1, CODE, false)
  {
    assert "--" == "--("[..2];
    if StartsWith(s, "--(") {
      AtCharacters(s, "--(");
    }
    PassesNext(f, s, CODE, Chunk(1, CODE, false));
  }

  lemma {:induction false} CalmPasses(f: Reader, s: string, n: nat)
    requires TakesTurns(f) && n <= |s| && Calm(s, n)
    ensures Passes(f, s, CODE, n, CODE, false)
    decreases n
  {
    if n == 0 {
      PassesNone(f, s, CODE, false);
    } else {
      assert s[0..] == s && CalmAt(s[0..]);
      CalmPassesOne(f, s);
      forall k | 0 <= k < n - 1
        ensures CalmAt(s[1..][k..])
      {
        assert s[1..][k..] == s[k + 1..];
      }
      CalmPasses(f, s[1..], n - 1);
      PassesBoth(f, s, CODE, 1, CODE, n - 1, CODE, false);
    }
  }

  /** `find` gives the leftmost place. */
  lemma {:induction false} FindIsLeftmost(s: string, w: string, n: nat)
    requires n <= |s| && w != ""
    requires forall k :: 0 <= k < n ==> !StartsWith(s[k..], w)
    ensures Find(s, w) == More(n, Find(s[n..], w))
    decreases n
  {
    assert s[0..] == s;
    if n > 0 {
      assert !StartsWith(s[0..], w);
      forall k | 0 <= k < n - 1
        ensures !StartsWith(s[1..][k..], w)
      {
        assert s[1..][k..] == s[k + 1..];
      }
      FindIsLeftmost(s[1..], w, n - 1);
      assert s[1..][n - 1..] == s[n..];
    }
  }

  lemma {:induction false} FoundFirst(s: string, w: string, n: nat)
    requires w != "" && n <= |s|
    requires var found := Find(s, w); found.Some? ==> n <= found.value
    ensures forall k :: 0 <= k < n ==> !StartsWith(s[k..], w)
    ensures var found := Find(s, w); found.Some? ==> StartsWith(s[found.value..], w)
    decreases |s|
  {
    var found := Find(s, w);
    assert s[0..] == s;
    if !StartsWith(s, w) && s != "" {
      FoundFirst(s[1..], w, if n > 0 then n - 1 else 0);
      forall k | 0 < k < n
        ensures !StartsWith(s[k..], w)
      {
        assert s[k..] == s[1..][k - 1..];
      }
      assert found.Some? ==> s[found.value..] == s[1..][found.value - 1..];
    }
  }

  function Run(n: nat): string {
    seq(n, _ => '"')
  }

  lemma {:induction false} AtRun(s: string, n: nat)
    ensures StartsWith(s, Run(n)) <==> n <= Quotes(s)
    decreases n
  {
    if n > 0 && s != "" && s[0] == '"' {
      AtRun(s[1..], n - 1);
      if |s| >= n {
        assert s[..n] == ['"'] + s[1..][..n - 1];
        assert Run(n) == ['"'] + Run(n - 1);
        assert s[..n][1..] == s[1..][..n - 1] && Run(n)[1..] == Run(n - 1);
      }
    } else if n > 0 && StartsWith(s, Run(n)) {
      AtCharacters(s, Run(n));
    }
  }

  lemma {:induction false} QuotesAreRun(s: string)
    ensures s[..Quotes(s)] == Run(Quotes(s))
  {
    AtRun(s, Quotes(s));
  }

  /** Short of the closing quotes, a turn does not close, and neither is found. */
  lemma RawTurn(f: Reader, s: string, q: nat, n: nat)
    requires TakesTurns(f) && s != "" && Quotes(s) < q && n == if s[0] == '"' then Quotes(s) else 1
    ensures Passes(f, s, State(0, q), n, State(0, q), true) && n > 0
    ensures Find(s, Run(q)) == More(n, Find(s[n..], Run(q)))
  {
    forall k | 0 <= k < n
      ensures !StartsWith(s[k..], Run(q))
    {
      if s[0] == '"' {
        QuotesOfRun(s, k);
      }
      assert s[0..] == s;
      AtRun(s[k..], q);
    }
    FindIsLeftmost(s, Run(q), n);
    PassesNext(f, s, State(0, q), Chunk(n, State(0, q), true));
  }

  lemma RawCloses(f: Reader, s: string, q: nat)
    requires TakesTurns(f) && 0 < q <= Quotes(s)
    ensures Passes(f, s, State(0, q), q, CODE, true) && Find(s, Run(q)) == Some(0)
  {
    AtRun(s, q);
    PassesNext(f, s, State(0, q), Chunk(q, CODE, true));
  }

  /** What a search for the closing quotes says of the masking. */
  function RawLength(length: nat, q: nat, found: Option<nat>): nat {
    if found.None? then length else found.value + q
  }

  function RawAfter(q: nat, found: Option<nat>): State {
    if found.None? then State(0, q) else CODE
  }

  /** A raw literal is followed to the first run of as many quotes. */
  lemma {:induction false} RawPasses(f: Reader, s: string, q: nat, found: Option<nat>)
    requires TakesTurns(f) && q > 0 && found == Find(s, Run(q))
    ensures Passes(f, s, State(0, q), RawLength(|s|, q, found), RawAfter(q, found), true)
    decreases |s|
  {
    if s == "" {
      PassesNone(f, s, State(0, q), true);
      AtRun(s, q);
    } else if Quotes(s) >= q {
      RawCloses(f, s, q);
    } else {
      var n := if s[0] == '"' then Quotes(s) else 1;
      RawTurn(f, s, q, n);
      var rest := Find(s[n..], Run(q));
      RawPasses(f, s[n..], q, rest);
      RawPassesBoth(f, s, q, n, rest);
    }
  }

  lemma RawPassesBoth(f: Reader, s: string, q: nat, n: nat, rest: Option<nat>)
    requires n <= |s| && Passes(f, s, State(0, q), n, State(0, q), true)
    requires Passes(f, s[n..], State(0, q), RawLength(|s| - n, q, rest), RawAfter(q, rest), true)
    ensures Passes(f, s, State(0, q), RawLength(|s|, q, More(n, rest)), RawAfter(q, More(n, rest)), true)
  {
    var length, after := RawLength(|s| - n, q, rest), RawAfter(q, rest);
    PassesBoth(f, s, State(0, q), n, State(0, q), length, after, true);
    assert RawLength(|s|, q, More(n, rest)) == n + length && RawAfter(q, More(n, rest)) == after;
  }

  // ------------------------------------------------------------------
  // One turn of the scanner

  /** A token that `visible_code` reads the same way. */
  ghost predicate Honest(s: string)
    requires s != ""
  {
    match MarkedToken(s)
    case None => !Opens(s) && Unhidden(s)
    case Some(m) => !m.kind.Stray?
  }

  /** No run of signs hides two hyphens. */
  ghost predicate Unhidden(s: string)
    requires s != ""
  {
    match CodeToken(s)
    case None => true
    case Some(m) => m.kind.Signs? ==> forall k :: 0 <= k < m.length ==> !StartsWith(s[k..], "--")
  }

  predicate Ordinary(c: char) {
    c != '"' && c != '\'' && c != '-' && !Sign(c)
  }

  lemma OrdinaryIsCalm(s: string, n: nat)
    requires n <= |s| && forall k :: 0 <= k < n ==> Ordinary(s[k])
    ensures Calm(s, n)
  {
    forall k | 0 <= k < n
      ensures CalmAt(s[k..])
    {
      var r := s[k..];
      assert r[0] == s[k];
      if StartsWith(r, "--") {
        AtCharacters(r, "--");
      }
    }
  }

  lemma NumericIsCalm(s: string, n: nat)
    requires n <= |s| && Numeric(s, n)
    ensures Calm(s, n)
  {
    forall k | 0 <= k < n
      ensures CalmAt(s[k..])
    {
      var r := s[k..];
      assert NumericAt(s, n, k) && r[0] == s[k];
      assert k + 1 < n ==> r[1..][0] == s[k + 1];
      if StartsWith(r, "--") {
        AtCharacters(r, "--");
      }
      if StartsWith(r[1..], "--") {
        AtCharacters(r[1..], "--");
      }
    }
  }

  lemma SignsAreCalm(s: string)
    requires s != "" && forall k :: 0 <= k < Span(s, Sign) ==> !StartsWith(s[k..], "--")
    ensures Calm(s, Span(s, Sign))
  {
    var n := Span(s, Sign);
    assert n < |s| ==> s[n..][0] == s[n];
    if StartsWith(s[n..], "--") {
      AtCharacters(s[n..], "--");
    }
    forall k | 0 <= k < n
      ensures CalmAt(s[k..])
    {
      var r := s[k..];
      assert r[0] == s[k] && r[1..] == s[k + 1..];
    }
  }

  lemma {:induction false} TextClosing(s: string)
    requires '\n' !in s && TextRest(s).Some?
    ensures Closing(s, '"') == TextRest(s).value
    decreases |s|
  {
    if s[0] == '\\' {
      TextClosing(s[2..]);
    } else if s[0] != '"' {
      TextClosing(s[1..]);
    }
  }

  lemma CharacterClosing(s: string)
    requires CharacterLength(s).Some?
    ensures s[0] == '\'' && 1 + Closing(s[1..], '\'') == CharacterLength(s).value
  {
    var r := s[1..];
    if r[0] == '\\' {
      assert r[2..][0] == s[3];
      assert Closing(r[2..], '\'') == 1;
    } else {
      assert r[1..][0] == s[2];
      assert Closing(r[1..], '\'') == 1;
    }
  }

  /** Before the first of the two, neither is there. */
  lemma QuietBefore(s: string, n: nat)
    requires n <= |s|
    requires var close, nest := Find(s, ")--"), Find(s, "--(");
             (nest.Some? ==> n <= nest.value) && (close.Some? ==> n <= close.value)
    ensures Quiet(s, n)
  {
    FoundFirst(s, "--(", n);
    FoundFirst(s, ")--", n);
    forall k | 0 <= k < n
      ensures QuietAt(s[k..])
    {
      assert !StartsWith(s[k..], "--(") && !StartsWith(s[k..], ")--");
    }
  }

  /** At the first, the depth changes as it says. */
  lemma NestedChunk(s: string, depth: nat, nests: bool)
    requires depth > 0 && StartsWith(s, if nests then "--(" else ")--")
    ensures Next(s, State(depth, 0)) == Chunk(3, State(if nests then depth + 1 else depth - 1, 0), true)
  {
    if StartsWith(s, "--(") {
      AtCharacters(s, "--(");
    }
    if StartsWith(s, ")--") {
      AtCharacters(s, ")--");
    }
  }

  lemma CommentTurnEnds(s: string, depth: nat, t: Turning, n: nat)
    requires s != "" && depth > 0 && t == TurnOf(s, depth)
    requires var close, nest := Find(s, ")--"), Find(s, "--(");
             n == if nest.Some? && (close.None? || nest.value < close.value) then nest.value
                  else if close.Some? then close.value else |s|
    ensures n <= |s| && Quiet(s, n) && t.open.raw.None? && t.kind == Comment
    ensures if n == |s| then t.length == n && t.open.depth == depth
            else t.length == n + 3 && Next(s[n..], State(depth, 0)) == Chunk(3, State(t.open.depth, 0), true)
  {
    var close, nest := Find(s, ")--"), Find(s, "--(");
    QuietBefore(s, n);
    if n < |s| {
      var nests := nest.Some? && (close.None? || nest.value < close.value);
      FoundFirst(s, if nests then "--(" else ")--", n);
      NestedChunk(s[n..], depth, nests);
    }
  }

  lemma CommentTurnPasses(f: Reader, s: string, depth: nat, t: Turning)
    requires TakesTurns(f) && s != "" && depth > 0 && t == TurnOf(s, depth)
    ensures t.kind == Comment && Passes(f, s, State(depth, 0), t.length, StateOf(t.open), true)
  {
    var state, after := State(depth, 0), State(t.open.depth, 0);
    var close, nest := Find(s, ")--"), Find(s, "--(");
    var n := if nest.Some? && (close.None? || nest.value < close.value) then nest.value
             else if close.Some? then close.value else |s|;
    CommentTurnEnds(s, depth, t, n);
    CommentPasses(f, s, depth, n);
    if n < |s| {
      PassesNext(f, s[n..], state, Chunk(3, after, true));
      PassesBoth(f, s, state, n, state, 3, after, true);
    }
  }

  lemma RawTurnEnds(s: string, t: Turning, q: nat, closer: Option<nat>)
    requires s != "" && q == Quotes(s) >= 3 && t == TurnOf(s, 0) && closer == Find(s[q..], Run(q))
    ensures t.kind == Quoted && t.length == q + RawLength(|s| - q, q, closer) && StateOf(t.open) == RawAfter(q, closer)
  {
    QuotesAreRun(s);
  }

  lemma RawTurnPasses(f: Reader, s: string, q: nat, closer: Option<nat>, length: nat, after: State)
    requires TakesTurns(f) && s != "" && q == Quotes(s) >= 3 && closer == Find(s[q..], Run(q))
    requires length == RawLength(|s| - q, q, closer) && after == RawAfter(q, closer)
    ensures Passes(f, s, CODE, q + length, after, true)
  {
    RawPasses(f, s[q..], q, closer);
    RawTurnBoth(f, s, q, length, after);
  }

  lemma RawTurnBoth(f: Reader, s: string, q: nat, length: nat, after: State)
    requires TakesTurns(f) && s != "" && q == Quotes(s) >= 3
    requires Passes(f, s[q..], State(0, q), length, after, true)
    ensures Passes(f, s, CODE, q + length, after, true)
  {
    RawOpens(f, s, q);
    PassesBoth(f, s, CODE, q, State(0, q), length, after, true);
  }

  lemma RawOpens(f: Reader, s: string, q: nat)
    requires TakesTurns(f) && s != "" && q == Quotes(s) >= 3
    ensures Passes(f, s, CODE, q, State(0, q), true)
  {
    PassesNext(f, s, CODE, Chunk(q, State(0, q), true));
  }

  lemma QuotedTurnPasses(f: Reader, s: string, m: Match)
    requires TakesTurns(f) && '\n' !in s && s != "" && MarkedToken(s) == Some(m) && (m.kind.Text? || m.kind.Character?)
    ensures Passes(f, s, CODE, m.length, CODE, true)
  {
    if m.kind.Text? {
      TextClosing(s[1..]);
    } else {
      CharacterClosing(s);
    }
    PassesNext(f, s, CODE, Chunk(m.length, CODE, true));
  }

  lemma HyphensTurnPasses(f: Reader, s: string, m: Match)
    requires TakesTurns(f) && '\n' !in s && s != "" && MarkedToken(s) == Some(m)
             && (m.kind.Doc? || m.kind.LineComment? || m.kind.Opening?)
    ensures Passes(f, s, CODE, m.length, if m.kind.Opening? then State(1, 0) else CODE, true)
  {
    var after := if m.kind.Opening? then State(1, 0) else CODE;
    assert "--" == "---"[..2] && "--" == "--("[..2];
    if m.kind.Doc? {
      AtCharacters(s, "---");
      if StartsWith(s, "--(") {
        AtCharacters(s, "--(");
      }
    } else if m.kind.Opening? {
      AtCharacters(s, "--(");
    }
    PassesNext(f, s, CODE, Chunk(m.length, after, true));
  }

  lemma PlainTurnIsCalm(s: string, n: nat)
    requires s != "" && !Opens(s) && Unhidden(s) && n == PlainTurn(s).length
    ensures Calm(s, n)
  {
    var t := CodeToken(s);
    if t.None? {
      UnmatchedIsCalm(s);
    } else {
      CodeTokenIsCalm(s, t.value.kind, n);
    }
  }

  lemma UnmatchedIsCalm(s: string)
    requires s != "" && !Opens(s) && CodeToken(s).None?
    ensures Calm(s, 1)
  {
    OrdinaryIsCalm(s, 1);
  }

  lemma CodeTokenIsCalm(s: string, kind: Kind, n: nat)
    requires s != "" && CodeToken(s) == Some(Match(kind, n)) && Unhidden(s)
    ensures Calm(s, n)
  {
    if kind.Number? {
      NumericIsCalm(s, n);
    } else if kind.Signs? {
      SignsAreCalm(s);
    } else if kind.Word? {
      SpanIsCalm(s, n, Name);
    } else {
      SpanIsCalm(s, n, Blank);
    }
  }

  lemma SpanIsCalm(s: string, n: nat, p: char -> bool)
    requires n == Span(s, p) && forall c :: p(c) ==> Ordinary(c)
    ensures Calm(s, n)
  {
    OrdinaryIsCalm(s, n);
  }

  lemma TurnPasses(f: Reader, s: string, depth: nat, t: Turning)
    requires TakesTurns(f) && '\n' !in s && s != "" && t == TurnOf(s, depth) && (depth == 0 ==> Honest(s))
    ensures Passes(f, s, State(depth, 0), t.length, StateOf(t.open), Hides(t.kind))
  {
    if depth > 0 {
      CommentTurnPasses(f, s, depth, t);
    } else if MarkedToken(s).None? {
      PlainTurnIsCalm(s, t.length);
      CalmPasses(f, s, t.length);
    } else {
      MarkedTurnPasses(f, s, MarkedToken(s).value, t);
    }
  }

  lemma MarkedTurnPasses(f: Reader, s: string, m: Match, t: Turning)
    requires TakesTurns(f) && '\n' !in s && s != "" && t == TurnOf(s, 0) && MarkedToken(s) == Some(m) && !m.kind.Stray?
    ensures Passes(f, s, CODE, t.length, StateOf(t.open), Hides(t.kind))
  {
    if m.kind.RawQuotes? {
      var closer := Find(s[m.length..], Run(m.length));
      RawTurnEnds(s, t, m.length, closer);
      RawTurnPasses(f, s, m.length, closer, RawLength(|s| - m.length, m.length, closer), RawAfter(m.length, closer));
    } else if m.kind.Text? || m.kind.Character? {
      QuotedTurnPasses(f, s, m);
    } else {
      HyphensTurnPasses(f, s, m);
    }
  }

  // ------------------------------------------------------------------
  // A line, and lines

  lemma MaskedFirst(s: string, state: State)
    requires s != ""
    ensures Masked(s, state).text[0] == if Next(s, state).masked then ' ' else s[0]
  {
  }

  lemma RestStarts(s: string, t: Turning, k: nat)
    requires s != "" && t == TurnOf(s, 0) && k < t.length
    ensures var out := Blanked(Rest(s, Open(0, None)).pieces);
            |out| > k && out[k] == if Hides(t.kind) then ' ' else s[k]
  {
    BlankedAfter(t.kind, s[..t.length], Rest(s[t.length..], t.open));
  }

  lemma BlankedAfter(kind: Class, body: string, rest: Scanned)
    ensures Blanked(After(kind, body, rest).pieces) == Shown(body, Hides(kind)) + Blanked(rest.pieces)
  {
    assert ([Piece(kind, body)] + rest.pieces)[1..] == rest.pieces;
  }

  lemma StrayIsShown(s: string)
    requires StartsWith(s, ")--")
    ensures s[0] == ')' && !TidyAt(s) && !Next(s, CODE).masked
  {
    AtCharacters(s, ")--");
    assert s[1..][..2] == s[..3][1..];
  }

  lemma StrayDiffers(s: string)
    requires s != "" && MarkedToken(s) == Some(Match(Stray, 3))
    ensures !TidyAt(s) && Blanked(Rest(s, Open(0, None)).pieces) != Masked(s, CODE).text
  {
    StrayIsShown(s);
    MaskedFirst(s, CODE);
    RestStarts(s, TurnOf(s, 0), 0);
  }

  lemma UnclosedDiffers(s: string)
    requires s != "" && MarkedToken(s).None? && Opens(s)
    ensures !TidyAt(s) && Blanked(Rest(s, Open(0, None)).pieces) != Masked(s, CODE).text
  {
    MaskedFirst(s, CODE);
    RestStarts(s, TurnOf(s, 0), 0);
  }

  lemma FirstAt(s: string, w: string, n: nat) returns (k: nat)
    requires n < |s| && StartsWith(s[n..], w)
    ensures k <= n && StartsWith(s[k..], w) && forall j :: 0 <= j < k ==> !StartsWith(s[j..], w)
  {
    k := 0;
    while !StartsWith(s[k..], w)
      invariant k <= n && forall j :: 0 <= j < k ==> !StartsWith(s[j..], w)
      decreases n - k
    {
      k := k + 1;
    }
  }

  /** The first two hyphens a run of signs hides. */
  lemma FirstHidden(s: string) returns (k: nat)
    requires s != "" && !Opens(s) && !Unhidden(s)
    ensures CodeToken(s).Some? && 0 < k < CodeToken(s).value.length <= |s| && PlainTurn(s).kind == Operator
    ensures StartsWith(s[k..], "--") && Sign(s[k - 1]) && !Opens(s[k - 1..]) && Calm(s, k - 1)
  {
    var n := CodeToken(s).value.length;
    SignsReach(s);
    k :| 0 <= k < n && StartsWith(s[k..], "--");
    k := FirstAt(s, "--", k);
    assert s[0..] == s;
    HiddenAfterCalm(s, k, n);
  }

  lemma SignsReach(s: string)
    requires s != "" && CodeToken(s).Some? && CodeToken(s).value.kind.Signs?
    ensures CodeToken(s).value.length == Span(s, Sign) && PlainTurn(s).kind == Operator
  {
  }

  lemma HiddenAfterCalm(s: string, k: nat, n: nat)
    requires 0 < k < n <= |s| && n == Span(s, Sign) && forall j :: 0 <= j < k ==> !StartsWith(s[j..], "--")
    ensures Sign(s[k - 1]) && !Opens(s[k - 1..]) && Calm(s, k - 1)
  {
    forall j | 0 <= j < k
      ensures Sign(s[j]) && !Opens(s[j..])
    {
      assert s[j..][0] == s[j];
    }
    forall j | 0 <= j < k - 1
      ensures CalmAt(s[j..])
    {
      assert s[j..][1..] == s[j + 1..];
    }
  }

  lemma HiddenDiffers(s: string)
    requires s != "" && MarkedToken(s).None? && !Opens(s) && !Unhidden(s)
    ensures !Tidy(s, CODE) && Blanked(Rest(s, Open(0, None)).pieces) != Masked(s, CODE).text
  {
    var k := FirstHidden(s);
    ReadingTakesTurns();
    CalmPasses(Reading, s, k - 1);
    var r := s[k - 1..];
    assert r[1..] == s[k..] && r[0] == s[k - 1];
    HyphensMasked(r);
    assert s[k] == '-' by {
      AtCharacters(s[k..], "--");
    }
    RestStarts(s, TurnOf(s, 0), k);
    assert Masked(s, CODE).text[k] == Masked(r, CODE).text[1];
  }

  /** A sign before two hyphens is shown, and they are masked. */
  lemma HyphensMasked(s: string)
    requires |s| > 1 && Sign(s[0]) && !Opens(s) && StartsWith(s[1..], "--")
    ensures !Tidy(s, CODE) && Masked(s, CODE).text[1] == ' '
  {
    AtCharacters(s[1..], "--");
    if StartsWith(s, "--(") {
      AtCharacters(s, "--(");
    }
    assert "--" == "--("[..2];
    assert Next(s, CODE) == Chunk(1, CODE, false);
    MaskedStart(s, Chunk(1, CODE, false), CODE);
    MaskedFirst(s[1..], CODE);
  }

  lemma TurnDiffers(s: string)
    requires s != "" && !Honest(s)
    ensures !Tidy(s, CODE) && Blanked(Rest(s, Open(0, None)).pieces) != Masked(s, CODE).text
  {
    if MarkedToken(s).Some? {
      StrayDiffers(s);
    } else if Opens(s) {
      UnclosedDiffers(s);
    } else {
      HiddenDiffers(s);
    }
  }

  /** What is blanked is what is read exactly when tidy, and then the states agree. */
  ghost predicate Agrees(read: Read, out: Scanned) {
    && (Blanked(out.pieces) == read.view.text <==> read.tidy)
    && (read.tidy ==> StateOf(out.open) == read.view.state)
  }

  lemma AgreesAfter(f: Reader, s: string, state: State, n: nat, after: State, kind: Class, rest: Scanned)
    requires Passes(f, s, state, n, after, Hides(kind)) && Agrees(f(s[n..], after), rest)
    ensures Agrees(f(s, state), After(kind, s[..n], rest))
  {
    var head := Shown(s[..n], Hides(kind));
    BlankedAfter(kind, s[..n], rest);
    var a, b := Blanked(rest.pieces), f(s[n..], after).view.text;
    assert (head + a)[|head|..] == a && (head + b)[|head|..] == b;
  }

  lemma {:induction false} RestAgrees(s: string, open: Open)
    requires '\n' !in s && (s == "" || open.raw.None?)
    ensures Agrees(Reading(s, StateOf(open)), Rest(s, open))
    decreases |s|
  {
    if s != "" {
      if open.depth == 0 && !Honest(s) {
        TurnDiffers(s);
      } else {
        var t := TurnOf(s, open.depth);
        ReadingTakesTurns();
        TurnPasses(Reading, s, open.depth, t);
        RestAgrees(s[t.length..], t.open);
        AgreesAfter(Reading, s, StateOf(open), t.length, StateOf(t.open), t.kind, Rest(s[t.length..], t.open));
      }
    }
  }

  lemma OpenLineAgrees(f: Reader, s: string, open: Open, q: nat)
    requires StateOf(open) == State(0, q) && Passes(f, s, State(0, q), |s|, State(0, q), true)
    requires f("", State(0, q)) == Read(View("", State(0, q)), true)
    ensures Agrees(f(s, State(0, q)), Scanned([Piece(Quoted, s)], open))
  {
    assert s[..|s|] == s && s[|s|..] == "";
    AgreesAfter(f, s, State(0, q), |s|, State(0, q), Quoted, Scanned([], open));
  }

  /** A raw literal open from an earlier line, closed on this one or not. */
  lemma RawLineAgrees(f: Reader, line: Scanned, s: string, open: Open, q: nat, found: Option<nat>, rest: Scanned)
    requires StateOf(open) == State(0, q) && (found.Some? ==> found.value + q <= |s|)
    requires Passes(f, s, State(0, q), RawLength(|s|, q, found), RawAfter(q, found), true)
    requires f("", State(0, q)) == Read(View("", State(0, q)), true)
    requires match found {
               case None => line == Scanned([Piece(Quoted, s)], open)
               case Some(hit) => line == After(Quoted, s[..hit + q], rest) && Agrees(f(s[hit + q..], CODE), rest)
             }
    ensures Agrees(f(s, State(0, q)), line)
  {
    match found
    case None => OpenLineAgrees(f, s, open, q);
    case Some(hit) => AgreesAfter(f, s, State(0, q), hit + q, CODE, Quoted, rest);
  }

  ghost predicate RestAgreesAt(f: Reader, s: string, n: nat) {
    n <= |s| ==> Agrees(f(s[n..], CODE), Rest(s[n..], Open(0, None)))
  }

  lemma RawLineAgreesFor(f: Reader, s: string, open: Open, q: nat)
    requires TakesTurns(f) && q > 0 && open == Open(0, Some(Run(q)))
    requires f("", State(0, q)) == Read(View("", State(0, q)), true) && forall n :: RestAgreesAt(f, s, n)
    ensures Agrees(f(s, State(0, q)), Line(s, open))
  {
    var found := Find(s, Run(q));
    RawPasses(f, s, q, found);
    var n := if found.Some? then found.value + q else |s|;
    assert RestAgreesAt(f, s, n);
    RawLineAgrees(f, Line(s, open), s, open, q, found, Rest(s[n..], Open(0, None)));
  }

  lemma ReadingAgreesAt(s: string, n: nat)
    requires '\n' !in s
    ensures RestAgreesAt(Reading, s, n)
  {
    if n <= |s| {
      RestAgrees(s[n..], Open(0, None));
    }
  }

  lemma LineAgrees(s: string, open: Open)
    requires '\n' !in s && Proper(open)
    ensures Agrees(Reading(s, StateOf(open)), Line(s, open))
  {
    match open.raw
    case None => RestAgrees(s, open);
    case Some(raw) =>
      QuotesAreRun(raw);
      assert raw == Run(|raw|);
      ReadingTakesTurns();
      forall n: nat
        ensures RestAgreesAt(Reading, s, n)
      {
        ReadingAgreesAt(s, n);
      }
      RawLineAgreesFor(Reading, s, open, |raw|);
  }

  lemma {:induction false} LinesAgree(lines: seq<string>, open: Open)
    requires Proper(open) && forall line :: line in lines ==> '\n' !in line
    ensures BlankedLines(lines, open) == MaskedLines(lines, StateOf(open)) <==> TidyLines(lines, StateOf(open))
  {
    if lines != [] {
      var state, line := StateOf(open), Line(lines[0], open);
      LineAgrees(lines[0], open);
      LineIsWhole(lines[0], open);
      LinesAgree(lines[1..], line.open);
      assert BlankedLines(lines, open)[0] == Blanked(line.pieces);
      assert MaskedLines(lines, state)[0] == Masked(lines[0], state).text;
      assert BlankedLines(lines, open)[1..] == BlankedLines(lines[1..], line.open);
      assert MaskedLines(lines, state)[1..] == MaskedLines(lines[1..], Masked(lines[0], state).state);
    }
  }

  /** The symbol table's text is `visible_code`'s exactly when every line is tidy. */
  lemma BlankingAgrees(lines: seq<string>)
    requires forall line :: line in lines ==> '\n' !in line
    ensures BlankedLines(lines, Open(0, None)) == MaskedLines(lines, CODE) <==> TidyLines(lines, CODE)
  {
    LinesAgree(lines, Open(0, None));
  }

  /** A line that is not: a sign joined to a comment hides it from the highlighter. */
  lemma SignHidesComment()
    ensures Masked("+--(", CODE).state == State(1, 0) && Line("+--(", Open(0, None)).open == Open(0, None)
  {
    var s := "+--(";
    assert s[1..] == "--(" && s[1..][3..] == "" && s[4..] == "";
    assert Next(s, CODE) == Chunk(1, CODE, false);
    assert Next(s[1..], CODE) == Chunk(3, State(1, 0), true);
    assert s[1..][1..] == "-(" && s[1..][1..][1..] == "(" && s[1..][1..][1..][1..] == "";
    assert Span(s, Sign) == 4;
    assert TurnOf(s, 0) == Turning(Operator, 4, Open(0, None));
  }

  // ------------------------------------------------------------------
  // The symbol table's loops

  method BlankPieces(pieces: seq<Piece>) returns (text: string)
    ensures text == Blanked(pieces)
  {
    text := "";
    for n := 0 to |pieces|
      invariant text + Blanked(pieces[n..]) == Blanked(pieces)
    {
      var shown := Shown(pieces[n].body, Hides(pieces[n].kind));
      assert pieces[n..][1..] == pieces[n + 1..];
      BeforeBoth(text, shown, View(Blanked(pieces[n + 1..]), CODE));
      text := text + shown;
    }
    assert text + "" == text;
  }

  /** The text `collect_symbols` looks for declarations in. */
  method BlankLines(lines: seq<string>) returns (blanked: seq<string>)
    ensures blanked == BlankedLines(lines, Open(0, None))
  {
    blanked := [];
    var scanner := new Scanner();
    for n := 0 to |lines|
      invariant fresh(scanner) && Proper(scanner.State())
      invariant blanked + BlankedLines(lines[n..], scanner.State()) == BlankedLines(lines, Open(0, None))
    {
      assert lines[n..][1..] == lines[n + 1..];
      var pieces := scanner.Scan(lines[n]);
      var text := BlankPieces(pieces);
      blanked := blanked + [text];
    }
  }
}
