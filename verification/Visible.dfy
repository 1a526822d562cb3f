/** `visible_code`: which positions of a text are code, line by line.  Two counters
    are carried from one line to the next, the depth of block comments and the
    quotes that opened a raw literal; each turn of its loop masks one chunk. */
module Visibility {

  import opened Characters

  /** At most one of the two counters is in use. */
  datatype State = State(depth: nat, quotes: nat)

  const CODE := State(0, 0)

  /** One turn of the loop. */
  datatype Chunk = Chunk(length: nat, after: State, masked: bool)

  /** The run of quotes a text begins with. */
  function Quotes(s: string): (n: nat)
    ensures n <= |s|
  {
    if s != "" && s[0] == '"' then 1 + Quotes(s[1..]) else 0
  }

  /** The rest of a quoted literal: to the closing quote, or the whole line. */
  function Closing(s: string, quote: char): (n: nat)
    ensures n <= |s|
  {
    if s == "" then 0
    else if s[0] == '\\' then (if |s| > 1 then 2 + Closing(s[2..], quote) else 1)
    else if s[0] == quote then 1
    else 1 + Closing(s[1..], quote)
  }

  function Next(s: string, state: State): (c: Chunk)
    requires s != ""
    ensures 0 < c.length <= |s|
  {
    if state.depth > 0 then
      if StartsWith(s, "--(") then Chunk(3, state.(depth := state.depth + 1), true)
      else if StartsWith(s, ")--") then Chunk(3, state.(depth := state.depth - 1), true)
      else Chunk(1, state, true)
    else if state.quotes > 0 then
      if s[0] != '"' then Chunk(1, state, true)
      else if Quotes(s) < state.quotes then Chunk(Quotes(s), state, true)
      else Chunk(state.quotes, state.(quotes := 0), true)
    else if StartsWith(s, "--(") then Chunk(3, state.(depth := 1), true)
    else if StartsWith(s, "--") then Chunk(|s|, state, true)
    else if s[0] == '"' then
      if Quotes(s) >= 3 then Chunk(Quotes(s), state.(quotes := Quotes(s)), true)
      else Chunk(1 + Closing(s[1..], '"'), state, true)
    else if s[0] == '\'' then Chunk(1 + Closing(s[1..], '\''), state, true)
    else Chunk(1, state, false)
  }

  function Spaces(n: nat): string {
    seq(n, _ => ' ')
  }

  function Shown(s: string, masked: bool): (r: string)
    ensures |r| == |s|
  {
    if masked then Spaces(|s|) else s
  }

  datatype View = View(text: string, state: State)

  function Before(text: string, view: View): View {
    view.(text := text + view.text)
  }

  /** A line as it is left visible, and the state carried to the next. */
  function Masked(line: string, state: State): (v: View)
    ensures |v.text| == |line|
    decreases |line|
  {
    if line == "" then View("", state)
    else
      var c := Next(line, state);
      Before(Shown(line[..c.length], c.masked), Masked(line[c.length..], c.after))
  }

  function MaskedLines(lines: seq<string>, state: State): seq<string> {
    if lines == [] then []
    else
      var v := Masked(lines[0], state);
      [v.text] + MaskedLines(lines[1..], v.state)
  }

  // ------------------------------------------------------------------
  // A whole text, as its lines are seen one after another

  function LineEnd(s: string): (n: nat)
    ensures n <= |s| && (n < |s| ==> s[n] == '\n') && '\n' !in s[..n]
  {
    if s == "" || s[0] == '\n' then 0
    else
      var n := 1 + LineEnd(s[1..]);
      assert s[..n] == [s[0]] + s[1..][..n - 1];
      n
  }

  function Lines(s: string): (lines: seq<string>)
    ensures lines != [] && forall line :: line in lines ==> '\n' !in line
    decreases |s|
  {
    var n := LineEnd(s);
    if n == |s| then [s[..n]] else [s[..n]] + Lines(s[n + 1..])
  }

  function JoinedLines(lines: seq<string>): string {
    if lines == [] then "" else if |lines| == 1 then lines[0] else lines[0] + "\n" + JoinedLines(lines[1..])
  }

  function Seen(s: string, state: State): (v: View)
    decreases |s|
  {
    var n := LineEnd(s);
    var v := Masked(s[..n], state);
    if n == |s| then v else Before(v.text + "\n", Seen(s[n + 1..], v.state))
  }

  lemma {:induction false} SeenLineByLine(s: string, state: State)
    ensures Seen(s, state).text == JoinedLines(MaskedLines(Lines(s), state))
    decreases |s|
  {
    var n := LineEnd(s);
    var v := Masked(s[..n], state);
    if n < |s| {
      SeenLineByLine(s[n + 1..], v.state);
      var rest := MaskedLines(Lines(s[n + 1..]), v.state);
      assert Lines(s)[1..] == Lines(s[n + 1..]);
      assert MaskedLines(Lines(s), state) == [v.text] + rest;
      assert rest != [];
      assert ([v.text] + rest)[1..] == rest;
      assert v.text + "\n" + JoinedLines(rest) == (v.text + "\n") + JoinedLines(rest);
    } else {
      assert MaskedLines([s[..n]], state) == [v.text];
    }
  }

  // ------------------------------------------------------------------
  // A text is seen chunk by chunk

  lemma LineEndOfRest(s: string, k: nat)
    requires k <= LineEnd(s)
    ensures LineEnd(s[k..]) == LineEnd(s) - k
    decreases k
  {
    if k > 0 {
      assert s[k..] == s[1..][k - 1..];
      LineEndOfRest(s[1..], k - 1);
    } else {
      assert s[0..] == s;
    }
  }

  lemma SeenBreak(s: string, state: State)
    requires s != "" && s[0] == '\n'
    ensures Seen(s, state) == Before("\n", Seen(s[1..], state))
  {
    assert s[..0] == "";
  }

  lemma BeforeBoth(a: string, b: string, v: View)
    ensures Before(a, Before(b, v)) == Before(a + b, v)
  {
    assert a + (b + v.text) == a + b + v.text;
  }

  lemma MaskedChunk(s: string, n: nat, state: State, c: Chunk)
    requires 0 < n <= |s| && c == Next(s[..n], state)
    ensures c.length <= n
    ensures Masked(s[..n], state)
            == Before(Shown(s[..c.length], c.masked), Masked(s[c.length..][..n - c.length], c.after))
  {
    assert s[..n][..c.length] == s[..c.length];
    assert s[..n][c.length..] == s[c.length..][..n - c.length];
  }

  /** Lines that begin alike, with the same lines after them. */
  lemma BeforeLine(whole: View, later: View, head: string, tail: View, rest: View, last: bool)
    requires whole == if last then Before(head, tail) else Before(Before(head, tail).text + "\n", rest)
    requires later == if last then tail else Before(tail.text + "\n", rest)
    ensures whole == Before(head, later)
  {
    assert head + (tail.text + "\n") == (head + tail.text) + "\n";
    BeforeBoth(head, tail.text + "\n", rest);
  }

  /** A text is seen as its first line, and then the others. */
  ghost predicate ByLine(g: (string, State) -> View, s: string, state: State, line: View) {
    var n := LineEnd(s);
    g(s, state) == if n == |s| then line else Before(line.text + "\n", g(s[n + 1..], line.state))
  }

  lemma SeenByLine(s: string, state: State)
    ensures ByLine(Seen, s, state, Masked(s[..LineEnd(s)], state)) == true
  {
  }

  lemma ByLineHead(g: (string, State) -> View, s: string, k: nat, state: State, after: State, line: View,
                   head: string, tail: View)
    requires k <= LineEnd(s) && ByLine(g, s, state, line) == true && ByLine(g, s[k..], after, tail) == true
    requires line == Before(head, tail)
    ensures g(s, state) == Before(head, g(s[k..], after))
  {
    var n := LineEnd(s);
    LineEndOfRest(s, k);
    var last := n == |s|;
    assert !last ==> s[k..][n - k + 1..] == s[n + 1..];
    var rest := if last then tail else g(s[n + 1..], tail.state);
    BeforeLine(g(s, state), g(s[k..], after), head, tail, rest, last);
  }

  lemma SeenRest(s: string, n: nat, k: nat, after: State)
    requires k <= n == LineEnd(s)
    ensures ByLine(Seen, s[k..], after, Masked(s[k..][..n - k], after)) == true
  {
    LineEndOfRest(s, k);
    SeenByLine(s[k..], after);
  }

  lemma SeenChunk(s: string, state: State, c: Chunk)
    requires s != "" && s[0] != '\n' && c == Next(s[..LineEnd(s)], state)
    ensures c.length <= LineEnd(s)
            && Seen(s, state) == Before(Shown(s[..c.length], c.masked), Seen(s[c.length..], c.after))
  {
    var n, k, line := LineEnd(s), c.length, Masked(s[..LineEnd(s)], state);
    MaskedChunk(s, n, state, c);
    SeenByLine(s, state);
    SeenRest(s, n, k, c.after);
    ByLineHead(Seen, s, k, state, c.after, line, Shown(s[..k], c.masked), Masked(s[k..][..n - k], c.after));
  }

  lemma AtCharacters(s: string, w: string)
    requires StartsWith(s, w)
    ensures forall k :: 0 <= k < |w| ==> s[k] == w[k]
    ensures forall n :: 0 <= n <= |w| ==> StartsWith(s, w[..n])
  {
    forall k | 0 <= k < |w|
      ensures s[k] == w[k]
    {
      assert s[..|w|][k] == s[k];
    }
    forall n | 0 <= n <= |w|
      ensures StartsWith(s, w[..n])
    {
      assert s[..n] == s[..|w|][..n];
    }
  }

  /** The words the scanners look for stay on one line. */
  lemma AtOnLine(s: string, w: string)
    requires '\n' !in w
    ensures StartsWith(s[..LineEnd(s)], w) <==> StartsWith(s, w)
  {
    var n := LineEnd(s);
    if |w| <= n {
      assert s[..n][..|w|] == s[..|w|];
    } else if StartsWith(s, w) {
      AtCharacters(s, w);
    }
  }

  lemma {:induction false} QuotesOnLine(s: string)
    ensures Quotes(s[..LineEnd(s)]) == Quotes(s) <= LineEnd(s)
  {
    if s != "" && s[0] == '"' {
      QuotesOnLine(s[1..]);
      assert s[..LineEnd(s)][1..] == s[1..][..LineEnd(s[1..])];
    }
  }

  /** Where a quoted literal or a comment begins. */
  predicate Opens(s: string) {
    s != "" && (s[0] == '"' || s[0] == '\'' || StartsWith(s, "--"))
  }

  // ------------------------------------------------------------------
  // The loop

  /** The quotes from `start`, one by one. */
  method QuotesFrom(line: string, start: nat) returns (i: nat)
    requires start <= |line|
    ensures i == start + Quotes(line[start..]) <= |line|
  {
    i := start;
    while i < |line| && line[i] == '"'
      invariant start <= i <= |line|
      invariant start + Quotes(line[start..]) == i + Quotes(line[i..])
    {
      assert line[i..][1..] == line[i + 1..];
      i := i + 1;
    }
  }

  method ClosingFrom(line: string, start: nat, quote: char) returns (i: nat)
    requires start <= |line|
    ensures i == start + Closing(line[start..], quote) <= |line|
  {
    i := start;
    while i < |line|
      invariant start <= i <= |line|
      invariant start + Closing(line[start..], quote) == i + Closing(line[i..], quote)
    {
      if line[i] == '\\' {
        if i + 2 <= |line| {
          assert line[i..][2..] == line[i + 2..];
        }
        i := if i + 2 <= |line| then i + 2 else |line|;
      } else if line[i] == quote {
        i := i + 1;
        break;
      } else {
        assert line[i..][1..] == line[i + 1..];
        i := i + 1;
      }
    }
  }

  /** One turn from `start`: where it stops, what it leaves open, whether it masks. */
  method Turn(line: string, start: nat, depth: nat, quotes: nat)
    returns (i: nat, blockDepth: nat, rawQuotes: nat, masks: bool)
    requires start < |line|
    ensures start < i <= |line|
    ensures Chunk(i - start, State(blockDepth, rawQuotes), masks) == Next(line[start..], State(depth, quotes))
  {
    i, blockDepth, rawQuotes, masks := start, depth, quotes, true;
    if blockDepth > 0 {
      if StartsAt(line, "--(", i) {
        blockDepth, i := blockDepth + 1, i + 3;
      } else if StartsAt(line, ")--", i) {
        blockDepth, i := blockDepth - 1, i + 3;
      } else {
        i := i + 1;
      }
    } else if rawQuotes > 0 {
      if line[i] == '"' {
        i := QuotesFrom(line, i);
        if i - start >= rawQuotes {
          i, rawQuotes := start + rawQuotes, 0;
        }
      } else {
        i := i + 1;
      }
    } else if StartsAt(line, "--(", i) {
      blockDepth, i := 1, i + 3;
    } else if StartsAt(line, "--", i) {
      i := |line|;
    } else if line[i] == '"' {
      i := QuotesFrom(line, i);
      if i - start >= 3 {
        rawQuotes := i - start;
      } else {
        assert line[start..][1..] == line[start + 1..];
        i := ClosingFrom(line, start + 1, '"');
      }
    } else if line[i] == '\'' {
      assert line[start..][1..] == line[start + 1..];
      i := ClosingFrom(line, start + 1, '\'');
    } else {
      i, masks := i + 1, false;
    }
  }

  /** The line with its positions from `start` to `i` masked, when the turn masks. */
  lemma OneTurn(line: string, was: string, start: nat, i: nat, masks: bool, state: State, after: State)
    requires start < i <= |line| == |was| && was[start..] == line[start..]
    requires Chunk(i - start, after, masks) == Next(line[start..], state)
    ensures var now := MaskedAt(was, start, i, masks);
            && now[i..] == line[i..]
            && Before(now[..i], Masked(line[i..], after)) == Before(was[..start], Masked(line[start..], state))
  {
    var s, k := line[start..], i - start;
    var head, rest := Shown(s[..k], masks), Masked(line[i..], after);
    MaskedStart(s, Chunk(k, after, masks), state);
    assert s[k..] == line[i..];
    AsMasked(line, was, start, i, masks);
    BeforeBoth(was[..start], head, rest);
  }

  lemma MaskedStart(s: string, c: Chunk, state: State)
    requires s != "" && c == Next(s, state)
    ensures Masked(s, state) == Before(Shown(s[..c.length], c.masked), Masked(s[c.length..], c.after))
  {
  }

  function MaskedAt(was: string, start: nat, i: nat, masks: bool): (now: string)
    requires start <= i <= |was|
    ensures |now| == |was|
  {
    if masks then was[..start] + Spaces(i - start) + was[i..] else was
  }

  lemma AsMasked(line: string, was: string, start: nat, i: nat, masks: bool)
    requires start < i <= |line| == |was| && was[start..] == line[start..]
    ensures var now := MaskedAt(was, start, i, masks);
            now[i..] == line[i..] && now[..i] == was[..start] + Shown(line[start..][..i - start], masks)
  {
    assert was[i..] == was[start..][i - start..] && line[i..] == line[start..][i - start..];
    assert was[start..i] == was[start..][..i - start];
  }

  method VisibleLine(line: string, depth: nat, quotes: nat) returns (visible: string, blockDepth: nat, rawQuotes: nat)
    ensures View(visible, State(blockDepth, rawQuotes)) == Masked(line, State(depth, quotes))
  {
    visible, blockDepth, rawQuotes := line, depth, quotes;
    var i := 0;
    assert line[0..] == line;
    while i < |line|
      invariant i <= |line| == |visible|
      invariant visible[i..] == line[i..]
      invariant Before(visible[..i], Masked(line[i..], State(blockDepth, rawQuotes)))
                == Masked(line, State(depth, quotes))
    {
      var start, masks := i, true;
      ghost var was, state := visible, State(blockDepth, rawQuotes);
      i, blockDepth, rawQuotes, masks := Turn(line, i, blockDepth, rawQuotes);
      OneTurn(line, was, start, i, masks, state, State(blockDepth, rawQuotes));
      visible := MaskedAt(visible, start, i, masks);
    }
    assert line[i..] == "" && visible[..i] == visible;
  }

  method VisibleCode(lines: seq<string>) returns (visible: seq<string>)
    ensures visible == MaskedLines(lines, CODE)
  {
    visible := [];
    var blockDepth, rawQuotes := 0, 0;
    for n := 0 to |lines|
      invariant visible + MaskedLines(lines[n..], State(blockDepth, rawQuotes)) == MaskedLines(lines, CODE)
    {
      var text;
      assert lines[n..][1..] == lines[n + 1..];
      text, blockDepth, rawQuotes := VisibleLine(lines[n], blockDepth, rawQuotes);
      visible := visible + [text];
    }
  }
}
