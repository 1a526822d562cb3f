/** The highlighter's line scanner.  Its token expression is the ordered choice of
    the source; comments and raw literals are followed with text searches.  What it
    blanks for the symbol table is compared with what `visible_code` masks. */
module Highlighting {

  import opened Options
  import opened Characters
  import opened Visibility

  datatype Kind = RawQuotes | Doc | Opening | Stray | LineComment | Text | Character | Number | Word | Signs | Blanks

  datatype Match = Match(kind: Kind, length: nat)

  /** The classes of pieces; words are told apart elsewhere. */
  datatype Class = Comment | DocComment | Quoted | Numeral | Operator | Other

  datatype Piece = Piece(kind: Class, body: string)

  // ------------------------------------------------------------------
  // The token expression

  predicate Binary(c: char) { c == '0' || c == '1' || c == '_' }

  predicate Octal(c: char) { '0' <= c <= '7' || c == '_' }

  /** The printable punctuation other than the quotes, the underscore and the backquote. */
  predicate Sign(c: char) {
    c == '!' || '#' <= c <= '&' || '(' <= c <= '/' || ':' <= c <= '@' || '[' <= c <= '^' || '{' <= c <= '~'
  }

  /** What `\s` matches. */
  predicate Blank(c: char) {
    '\t' <= c <= '\r' || '\U{1c}' <= c <= ' ' || c == '\U{85}' || c == '\U{a0}' || c == '\U{1680}'
    || '\U{2000}' <= c <= '\U{200a}' || c == '\U{2028}' || c == '\U{2029}' || c == '\U{202f}' || c == '\U{205f}'
    || c == '\U{3000}'
  }

  predicate Joint(c: char) { c == '.' || c == '+' || c == '-' }

  predicate NumericAt(s: string, n: nat, k: nat)
    requires k < n <= |s|
  {
    Name(s[k]) || (Joint(s[k]) && k + 1 < n && Name(s[k + 1]))
  }

  /** Characters of a number: a point or a sign in it is followed by another. */
  ghost predicate Numeric(s: string, n: nat)
    requires n <= |s|
  {
    forall k :: 0 <= k < n ==> NumericAt(s, n, k)
  }

  lemma SpanIsNumeric(s: string, p: char -> bool)
    requires forall c :: p(c) ==> Name(c)
    ensures Numeric(s, Span(s, p))
  {
  }

  function Fraction(s: string, p: char -> bool): (n: nat)
    requires forall c :: p(c) ==> Name(c)
    ensures n <= |s| && Numeric(s, n)
  {
    if s != "" && s[0] == '.' && Span(s[1..], p) > 0 then
      SpanIsNumeric(s[1..], p);
      var n := 1 + Span(s[1..], p);
      assert Numeric(s, n) by {
        forall k | 0 <= k < n
          ensures NumericAt(s, n, k)
        {
          if k >= 1 {
            assert NumericAt(s[1..], n - 1, k - 1);
          } else {
            assert s[1] == s[1..][0];
          }
        }
      }
      n
    else 0
  }

  function Exponent(s: string, lower: char, upper: char): (n: nat)
    requires Name(lower) && Name(upper)
    ensures n <= |s| && Numeric(s, n)
  {
    if s == "" || !(s[0] == lower || s[0] == upper) then 0
    else
      var start := if |s| > 1 && (s[1] == '+' || s[1] == '-') then 2 else 1;
      var digits := Span(s[start..], Digit);
      if digits > 0 then
        SpanIsNumeric(s[start..], Digit);
        assert s[start] == s[start..][0];
        var n := start + digits;
        assert Numeric(s, n) by {
          forall k | 0 <= k < n
            ensures NumericAt(s, n, k)
          {
            if k >= start {
              assert NumericAt(s[start..], digits, k - start);
            }
          }
        }
        n
      else 0
  }

  lemma NumericBoth(s: string, m: nat, n: nat)
    requires m <= |s| && n <= |s| - m && Numeric(s, m) && Numeric(s[m..], n)
    ensures Numeric(s, m + n)
  {
    var both := m + n;
    forall k | 0 <= k < both
      ensures NumericAt(s, both, k)
    {
      if k < m {
        assert NumericAt(s, m, k);
      } else {
        assert NumericAt(s[m..], n, k - m);
      }
    }
  }

  /** A whole part with the parts that may follow it. */
  function Continued(s: string, whole: nat, p: char -> bool, lower: char, upper: char): (n: nat)
    requires whole <= |s| && Numeric(s, whole)
    requires Name(lower) && Name(upper) && forall c :: p(c) ==> Name(c)
    ensures whole <= n <= |s| && Numeric(s, n)
  {
    var fraction := Fraction(s[whole..], p);
    NumericBoth(s, whole, fraction);
    var f := whole + fraction;
    var exponent := Exponent(s[f..], lower, upper);
    NumericBoth(s, f, exponent);
    f + exponent
  }

  /** A number after its base prefix: the digits of the base. */
  function Based(s: string, lower: char, upper: char, p: char -> bool): (n: nat)
    requires Name(lower) && Name(upper) && forall c :: p(c) ==> Name(c)
    ensures n <= |s| && Numeric(s, n)
  {
    if |s| >= 2 && s[0] == '0' && (s[1] == lower || s[1] == upper) && Span(s[2..], p) > 0 then
      assert Numeric(s, 2);
      SpanIsNumeric(s[2..], p);
      NumericBoth(s, 2, Span(s[2..], p));
      2 + Span(s[2..], p)
    else 0
  }

  function NumberLength(s: string): (n: nat)
    ensures n <= |s| && Numeric(s, n)
  {
    var h, b, o := Based(s, 'x', 'X', Hex), Based(s, 'b', 'B', Binary), Based(s, 'o', 'O', Octal);
    if h > 0 then Continued(s, h, Hex, 'p', 'P')
    else if b > 0 then b
    else if o > 0 then o
    else if s == "" || !Digit(s[0]) then 0
    else Continued(s, Span(s, Decimal), Decimal, 'e', 'E')
  }

  /** The rest of a text literal closed on its line. */
  function TextRest(s: string): (n: Option<nat>)
    ensures n.Some? ==> 0 < n.value <= |s|
  {
    if s == "" || s[0] == '\n' then None
    else if s[0] == '"' then Some(1)
    else if s[0] != '\\' then More(1, TextRest(s[1..]))
    else if |s| > 1 && s[1] != '\n' then More(2, TextRest(s[2..]))
    else None
  }

  /** A character literal: one character, or one behind a backslash. */
  function CharacterLength(s: string): (n: Option<nat>)
    ensures n.Some? ==> 0 < n.value <= |s|
  {
    if |s| >= 3 && s[0] == '\'' && s[1] !in "'\\\n" && s[2] == '\'' then Some(3)
    else if |s| >= 4 && s[0] == '\'' && s[1] == '\\' && s[2] != '\n' && s[3] == '\'' then Some(4)
    else None
  }

  /** `TOKEN.match`: the first alternative that matches. */
  function Token(s: string): (m: Option<Match>)
    requires s != ""
    ensures m.Some? ==> 0 < m.value.length <= |s|
  {
    if MarkedToken(s).Some? then MarkedToken(s) else CodeToken(s)
  }

  /** The alternatives for comments and literals come first. */
  function MarkedToken(s: string): (m: Option<Match>)
    requires s != ""
    ensures m.Some? ==> 0 < m.value.length <= |s|
  {
    if Quotes(s) >= 3 then Some(Match(RawQuotes, Quotes(s)))
    else if StartsWith(s, "---") then assert s[..3] == "---"; CommentEnds(s); Some(Match(Doc, LineEnd(s)))
    else if StartsWith(s, "--(") then Some(Match(Opening, 3))
    else if StartsWith(s, ")--") then Some(Match(Stray, 3))
    else if StartsWith(s, "--") then CommentEnds(s); Some(Match(LineComment, LineEnd(s)))
    else if s[0] == '"' && TextRest(s[1..]).Some? then Some(Match(Text, 1 + TextRest(s[1..]).value))
    else if CharacterLength(s).Some? then Some(Match(Character, CharacterLength(s).value))
    else None
  }

  function CodeToken(s: string): (m: Option<Match>)
    requires s != ""
    ensures m.Some? ==> 0 < m.value.length <= |s|
    ensures m.Some? ==> var k := m.value.kind; k.Number? || k.Word? || k.Signs? || k.Blanks?
  {
    if NumberLength(s) > 0 then Some(Match(Number, NumberLength(s)))
    else if Name(s[0]) then Some(Match(Word, Span(s, Name)))
    else if Sign(s[0]) then Some(Match(Signs, Span(s, Sign)))
    else if Blank(s[0]) then Some(Match(Blanks, Span(s, Blank)))
    else None
  }

  lemma CommentEnds(s: string)
    requires s != "" && s[0] != '\n'
    ensures LineEnd(s) > 0
  {
  }

  // ------------------------------------------------------------------
  // One line

  /** `str.find`: the leftmost place of a word. */
  function Find(s: string, w: string): (k: Option<nat>)
    ensures k.Some? ==> k.value + |w| <= |s|
  {
    if StartsWith(s, w) then Some(0) else if s == "" then None else More(1, Find(s[1..], w))
  }

  /** What the scanner carries from line to line. */
  datatype Open = Open(depth: nat, raw: Option<string>)

  /** A raw literal is open with the run of quotes that opened it, and never in a comment. */
  predicate Proper(open: Open) {
    open.raw.Some? ==> open.depth == 0 && |open.raw.value| >= 3 && Quotes(open.raw.value) == |open.raw.value|
  }

  datatype Scanned = Scanned(pieces: seq<Piece>, open: Open)

  function After(kind: Class, body: string, rest: Scanned): Scanned {
    rest.(pieces := [Piece(kind, body)] + rest.pieces)
  }

  function ClassOf(kind: Kind): Class {
    match kind
    case Doc => DocComment
    case Opening | Stray | LineComment => Comment
    case RawQuotes | Text | Character => Quoted
    case Number => Numeral
    case Signs => Operator
    case Word | Blanks => Other
  }

  lemma {:induction false} QuotesOfRun(s: string, n: nat)
    requires n <= Quotes(s)
    ensures Quotes(s[..n]) == n && Quotes(s[n..]) == Quotes(s) - n
    decreases n
  {
    if n > 0 {
      QuotesOfRun(s[1..], n - 1);
      assert s[..n][1..] == s[1..][..n - 1] && s[n..] == s[1..][n - 1..];
    } else {
      assert s[..0] == "" && s[0..] == s;
    }
  }

  /** One turn of the loop: the length of its piece, and the state after it. */
  datatype Turning = Turning(kind: Class, length: nat, open: Open)

  function TurnOf(s: string, depth: nat): (t: Turning)
    requires s != ""
    ensures 0 < t.length <= |s| && Proper(t.open) && (t.length < |s| ==> t.open.raw.None?)
  {
    if depth > 0 then
      var close, nest := Find(s, ")--"), Find(s, "--(");
      if nest.Some? && (close.None? || nest.value < close.value) then
        Turning(Comment, nest.value + 3, Open(depth + 1, None))
      else if close.None? then Turning(Comment, |s|, Open(depth, None))
      else Turning(Comment, close.value + 3, Open(depth - 1, None))
    else if MarkedToken(s).None? then PlainTurn(s)
    else
      var m := MarkedToken(s).value;
      if m.kind.RawQuotes? then
        QuotesOfRun(s, Quotes(s));
        var closer := Find(s[m.length..], s[..m.length]);
        if closer.None? then Turning(Quoted, |s|, Open(0, Some(s[..m.length])))
        else Turning(Quoted, m.length + closer.value + m.length, Open(0, None))
      else Turning(ClassOf(m.kind), m.length, Open(if m.kind.Opening? then 1 else 0, None))
  }

  function PlainTurn(s: string): (t: Turning)
    requires s != ""
    ensures 0 < t.length <= |s| && t.open == Open(0, None) && (t.kind.Numeral? || t.kind.Operator? || t.kind.Other?)
  {
    PlainTurnOf(|s|, CodeToken(s))
  }

  function PlainTurnOf(length: nat, token: Option<Match>): (t: Turning)
    requires length > 0
    requires token.Some? ==> var m := token.value;
               0 < m.length <= length && (m.kind.Number? || m.kind.Word? || m.kind.Signs? || m.kind.Blanks?)
    ensures 0 < t.length <= length && t.open == Open(0, None) && (t.kind.Numeral? || t.kind.Operator? || t.kind.Other?)
  {
    match token
    case None => Turning(Other, 1, Open(0, None))
    case Some(m) => Turning(ClassOf(m.kind), m.length, Open(0, None))
  }

  /** The while loop of `scan`, from a position of the line. */
  function Rest(s: string, open: Open): (r: Scanned)
    decreases |s|
  {
    if s == "" || open.raw.Some? then Scanned([], open)
    else
      var t := TurnOf(s, open.depth);
      After(t.kind, s[..t.length], Rest(s[t.length..], t.open))
  }

  /** A line that begins inside a raw literal. */
  function RawLine(s: string, open: Open, length: nat, hit: Option<nat>): Scanned
    requires hit.Some? ==> hit.value + length <= |s|
  {
    if hit.None? then Scanned([Piece(Quoted, s)], open)
    else After(Quoted, s[..hit.value + length], Rest(s[hit.value + length..], Open(open.depth, None)))
  }

  function Line(s: string, open: Open): Scanned {
    match open.raw
    case None => Rest(s, open)
    case Some(raw) => RawLine(s, open, |raw|, Find(s, raw))
  }

  function Bodies(pieces: seq<Piece>): string {
    if pieces == [] then "" else pieces[0].body + Bodies(pieces[1..])
  }

  lemma PieceThenRest(s: string, n: nat, kind: Class, rest: Scanned)
    requires n <= |s| && Bodies(rest.pieces) == s[n..]
    ensures Bodies(After(kind, s[..n], rest).pieces) == s
  {
    assert ([Piece(kind, s[..n])] + rest.pieces)[1..] == rest.pieces;
  }

  lemma {:induction false} RestIsWhole(s: string, open: Open)
    requires Proper(open) && (s == "" || open.raw.None?)
    ensures Bodies(Rest(s, open).pieces) == s && Proper(Rest(s, open).open)
    decreases |s|
  {
    if s != "" {
      var t := TurnOf(s, open.depth);
      RestIsWhole(s[t.length..], t.open);
      PieceThenRest(s, t.length, t.kind, Rest(s[t.length..], t.open));
    }
  }

  lemma HitIsWhole(s: string, n: nat)
    requires n <= |s|
    ensures var r := After(Quoted, s[..n], Rest(s[n..], Open(0, None))); Bodies(r.pieces) == s && Proper(r.open)
  {
    RestIsWhole(s[n..], Open(0, None));
    PieceThenRest(s, n, Quoted, Rest(s[n..], Open(0, None)));
  }

  /** The pieces of a line are the line, and a raw literal is never open in a comment. */
  lemma LineIsWhole(s: string, open: Open)
    requires Proper(open)
    ensures Bodies(Line(s, open).pieces) == s && Proper(Line(s, open).open)
  {
    match open.raw
    case None => RestIsWhole(s, open);
    case Some(raw) =>
      var found := Find(s, raw);
      if found.Some? {
        HitIsWhole(s, found.value + |raw|);
      } else {
        PieceThenRest(s, |s|, Quoted, Scanned([], open));
        assert s[..|s|] == s;
      }
  }

  // ------------------------------------------------------------------
  // The scanner

  function Following(pieces: seq<Piece>, rest: Scanned): Scanned {
    rest.(pieces := pieces + rest.pieces)
  }

  lemma FollowingAfter(pieces: seq<Piece>, kind: Class, body: string, rest: Scanned)
    ensures Following(pieces, After(kind, body, rest)) == Following(pieces + [Piece(kind, body)], rest)
  {
    assert pieces + ([Piece(kind, body)] + rest.pieces) == pieces + [Piece(kind, body)] + rest.pieces;
  }

  lemma ScanTurn(text: string, pos: nat, was: Open, t: Turning, end: nat, pieces: seq<Piece>)
    requires pos < end <= |text| && was.raw.None? && end == pos + t.length && t == TurnOf(text[pos..], was.depth)
    ensures Following(pieces, Rest(text[pos..], was))
            == Following(pieces + [Piece(t.kind, text[pos..end])], Rest(text[end..], t.open))
  {
    var s := text[pos..];
    assert s[..t.length] == text[pos..end] && s[t.length..] == text[end..];
    FollowingAfter(pieces, t.kind, text[pos..end], Rest(text[end..], t.open));
  }

  class Scanner {
    var depth: nat
    var raw: Option<string>

    ghost function State(): Open
      reads this
    {
      Open(depth, raw)
    }

    constructor ()
      ensures State() == Open(0, None)
    {
      depth, raw := 0, None;
    }

    /** One turn of the loop, at `pos`. */
    method Turn(text: string, pos: nat) returns (kind: Class, end: nat)
      requires pos < |text| && raw.None?
      modifies this
      ensures pos < end <= |text|
      ensures Turning(kind, end - pos, State()) == TurnOf(text[pos..], old(depth))
    {
      var s := text[pos..];
      if depth > 0 {
        kind := Comment;
        var close, nest := Find(s, ")--"), Find(s, "--(");
        if nest.Some? && (close.None? || nest.value < close.value) {
          depth, end := depth + 1, pos + nest.value + 3;
        } else if close.None? {
          end := |text|;
        } else {
          depth, end := depth - 1, pos + close.value + 3;
        }
        return;
      }
      var token := Token(s);
      if token.None? {
        return Other, pos + 1;
      }
      var body := s[..token.value.length];
      kind, end := ClassOf(token.value.kind), pos + |body|;
      match token.value.kind
      case RawQuotes =>
        var closer := Find(s[|body|..], body);
        if closer.None? {
          raw, end := Some(body), |text|;
        } else {
          end := end + closer.value + |body|;
        }
      case Opening => depth := 1;
      case _ =>
    }

    /** `scan`. */
    method Scan(text: string) returns (pieces: seq<Piece>)
      requires Proper(State())
      modifies this
      ensures Scanned(pieces, State()) == Line(text, old(State()))
      ensures Bodies(pieces) == text && Proper(State())
    {
      LineIsWhole(text, State());
      pieces := [];
      var pos := 0;
      assert text[0..] == text;
      if raw.Some? {
        var hit := Find(text, raw.value);
        if hit.None? {
          return [Piece(Quoted, text)];
        }
        pos := hit.value + |raw.value|;
        pieces := [Piece(Quoted, text[..pos])];
        raw := None;
      }
      while pos < |text|
        invariant pos <= |text| && (raw.Some? ==> pos == |text|)
        invariant Following(pieces, Rest(text[pos..], State())) == Line(text, old(State()))
      {
        ghost var was := State();
        var kind, end := Turn(text, pos);
        ScanTurn(text, pos, was, Turning(kind, end - pos, State()), end, pieces);
        pieces := pieces + [Piece(kind, text[pos..end])];
        pos := end;
      }
      assert pieces + [] == pieces;
    }
  }
}
