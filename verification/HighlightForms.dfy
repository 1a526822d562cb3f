/** What the highlighter's token expression matches, alternative by alternative, and
    what class each piece has. */
module HighlightForms {
  import opened Options
  import opened Characters
  import opened Visibility
  import opened VisibleForms
  import opened Highlighting

  // ------------------------------------------------------------------
  // Comments and literals

  /** A text literal closed on its line: `s[..n]`, quotes included. */
  ghost predicate TextForm(s: string, n: nat) {
    2 <= n <= |s| && s[0] == '\"' && s[n - 1] == '\"' && TextInside(s[1..n - 1])
  }

  ghost predicate TextInside(text: string) {
    text == "" ||
    if text[0] == '\\' then |text| > 1 && text[1] != '\n' && TextInside(text[2..])
    else text[0] != '\"' && text[0] != '\n' && TextInside(text[1..])
  }

  /** A character literal: one character, or a backslash and one. */
  predicate CharacterForm(s: string, n: nat) {
    || (n == 3 && |s| >= 3 && s[0] == '\'' && s[1] != '\'' && s[1] != '\\' && s[1] != '\n' && s[2] == '\'')
    || (n == 4 && |s| >= 4 && s[0] == '\'' && s[1] == '\\' && s[2] != '\n' && s[3] == '\'')
  }

  /** Everything up to the line feed, or to the end. */
  ghost predicate ToLineEnd(s: string, n: nat) {
    n <= |s| && (forall k :: 0 <= k < n ==> s[k] != '\n') && (n < |s| ==> s[n] == '\n')
  }

  lemma {:induction false} LineEndIsThere(s: string, n: nat)
    ensures ToLineEnd(s, n) <==> n == LineEnd(s)
    decreases |s|
  {
    var end := LineEnd(s);
    forall k | 0 <= k < end
      ensures s[k] != '\n'
    {
      assert s[..end][k] in s[..end];
    }
  }

  lemma {:induction false} TextRestExactly(rest: string, n: nat)
    ensures TextRest(rest) == Some(n) <==> 0 < n <= |rest| && rest[n - 1] == '\"' && TextInside(rest[..n - 1])
    decreases |rest|
  {
    if rest != "" && rest[0] != '\n' && rest[0] != '\"' {
      var step := if rest[0] == '\\' then 2 else 1;
      if step <= |rest| && (step == 2 ==> rest[1] != '\n') {
        if n > step {
          TextRestExactly(rest[step..], n - step);
          if n <= |rest| {
            var text := rest[..n - 1];
            assert text[0] == rest[0] && text[step..] == rest[step..][..n - 1 - step];
            assert rest[step..][n - step - 1] == rest[n - 1];
            if step == 2 {
              assert text[1] == rest[1];
            }
          }
        } else if TextRest(rest[step..]).Some? {
          TextRestExactly(rest[step..], TextRest(rest[step..]).value);
        }
      } else if 0 < n <= |rest| && n > 1 {
        var text := rest[..n - 1];
        assert text[0] == rest[0];
        if |text| > 1 {
          assert text[1] == rest[1];
        }
      }
    }
  }

  lemma TextExactly(s: string, n: nat)
    requires s != "" && s[0] == '\"'
    ensures TextForm(s, n) <==> TextRest(s[1..]).Some? && n == 1 + TextRest(s[1..]).value
  {
    if n >= 2 {
      TextRestExactly(s[1..], n - 1);
      if n <= |s| {
        assert s[1..][..n - 2] == s[1..n - 1];
      }
    }
    if TextRest(s[1..]).Some? {
      TextRestExactly(s[1..], TextRest(s[1..]).value);
    }
  }

  /** The marked alternatives, in their order; `n` quotes stand at the beginning. */
  lemma MarkedExactly(s: string, n: nat, end: nat, text: nat, character: nat)
    requires s != "" && QuoteRun(s, n) && ToLineEnd(s, end)
    ensures var m := MarkedToken(s);
            if n >= 3 then m == Some(Match(RawQuotes, n))
            else if BeginsHyphens(s) && |s| >= 3 && s[2] == '-' then m == Some(Match(Doc, end))
            else if BeginsOpening(s) then m == Some(Match(Opening, 3))
            else if BeginsClosing(s) then m == Some(Match(Stray, 3))
            else if BeginsHyphens(s) then m == Some(Match(LineComment, end))
            else
              && (TextForm(s, text) ==> m == Some(Match(Text, text)))
              && (CharacterForm(s, character) ==> m == Some(Match(Character, character)))
              && (m.Some? ==> (m.value.kind == Text && TextForm(s, m.value.length))
                              || (m.value.kind == Character && CharacterForm(s, m.value.length)))
  {
    BeginsAsItDoes(s);
    QuotesAreRun(s, n);
    LineEndIsThere(s, end);
    if |s| >= 3 {
      assert s[..3] == [s[0], s[1], s[2]];
    }
    if s[0] == '\"' {
      TextExactly(s, text);
      if TextRest(s[1..]).Some? {
        TextExactly(s, 1 + TextRest(s[1..]).value);
      }
    }
  }

  /** Neither form has two lengths. */
  lemma LiteralsAreOne(s: string, a: nat, b: nat)
    ensures TextForm(s, a) && TextForm(s, b) ==> a == b
    ensures CharacterForm(s, a) && CharacterForm(s, b) ==> a == b
  {
    if TextForm(s, a) && TextForm(s, b) {
      TextExactly(s, a);
      TextExactly(s, b);
    }
  }

  // ------------------------------------------------------------------
  // Numbers, words, signs and blanks

  /** `s[i..j]` are such characters, and no more follow. */
  ghost predicate RunAt(s: string, i: nat, j: nat, p: char -> bool) {
    i <= j <= |s| && (forall k :: i <= k < j ==> p(s[k])) && (j < |s| ==> !p(s[j]))
  }

  predicate IsDigit(c: char) { '0' <= c <= '9' }

  predicate IsDecimal(c: char) { IsDigit(c) || c == '_' }

  predicate IsHex(c: char) { IsDigit(c) || 'a' <= c <= 'f' || 'A' <= c <= 'F' || c == '_' }

  predicate IsBinary(c: char) { c == '0' || c == '1' || c == '_' }

  predicate IsOctal(c: char) { '0' <= c <= '7' || c == '_' }

  predicate IsName(c: char) { 'a' <= c <= 'z' || 'A' <= c <= 'Z' || IsDigit(c) || c == '_' }

  /** The punctuation of the expression, character by character. */
  predicate IsSign(c: char) {
    || c == '-' || c == '+' || c == '*' || c == '/' || c == '%' || c == '<' || c == '>' || c == '='
    || c == '!' || c == '&' || c == '|' || c == '^' || c == '~' || c == ':' || c == '.' || c == ','
    || c == ';' || c == '(' || c == ')' || c == '[' || c == ']' || c == '{' || c == '}' || c == '?'
    || c == '@' || c == '$' || c == '#' || c == '\\'
  }

  lemma SameClasses(c: char)
    ensures IsDigit(c) == Digit(c) && IsDecimal(c) == Decimal(c) && IsHex(c) == Hex(c) && IsName(c) == Name(c)
    ensures IsBinary(c) == Binary(c) && IsOctal(c) == Octal(c)
  {
  }

  lemma SameSigns(c: char)
    ensures IsSign(c) == Sign(c)
  {
  }

  lemma RunIsSpan(s: string, i: nat, j: nat, p: char -> bool, q: char -> bool)
    requires i <= |s| && forall c :: p(c) == q(c)
    ensures RunAt(s, i, j, p) <==> j == i + Span(s[i..], q)
  {
    var n := Span(s[i..], q);
    forall k | i <= k < i + n
      ensures q(s[k])
    {
      assert s[i..][k - i] == s[k];
    }
    if i + n < |s| {
      assert s[i..][n] == s[i + n] && !q(s[i + n]);
    }
  }

  /** A fraction behind a whole part: a point and digits, or nothing. */
  ghost predicate FractionForm(s: string, i: nat, j: nat, p: char -> bool) {
    if i + 1 < |s| && s[i] == '.' && p(s[i + 1]) then RunAt(s, i + 1, j, p) else j == i
  }

  /** An exponent: its mark, perhaps a sign, and digits, or nothing. */
  ghost predicate ExponentForm(s: string, i: nat, j: nat, lower: char, upper: char) {
    var start := if i + 1 < |s| && (s[i + 1] == '+' || s[i + 1] == '-') then i + 2 else i + 1;
    if i < |s| && (s[i] == lower || s[i] == upper) && start < |s| && IsDigit(s[start]) then RunAt(s, start, j, IsDigit)
    else j == i
  }

  /** A base prefix with a digit of the base behind it. */
  predicate BaseForm(s: string, lower: char, upper: char, p: char -> bool) {
    |s| > 2 && s[0] == '0' && (s[1] == lower || s[1] == upper) && p(s[2])
  }

  ghost predicate NumberForm(s: string, n: nat) {
    if BaseForm(s, 'x', 'X', IsHex) then
      exists h: nat, f: nat :: RunAt(s, 2, h, IsHex) && FractionForm(s, h, f, IsHex) && ExponentForm(s, f, n, 'p', 'P')
    else if BaseForm(s, 'b', 'B', IsBinary) then RunAt(s, 2, n, IsBinary)
    else if BaseForm(s, 'o', 'O', IsOctal) then RunAt(s, 2, n, IsOctal)
    else
      s != "" && IsDigit(s[0]) &&
      exists w: nat, f: nat :: RunAt(s, 0, w, IsDecimal) && FractionForm(s, w, f, IsDecimal)
                               && ExponentForm(s, f, n, 'e', 'E')
  }

  lemma FractionExactly(s: string, i: nat, j: nat, p: char -> bool, q: char -> bool)
    requires i <= |s| && (forall c :: p(c) == q(c)) && forall c :: q(c) ==> Name(c)
    ensures FractionForm(s, i, j, p) <==> j == i + Fraction(s[i..], q)
  {
    if i + 1 < |s| && s[i] == '.' {
      assert s[i..][1..] == s[i + 1..];
      RunIsSpan(s, i + 1, j, p, q);
      assert s[i..][1] == s[i + 1] && (Span(s[i + 1..], q) > 0 <==> q(s[i + 1]));
    } else if i < |s| {
      assert s[i..][0] == s[i];
      assert s[i..][1..] == s[i + 1..];
    }
  }

  lemma ExponentExactly(s: string, i: nat, j: nat, lower: char, upper: char)
    requires i <= |s| && Name(lower) && Name(upper)
    ensures ExponentForm(s, i, j, lower, upper) <==> j == i + Highlighting.Exponent(s[i..], lower, upper)
  {
    if i < |s| {
      var t := s[i..];
      assert t[0] == s[i];
      if i + 1 < |s| {
        assert t[1] == s[i + 1];
      }
      var signed := |t| > 1 && (t[1] == '+' || t[1] == '-');
      var start := if signed then i + 2 else i + 1;
      assert t[start - i..] == s[start..];
      RunIsSpan(s, start, j, IsDigit, Digit);
      if start < |s| {
        assert s[start..][0] == s[start];
      }
    }
  }

  lemma ContinuedExactly(s: string, w: nat, p: char -> bool, q: char -> bool, lower: char, upper: char, n: nat)
    requires w <= |s| && Numeric(s, w) && Name(lower) && Name(upper)
    requires (forall c :: p(c) == q(c)) && forall c :: q(c) ==> Name(c)
    ensures Continued(s, w, q, lower, upper) == n
       <==> exists f: nat :: FractionForm(s, w, f, p) && ExponentForm(s, f, n, lower, upper)
  {
    var f := w + Fraction(s[w..], q);
    FractionExactly(s, w, f, p, q);
    ExponentExactly(s, f, n, lower, upper);
    forall g: nat | FractionForm(s, w, g, p)
      ensures g == f
    {
      FractionExactly(s, w, g, p, q);
    }
  }

  lemma BasedExactly(s: string, lower: char, upper: char, p: char -> bool, q: char -> bool, n: nat)
    requires Name(lower) && Name(upper) && (forall c :: p(c) == q(c)) && forall c :: q(c) ==> Name(c)
    ensures Based(s, lower, upper, q) > 0 <==> BaseForm(s, lower, upper, p)
    ensures BaseForm(s, lower, upper, p) ==> (Based(s, lower, upper, q) == n <==> RunAt(s, 2, n, p))
  {
    if |s| >= 2 {
      RunIsSpan(s, 2, n, p, q);
      if |s| > 2 {
        assert s[2..][0] == s[2];
      }
    }
  }

  /** The number the expression takes, if any. */
  lemma NumberExactly(s: string, n: nat)
    requires s != ""
    ensures n > 0 ==> (NumberLength(s) == n <==> NumberForm(s, n))
  {
    var h := Based(s, 'x', 'X', Hex);
    BasedExactly(s, 'x', 'X', IsHex, Hex, h);
    BasedExactly(s, 'b', 'B', IsBinary, Binary, n);
    BasedExactly(s, 'o', 'O', IsOctal, Octal, n);
    if h > 0 {
      HexExactly(s, h, n);
    } else if Based(s, 'b', 'B', Binary) == 0 && Based(s, 'o', 'O', Octal) == 0 && Digit(s[0]) {
      DecimalExactly(s, n);
    }
  }

  lemma HexExactly(s: string, h: nat, n: nat)
    requires h > 0 && h == Based(s, 'x', 'X', Hex) && BaseForm(s, 'x', 'X', IsHex)
    ensures Continued(s, h, Hex, 'p', 'P') == n <==> NumberForm(s, n)
  {
    ContinuedExactly(s, h, IsHex, Hex, 'p', 'P', n);
    BasedExactly(s, 'x', 'X', IsHex, Hex, h);
    forall g: nat | RunAt(s, 2, g, IsHex)
      ensures g == h
    {
      BasedExactly(s, 'x', 'X', IsHex, Hex, g);
    }
  }

  lemma DecimalExactly(s: string, n: nat)
    requires s != "" && Digit(s[0]) && !BaseForm(s, 'x', 'X', IsHex) && !BaseForm(s, 'b', 'B', IsBinary)
    requires !BaseForm(s, 'o', 'O', IsOctal)
    ensures Continued(s, Span(s, Decimal), Decimal, 'e', 'E') == n <==> NumberForm(s, n)
  {
    var w := Span(s, Decimal);
    assert s[0..] == s;
    ContinuedExactly(s, w, IsDecimal, Decimal, 'e', 'E', n);
    RunIsSpan(s, 0, w, IsDecimal, Decimal);
    forall g: nat | RunAt(s, 0, g, IsDecimal)
      ensures g == w
    {
      RunIsSpan(s, 0, g, IsDecimal, Decimal);
    }
  }

  /** The other alternatives, in their order. */
  lemma CodeExactly(s: string, n: nat)
    requires s != "" && n > 0
    ensures CodeToken(s) == Some(Match(Number, n)) <==> NumberForm(s, n)
    ensures CodeToken(s) == Some(Match(Word, n))
       <==> (forall k: nat :: k > 0 ==> !NumberForm(s, k)) && IsName(s[0]) && RunAt(s, 0, n, IsName)
    ensures CodeToken(s) == Some(Match(Signs, n))
       <==> (forall k: nat :: k > 0 ==> !NumberForm(s, k)) && IsSign(s[0]) && RunAt(s, 0, n, IsSign)
  {
    assert s[0..] == s;
    NumberExactly(s, n);
    NoNumber(s);
    RunIsSpan(s, 0, n, IsName, Name);
    forall c
      ensures IsSign(c) == Sign(c)
    {
      SameSigns(c);
    }
    RunIsSpan(s, 0, n, IsSign, Sign);
  }

  lemma NoNumber(s: string)
    requires s != ""
    ensures NumberLength(s) == 0 <==> forall k: nat :: k > 0 ==> !NumberForm(s, k)
  {
    forall k: nat | k > 0
      ensures NumberForm(s, k) <==> NumberLength(s) == k
    {
      NumberExactly(s, k);
    }
    var n := NumberLength(s);
    assert n > 0 ==> NumberForm(s, n);
  }

  // ------------------------------------------------------------------
  // Turns of the loop

  /** The word stands there. */
  ghost predicate Place(s: string, w: string, k: nat) {
    k + |w| <= |s| && s[k..k + |w|] == w
  }

  /** And nowhere before. */
  ghost predicate FirstPlace(s: string, w: string, k: nat) {
    Place(s, w, k) && forall j: nat :: j < k ==> !Place(s, w, j)
  }

  lemma PlaceShifts(s: string, w: string, j: nat)
    requires s != ""
    ensures Place(s, w, j + 1) == Place(s[1..], w, j)
  {
    if j + 1 + |w| <= |s| {
      assert s[j + 1..j + 1 + |w|] == s[1..][j..j + |w|];
    }
  }

  lemma FirstPlaceShifts(s: string, w: string, k: nat)
    requires s != "" && !Place(s, w, 0)
    ensures FirstPlace(s, w, k + 1) == FirstPlace(s[1..], w, k)
  {
    PlaceShifts(s, w, k);
    if FirstPlace(s, w, k + 1) {
      forall j: nat | j < k
        ensures !Place(s[1..], w, j)
      {
        PlaceShifts(s, w, j);
      }
    }
    if FirstPlace(s[1..], w, k) {
      forall j: nat | j < k + 1
        ensures !Place(s, w, j)
      {
        if j > 0 {
          PlaceShifts(s, w, j - 1);
        }
      }
    }
  }

  lemma {:induction false} FindExactly(s: string, w: string, k: nat)
    requires w != ""
    ensures Find(s, w) == Some(k) <==> FirstPlace(s, w, k)
    decreases |s|
  {
    assert StartsWith(s, w) == Place(s, w, 0);
    if s != "" && !StartsWith(s, w) && k > 0 {
      FirstPlaceShifts(s, w, k - 1);
      FindExactly(s[1..], w, k - 1);
    }
  }

  lemma NotFound(s: string, w: string)
    requires w != ""
    ensures Find(s, w) == None <==> forall k: nat :: !FirstPlace(s, w, k)
  {
    forall k: nat
      ensures Find(s, w) == Some(k) <==> FirstPlace(s, w, k)
    {
      FindExactly(s, w, k);
    }
    if Find(s, w).Some? {
      assert FirstPlace(s, w, Find(s, w).value);
    }
  }

  /** In a comment a piece reaches behind the next opening or closing, whichever is
      first, or to the end of the line. */
  lemma CommentTurn(s: string, depth: nat, close: nat, nest: nat)
    requires s != "" && depth > 0
    ensures FirstPlace(s, "--(", nest) && (FirstPlace(s, ")--", close) ==> nest < close)
            && (FirstPlace(s, ")--", close) || forall k: nat :: !FirstPlace(s, ")--", k)) ==>
              TurnOf(s, depth) == Turning(Comment, nest + 3, Open(depth + 1, None))
    ensures FirstPlace(s, ")--", close) && (FirstPlace(s, "--(", nest) ==> close < nest)
            && (FirstPlace(s, "--(", nest) || forall k: nat :: !FirstPlace(s, "--(", k)) ==>
              TurnOf(s, depth) == Turning(Comment, close + 3, Open(depth - 1, None))
    ensures (forall k: nat :: !FirstPlace(s, ")--", k)) && (forall k: nat :: !FirstPlace(s, "--(", k)) ==>
              TurnOf(s, depth) == Turning(Comment, |s|, Open(depth, None))
  {
    FindExactly(s, ")--", close);
    FindExactly(s, "--(", nest);
    NotFound(s, ")--");
    NotFound(s, "--(");
  }

  /** A run of quotes opens a raw literal, up to the first run as long behind it. */
  lemma RawTurn(s: string, n: nat, close: nat)
    requires s != "" && QuoteRun(s, n) && n >= 3
    ensures FirstPlace(s[n..], s[..n], close) ==> TurnOf(s, 0) == Turning(Quoted, n + close + n, Open(0, None))
    ensures (forall k: nat :: !FirstPlace(s[n..], s[..n], k)) ==>
              TurnOf(s, 0) == Turning(Quoted, |s|, Open(0, Some(s[..n])))
  {
    QuotesAreRun(s, n);
    FindExactly(s[n..], s[..n], close);
    NotFound(s[n..], s[..n]);
  }

  /** The class of every other piece of code. */
  lemma CodeTurn(s: string, n: nat)
    requires s != "" && QuoteRun(s, n) && n < 3
    ensures MarkedToken(s).Some? ==>
              var m := MarkedToken(s).value;
              TurnOf(s, 0) == Turning(match m.kind
                                      case Doc => DocComment
                                      case Opening => Comment
                                      case Stray => Comment
                                      case LineComment => Comment
                                      case _ => Quoted, m.length, Open(if m.kind == Opening then 1 else 0, None))
    ensures MarkedToken(s).None? && CodeToken(s).Some? ==>
              var m := CodeToken(s).value;
              TurnOf(s, 0) == Turning(match m.kind
                                      case Number => Numeral
                                      case Signs => Operator
                                      case _ => Other, m.length, Open(0, None))
    ensures MarkedToken(s).None? && CodeToken(s).None? ==> TurnOf(s, 0) == Turning(Other, 1, Open(0, None))
  {
    QuotesAreRun(s, n);
    if MarkedToken(s).Some? {
      MarkedKinds(s, n);
    }
  }

  lemma MarkedKinds(s: string, n: nat)
    requires s != "" && n == Quotes(s) && n < 3 && MarkedToken(s).Some?
    ensures var k := MarkedToken(s).value.kind;
            k == Doc || k == Opening || k == Stray || k == LineComment || k == Text || k == Character
  {
  }

  /** So much of the line quoted, and the rest scanned as code. */
  function QuotedThen(s: string, n: nat): Scanned
    requires n <= |s|
  {
    After(Quoted, s[..n], Rest(s[n..], Open(0, None)))
  }

  /** A line that begins inside a raw literal is read by the first place of its closing, */
  lemma RawLineFinds(s: string, open: Open, raw: string)
    requires open.raw == Some(raw)
    ensures Line(s, open) == RawLine(s, open, |raw|, Find(s, raw))
  {
  }

  /** and quoted up to there, or all of it. */
  lemma RawLineReads(s: string, open: Open, n: nat, hit: Option<nat>)
    requires open.depth == 0 && (hit.Some? ==> hit.value + n <= |s|)
    ensures RawLine(s, open, n, hit)
         == if hit.Some? then QuotedThen(s, hit.value + n) else Scanned([Piece(Quoted, s)], open)
  {
  }
}
