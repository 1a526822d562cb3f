/** The three scanners against each other.  For a source `landin_tokens` accepts,
    `visible_code` masks exactly its comments and quoted tokens, unless a sign's
    spelling hides where a comment or a literal would begin. */
module Agreement {

  import opened Options
  import opened Characters
  import opened Visibility
  import opened Tokeniser
  import Highlighting
  import Blanking

  predicate Veiled(part: Part) {
    part.Comment? || (part.Token? && (part.kind.RawLiteral? || part.kind.TextLiteral? || part.kind.CharacterLiteral?))
  }

  /** Everything but the line ends is blanked. */
  function Hidden(s: string): (r: string)
    ensures |r| == |s|
  {
    seq(|s|, k requires 0 <= k < |s| => if s[k] == '\n' then '\n' else ' ')
  }

  function Veil(s: string, i: nat, j: nat, masked: bool): string
    requires i <= j <= |s|
  {
    if masked then Hidden(s[i..j]) else s[i..j]
  }

  /** The source with its comments and quoted tokens blanked. */
  function Drawn(s: string, lexemes: seq<Lexeme>): string {
    if lexemes == [] || !(lexemes[0].first <= lexemes[0].end <= |s|) then ""
    else Veil(s, lexemes[0].first, lexemes[0].end, Veiled(lexemes[0].part)) + Drawn(s, lexemes[1..])
  }

  /** No sign reaches over the beginning of a comment or a literal. */
  predicate ClearOne(s: string, l: Lexeme) {
    l.part == Token(Sign) ==> forall k :: l.first < k < l.end && k <= |s| ==> !Opens(s[k..])
  }

  predicate Clear(s: string, lexemes: seq<Lexeme>) {
    lexemes == [] || (ClearOne(s, lexemes[0]) && Clear(s, lexemes[1..]))
  }

  // ------------------------------------------------------------------
  // Stretches of a source

  /** The lemmas below are about any function that sees a text chunk by chunk. */
  type Seer = (string, State) -> View

  ghost predicate SeesChunk(g: Seer, s: string, state: State) {
    s != "" ==>
      if s[0] == '\n' then g(s, state) == Before("\n", g(s[1..], state))
      else
        var n := LineEnd(s);
        n > 0 &&
        var c := Next(s[..n], state);
        g(s, state) == Before(Shown(s[..c.length], c.masked), g(s[c.length..], c.after))
  }

  /** Of every text.  Where it is a hypothesis it is compared with `true`, so that a
      caller hands it on whole. */
  ghost predicate SeesChunks(g: Seer) {
    forall s, state :: SeesChunk(g, s, state)
  }

  lemma SeenSeesChunks()
    ensures SeesChunks(Seen)
  {
    forall s, state
      ensures SeesChunk(Seen, s, state)
    {
      if s != "" {
        if s[0] == '\n' {
          SeenBreak(s, state);
        } else {
          SeenChunk(s, state, Next(s[..LineEnd(s)], state));
        }
      }
    }
  }

  /** From a state, the text between two positions is seen masked or as it is. */
  ghost predicate Goes(g: Seer, s: string, i: nat, state: State, j: nat, after: State, masked: bool) {
    i <= j <= |s| && g(s[i..], state) == Before(Veil(s, i, j, masked), g(s[j..], after))
  }

  lemma GoesNowhere(g: Seer, s: string, i: nat, state: State, masked: bool)
    requires i <= |s|
    ensures Goes(g, s, i, state, i, state, masked)
  {
    assert Veil(s, i, i, masked) == "";
  }

  lemma VeilBoth(s: string, i: nat, j: nat, k: nat, masked: bool)
    requires i <= j <= k <= |s|
    ensures Veil(s, i, j, masked) + Veil(s, j, k, masked) == Veil(s, i, k, masked)
  {
    assert s[i..j] + s[j..k] == s[i..k];
    HiddenBoth(s[i..j], s[j..k]);
  }

  lemma HiddenBoth(a: string, b: string)
    ensures Hidden(a) + Hidden(b) == Hidden(a + b)
  {
  }

  lemma GoesBoth(g: Seer, s: string, i: nat, state: State, j: nat, between: State, k: nat, after: State, masked: bool)
    requires Goes(g, s, i, state, j, between, masked) && Goes(g, s, j, between, k, after, masked)
    ensures Goes(g, s, i, state, k, after, masked)
  {
    VeilBoth(s, i, j, k, masked);
    BeforeBoth(Veil(s, i, j, masked), Veil(s, j, k, masked), g(s[k..], after));
  }

  lemma GoesBreak(g: Seer, s: string, i: nat, state: State, masked: bool)
    requires SeesChunks(g) == true && i < |s| && s[i] == '\n'
    ensures Goes(g, s, i, state, i + 1, state, masked)
  {
    assert SeesChunk(g, s[i..], state);
    assert s[i..][1..] == s[i + 1..];
    assert Veil(s, i, i + 1, masked) == "\n";
  }

  /** The rest of the line. */
  function Here(s: string, i: nat): string
    requires i <= |s|
  {
    s[i..][..LineEnd(s[i..])]
  }

  lemma ShownIsVeil(s: string, i: nat, n: nat, masked: bool)
    requires i + n <= |s| && '\n' !in s[i..][..n]
    ensures Shown(s[i..][..n], masked) == Veil(s, i, i + n, masked)
  {
    var t := s[i..][..n];
    assert t == s[i..i + n];
    forall k | 0 <= k < n
      ensures t[k] != '\n'
    {
      assert t[k] in t;
    }
  }

  lemma GoesChunk(g: Seer, s: string, i: nat, state: State, c: Chunk)
    requires SeesChunks(g) == true && i < |s| && s[i] != '\n' && Here(s, i) != "" && c == Next(Here(s, i), state)
    ensures Goes(g, s, i, state, i + c.length, c.after, c.masked)
  {
    assert SeesChunk(g, s[i..], state);
    assert s[i..][c.length..] == s[i + c.length..];
    var n := LineEnd(s[i..]);
    assert s[i..][..c.length] == s[i..][..n][..c.length];
    ShownIsVeil(s, i, c.length, c.masked);
  }

  lemma HereStarts(s: string, i: nat)
    requires i < |s| && s[i] != '\n'
    ensures Here(s, i) != "" && Here(s, i)[0] == s[i]
    ensures Here(s, i)[1..] == Here(s, i + 1)
  {
    LineEndOfRest(s[i..], 1);
    assert s[i..][1..] == s[i + 1..];
    assert s[i..][..LineEnd(s[i..])][1..] == s[i + 1..][..LineEnd(s[i + 1..])];
  }

  lemma AtHere(s: string, i: nat, w: string)
    requires i <= |s| && '\n' !in w
    ensures StartsWith(Here(s, i), w) <==> StartsAt(s, w, i)
  {
    AtOnLine(s[i..], w);
  }

  lemma HereBegins(s: string, w: string, i: nat)
    requires i <= |s| && StartsAt(s, w, i) && w != ""
    ensures i < |s| && s[i] == w[0]
  {
    AtCharacters(s[i..], w);
  }

  lemma {:induction false} NestedGoes(g: Seer, s: string, i: nat, depth: nat, end: nat)
    requires SeesChunks(g) == true && i <= |s| && Nested(s, i, depth) == Some(end)
    ensures Goes(g, s, i, State(depth, 0), end, CODE, true)
    decreases |s| - i
  {
    if depth == 0 {
      GoesNowhere(g, s, i, CODE, true);
    } else {
      var (k, after) := NestedTurn(s, i, depth);
      NestedTurnGoes(g, s, i, depth, k, after);
      NestedGoes(g, s, k, after, end);
      GoesBoth(g, s, i, State(depth, 0), k, State(after, 0), end, CODE, true);
    }
  }

  function NestedTurn(s: string, i: nat, depth: nat): (r: (nat, nat))
    requires i < |s| && depth > 0
    ensures i < r.0 <= |s| && Nested(s, i, depth) == Nested(s, r.0, r.1)
  {
    if StartsAt(s, "--(", i) then (i + 3, depth + 1)
    else if StartsAt(s, ")--", i) then (i + 3, depth - 1)
    else (i + 1, depth)
  }

  lemma NestedTurnGoes(g: Seer, s: string, i: nat, depth: nat, k: nat, after: nat)
    requires SeesChunks(g) == true && i < |s| && depth > 0 && (k, after) == NestedTurn(s, i, depth)
    ensures Goes(g, s, i, State(depth, 0), k, State(after, 0), true)
  {
    if StartsAt(s, "--(", i) {
      HereBegins(s, "--(", i);
    } else if StartsAt(s, ")--", i) {
      HereBegins(s, ")--", i);
    }
    if s[i] == '\n' {
      GoesBreak(g, s, i, State(depth, 0), true);
    } else {
      HereStarts(s, i);
      AtHere(s, i, "--(");
      AtHere(s, i, ")--");
      GoesChunk(g, s, i, State(depth, 0), Chunk(k - i, State(after, 0), true));
    }
  }

  lemma {:induction false} QuotesHere(s: string, i: nat)
    requires i <= |s|
    ensures End(s, i, Quote) == i + Quotes(Here(s, i))
    decreases |s| - i
  {
    if i < |s| && s[i] != '\n' {
      HereStarts(s, i);
      QuotesHere(s, i + 1);
    }
  }

  lemma RawTurnGoes(g: Seer, s: string, i: nat, q: nat, k: nat, after: State)
    requires SeesChunks(g) == true && i < |s| && q > 0
    requires (k, after) == if s[i] != '"' then (i + 1, State(0, q))
                           else if End(s, i, Quote) - i >= q then (i + q, CODE) else (End(s, i, Quote), State(0, q))
    ensures Goes(g, s, i, State(0, q), k, after, true)
  {
    if s[i] == '\n' {
      GoesBreak(g, s, i, State(0, q), true);
    } else {
      HereStarts(s, i);
      QuotesHere(s, i);
      GoesChunk(g, s, i, State(0, q), Chunk(k - i, after, true));
    }
  }

  lemma {:induction false} RawGoes(g: Seer, s: string, i: nat, q: nat, close: nat)
    requires SeesChunks(g) == true && i <= |s| && q > 0 && RawContent(s, i, q) == Some(close)
    ensures Goes(g, s, i, State(0, q), close + q, CODE, true)
    decreases |s| - i
  {
    if s[i] == '"' && End(s, i, Quote) - i >= q {
      RawTurnGoes(g, s, i, q, i + q, CODE);
    } else {
      var k := if s[i] != '"' then i + 1 else End(s, i, Quote);
      RawTurnGoes(g, s, i, q, k, State(0, q));
      RawGoes(g, s, k, q, close);
      GoesBoth(g, s, i, State(0, q), k, State(0, q), close + q, CODE, true);
    }
  }

  lemma {:induction false} LiteralHere(s: string, i: nat, quote: char, end: nat)
    requires i <= |s| && LiteralEnd(s, i, quote) == Some(end) && quote != '\\'
    ensures Closing(Here(s, i), quote) == end - i
    decreases |s| - i
  {
    HereStarts(s, i);
    if s[i] != quote {
      if s[i] == '\\' && i + 1 < |s| && !Break(s[i + 1]) {
        HereStarts(s, i + 1);
        assert Here(s, i)[2..] == Here(s, i)[1..][1..];
        LiteralHere(s, i + 2, quote, end);
      } else {
        LiteralHere(s, i + 1, quote, end);
      }
    }
  }

  // ------------------------------------------------------------------
  // Lexemes

  lemma OpensHere(s: string, i: nat)
    requires i < |s|
    ensures Opens(s[i..]) <==> s[i] == '"' || s[i] == '\'' || StartsAt(s, "--", i)
    ensures StartsAt(s, "--", i) ==> i + 1 < |s| && s[i] == '-' && s[i + 1] == '-'
  {
    if StartsAt(s, "--", i) {
      AtCharacters(s[i..], "--");
    }
  }

  ghost predicate Plain(s: string, i: nat, j: nat) {
    i <= j <= |s| && forall k :: i <= k < j ==> !Opens(s[k..])
  }

  lemma OnePlainGoes(g: Seer, s: string, i: nat)
    requires SeesChunks(g) == true && i < |s| && !Opens(s[i..])
    ensures Goes(g, s, i, CODE, i + 1, CODE, false)
  {
    OpensHere(s, i);
    if s[i] == '\n' {
      GoesBreak(g, s, i, CODE, false);
    } else {
      HereStarts(s, i);
      AtHere(s, i, "--(");
      AtHere(s, i, "--");
      OpeningIsHyphens(s, i);
      GoesChunk(g, s, i, CODE, Chunk(1, CODE, false));
    }
  }

  lemma OpeningIsHyphens(s: string, i: nat)
    requires i <= |s|
    ensures StartsAt(s, "--(", i) ==> StartsAt(s, "--", i)
  {
    assert "--" == "--("[..2];
    if StartsAt(s, "--(", i) {
      AtCharacters(s[i..], "--(");
    }
  }

  lemma {:induction false} PlainGoes(g: Seer, s: string, i: nat, j: nat)
    requires SeesChunks(g) == true && Plain(s, i, j)
    ensures Goes(g, s, i, CODE, j, CODE, false)
    decreases j - i
  {
    if i == j {
      GoesNowhere(g, s, i, CODE, false);
    } else {
      OnePlainGoes(g, s, i);
      PlainGoes(g, s, i + 1, j);
      GoesBoth(g, s, i, CODE, i + 1, CODE, j, CODE, false);
    }
  }

  lemma QuotedChunk(line: string, n: nat)
    requires line != "" && (line[0] == '\'' || (line[0] == '"' && Quotes(line) < 3)) && Closing(line[1..], line[0]) == n
    ensures Next(line, CODE) == Chunk(1 + n, CODE, true)
  {
  }

  lemma QuotedHere(s: string, i: nat, end: nat)
    requires i < |s| && (s[i] == '\'' || (s[i] == '"' && End(s, i, Quote) - i < 3))
    requires LiteralEnd(s, i + 1, s[i]) == Some(end)
    ensures Here(s, i) != "" && Next(Here(s, i), CODE) == Chunk(end - i, CODE, true)
  {
    var line := Here(s, i);
    HereStarts(s, i);
    if s[i] == '"' {
      QuotesHere(s, i);
    }
    LiteralHere(s, i + 1, s[i], end);
    QuotedChunk(line, end - i - 1);
  }

  /** A chunk of one kind: masked, with code behind it. */
  lemma MaskedGoes(g: Seer, s: string, i: nat, length: nat)
    requires SeesChunks(g) == true && i < |s| && s[i] != '\n' && Here(s, i) != ""
    requires Next(Here(s, i), CODE) == Chunk(length, CODE, true)
    ensures Goes(g, s, i, CODE, i + length, CODE, true)
  {
    GoesChunk(g, s, i, CODE, Chunk(length, CODE, true));
  }

  lemma QuotedGoes(g: Seer, s: string, i: nat, end: nat)
    requires SeesChunks(g) == true && i < |s| && (s[i] == '\'' || (s[i] == '"' && End(s, i, Quote) - i < 3))
    requires LiteralEnd(s, i + 1, s[i]) == Some(end)
    ensures Goes(g, s, i, CODE, end, CODE, true)
  {
    QuotedHere(s, i, end);
    MaskedGoes(g, s, i, end - i);
  }

  lemma RawLiteralGoes(g: Seer, s: string, i: nat, begin: nat, close: nat)
    requires SeesChunks(g) == true && i < |s| && begin == End(s, i, Quote) && begin - i >= 3
    requires RawContent(s, begin, begin - i) == Some(close)
    ensures Goes(g, s, i, CODE, close + (begin - i), CODE, true)
  {
    HereStarts(s, i);
    QuotesHere(s, i);
    var q := begin - i;
    GoesChunk(g, s, i, CODE, Chunk(q, State(0, q), true));
    RawGoes(g, s, begin, q, close);
    GoesBoth(g, s, i, CODE, begin, State(0, q), close + q, CODE, true);
  }

  lemma {:induction false} InlineHere(s: string, i: nat)
    requires i <= |s| && '\r' !in s
    ensures End(s, i, Inline) == i + LineEnd(s[i..])
    decreases |s| - i
  {
    if i < |s| {
      assert s[i] in s;
      if s[i] != '\n' {
        assert s[i..][1..] == s[i + 1..];
        InlineHere(s, i + 1);
      }
    }
  }

  lemma CommentGoes(g: Seer, s: string, i: nat, end: nat)
    requires SeesChunks(g) == true && '\r' !in s && i < |s| && StartsAt(s, "--", i)
    requires CommentAt(s, i) == Took(Comment, end)
    ensures Goes(g, s, i, CODE, end, CODE, true)
  {
    OpensHere(s, i);
    HereStarts(s, i);
    AtHere(s, i, "--(");
    AtHere(s, i, "--");
    if StartsAt(s, "--(", i) {
      GoesChunk(g, s, i, CODE, Chunk(3, State(1, 0), true));
      NestedGoes(g, s, i + 3, 1, end);
      GoesBoth(g, s, i, CODE, i + 3, State(1, 0), end, CODE, true);
    } else {
      InlineHere(s, i);
      GoesChunk(g, s, i, CODE, Chunk(end - i, CODE, true));
    }
  }

  /** A character of a name, a point, or a sign before a name's character. */
  predicate NumeralAt(s: string, k: nat)
    requires k < |s|
  {
    Name(s[k]) || s[k] == '.' || s[k] == '+' || (s[k] == '-' && k + 1 < |s| && Name(s[k + 1]))
  }

  ghost predicate Numeral(s: string, i: nat, j: nat) {
    i <= j <= |s| && forall k :: i <= k < j ==> NumeralAt(s, k)
  }

  lemma NumeralIsPlain(s: string, i: nat, j: nat)
    requires Numeral(s, i, j)
    ensures Plain(s, i, j)
  {
    forall k | i <= k < j
      ensures !Opens(s[k..])
    {
      assert NumeralAt(s, k);
      OpensHere(s, k);
    }
  }

  lemma RunIsNumeral(s: string, i: nat, p: char -> bool)
    requires i <= |s| && forall c :: p(c) ==> Name(c)
    ensures Numeral(s, i, End(s, i, p))
  {
    forall k | i <= k < End(s, i, p)
      ensures NumeralAt(s, k)
    {
      assert p(s[k]);
    }
  }

  lemma ExponentIsNumeral(rules: Rules, s: string, start: nat, i: nat)
    requires start < i <= |s| && Numeral(s, start, i) && Exponent(rules, s, start, i).Took?
    ensures Numeral(s, start, Exponent(rules, s, start, i).end)
  {
    var digits := if i < |s| && (s[i] == '+' || s[i] == '-') then i + 1 else i;
    RunIsNumeral(s, digits, Decimal);
    if digits > i {
      assert Decimal(s[digits]);
      assert NumeralAt(s, i);
    }
  }

  lemma PointIsNumeral(s: string, start: nat, i: nat, p: char -> bool)
    requires start <= i < |s| && Numeral(s, start, i) && s[i] == '.' && forall c :: p(c) ==> Name(c)
    ensures Numeral(s, start, End(s, i + 1, p))
  {
    RunIsNumeral(s, i + 1, p);
    assert NumeralAt(s, i);
  }

  lemma HexFloatIsNumeral(rules: Rules, s: string, start: nat, i: nat, hexadecimal: bool)
    requires start <= i < |s| && Numeral(s, start, i) && s[i] == '.' && HexFloat(rules, s, start, i, hexadecimal).Took?
    ensures Numeral(s, start, HexFloat(rules, s, start, i, hexadecimal).end)
  {
    var end := End(s, i + 1, Hex);
    PointIsNumeral(s, start, i, Hex);
    assert NumeralAt(s, end);
    ExponentIsNumeral(rules, s, start, end + 1);
  }

  lemma DecimalFloatIsNumeral(rules: Rules, s: string, start: nat, i: nat)
    requires start <= i < |s| && Numeral(s, start, i) && s[i] == '.' && DecimalFloat(rules, s, start, i).Took?
    ensures Numeral(s, start, DecimalFloat(rules, s, start, i).end)
  {
    var end := End(s, i + 1, Decimal);
    PointIsNumeral(s, start, i, Decimal);
    if end < |s| && (s[end] == 'e' || s[end] == 'E') {
      assert NumeralAt(s, end);
      ExponentIsNumeral(rules, s, start, end + 1);
    }
  }

  lemma NumberIsPlain(rules: Rules, s: string, i: nat)
    requires i < |s| && Digit(s[i]) && Number(rules, s, i).Took?
    ensures Plain(s, i, Number(rules, s, i).end)
  {
    var hexadecimal := StartsAt(s, "0x", i);
    var prefixed := hexadecimal || StartsAt(s, "0o", i) || StartsAt(s, "0b", i);
    var p := if prefixed then Name else Decimal;
    var j := End(s, i, p);
    RunIsNumeral(s, i, p);
    if HasPoint(s, j, hexadecimal) {
      if prefixed {
        HexFloatIsNumeral(rules, s, i, j, hexadecimal);
      } else {
        DecimalFloatIsNumeral(rules, s, i, j);
      }
    } else {
      RunIsNumeral(s, j, Name);
    }
    NumeralIsPlain(s, i, Number(rules, s, i).end);
  }

  /** Whatever is taken but a comment or a literal opens nothing where it begins, and
      only a sign may open something further on. */
  lemma UnveiledIsPlain(rules: Rules, s: string, i: nat, l: Lexeme)
    requires Usable(rules) && i < |s| && Lex(rules, s, i) == Took(l.part, l.end) && l.first == i && !Veiled(l.part)
    ensures i < l.end <= |s| && !Opens(s[i..]) && (ClearOne(s, l) ==> Plain(s, i, l.end))
  {
    LexTakes(rules, s, i);
    OpensHere(s, i);
    if Digit(s[i]) {
      NumberIsPlain(rules, s, i);
    } else if Lower(s[i]) || s[i] == '_' {
      RunIsNumeral(s, i, WordByte);
      NumeralIsPlain(s, i, l.end);
    }
  }

  lemma VeiledGoes(rules: Rules, g: Seer, s: string, i: nat, part: Part, end: nat)
    requires Usable(rules) && SeesChunks(g) == true && '\r' !in s
    requires i < |s| && Lex(rules, s, i) == Took(part, end) && Veiled(part)
    ensures i < end <= |s| && Goes(g, s, i, CODE, end, CODE, true)
  {
    LexTakes(rules, s, i);
    if StartsAt(s, "--", i) {
      CommentGoes(g, s, i, end);
    } else if s[i] == '"' && End(s, i, Quote) - i >= 3 {
      var begin := End(s, i, Quote);
      RawLiteralGoes(g, s, i, begin, RawContent(s, begin, begin - i).value);
    } else {
      QuotedGoes(g, s, i, end);
    }
  }

  lemma OpensMasked(g: Seer, s: string, i: nat)
    requires SeesChunks(g) == true && i < |s| && Opens(s[i..])
    ensures var t := g(s[i..], CODE).text; |t| > 0 && t[0] == ' ' && s[i] != ' ' && s[i] != '\n'
  {
    OpensHere(s, i);
    HereStarts(s, i);
    AtHere(s, i, "--(");
    AtHere(s, i, "--");
    var c := Next(Here(s, i), CODE);
    assert c.masked;
    GoesChunk(g, s, i, CODE, c);
  }

  /** A sign over an opening is shown whole, though what it hides is masked. */
  lemma HidingDiffers(g: Seer, s: string, l: Lexeme, rest: string)
    requires SeesChunks(g) == true && l.first < l.end <= |s| && !Opens(s[l.first..]) && !ClearOne(s, l)
    ensures g(s[l.first..], CODE).text != s[l.first..l.end] + rest
  {
    var i := l.first;
    var k := FirstOpening(s, i + 1, l.end);
    PlainGoes(g, s, i, k);
    OpensMasked(g, s, k);
    assert (s[i..l.end] + rest)[k - i] == s[k];
  }

  lemma FirstOpening(s: string, i: nat, j: nat) returns (k: nat)
    requires i <= j <= |s| && !Plain(s, i, j)
    ensures i <= k < j && Opens(s[k..]) && Plain(s, i, k)
  {
    k := i;
    while !Opens(s[k..])
      invariant i <= k <= j && Plain(s, i, k)
      invariant !Plain(s, i, j)
      decreases j - k
    {
      k := k + 1;
    }
  }

  // ------------------------------------------------------------------
  // A whole source

  lemma {:induction false} LexemesAgree(rules: Rules, g: Seer, s: string, i: nat, lexemes: seq<Lexeme>)
    requires Usable(rules) && SeesChunks(g) == true && g("", CODE) == View("", CODE) && '\r' !in s
    requires i <= |s| && Lexemes(rules, s, i) == Ok(lexemes)
    ensures g(s[i..], CODE).text == Drawn(s, lexemes) <==> Clear(s, lexemes)
    ensures Clear(s, lexemes) ==> g(s[i..], CODE).state == CODE
    decreases |s| - i
  {
    if i < |s| {
      LexTakes(rules, s, i);
      var l := Lex(rules, s, i);
      var first, rest := Lexeme(l.part, i, l.end), Lexemes(rules, s, l.end).value;
      assert lexemes == [first] + rest && lexemes[1..] == rest;
      LexemesAgree(rules, g, s, l.end, rest);
      LexemeAgrees(rules, g, s, first, rest);
    } else {
      assert s[i..] == "";
    }
  }

  /** One lexeme and the rest: they agree if both do, and not if either does not. */
  lemma LexemeAgrees(rules: Rules, g: Seer, s: string, l: Lexeme, rest: seq<Lexeme>)
    requires Usable(rules) && SeesChunks(g) == true && '\r' !in s
    requires l.first < l.end <= |s| && Lex(rules, s, l.first) == Took(l.part, l.end)
    ensures var (here, there) := (g(s[l.first..], CODE), g(s[l.end..], CODE));
            && (here.text == Veil(s, l.first, l.end, Veiled(l.part)) + Drawn(s, rest)
                <==> ClearOne(s, l) && there.text == Drawn(s, rest))
            && (ClearOne(s, l) ==> here.state == there.state)
  {
    if Veiled(l.part) {
      VeiledGoes(rules, g, s, l.first, l.part, l.end);
      BothAfter(g(s[l.end..], CODE).text, Drawn(s, rest), Veil(s, l.first, l.end, true));
    } else {
      UnveiledIsPlain(rules, s, l.first, l);
      if ClearOne(s, l) {
        PlainGoes(g, s, l.first, l.end);
        BothAfter(g(s[l.end..], CODE).text, Drawn(s, rest), Veil(s, l.first, l.end, false));
      } else {
        HidingDiffers(g, s, l, Drawn(s, rest));
      }
    }
  }

  lemma BothAfter(a: string, b: string, head: string)
    ensures head + a == head + b <==> a == b
  {
    assert (head + a)[|head|..] == a && (head + b)[|head|..] == b;
  }

  /** What `visible_code` leaves of an accepted source's lines is the source with its
      comments and quoted tokens blanked, exactly when no sign reaches over the
      beginning of one. */
  lemma MasksExactly(rules: Rules, s: string)
    requires Usable(rules) && '\r' !in s && Lexemes(rules, s, 0).Ok?
    ensures var lexemes := Lexemes(rules, s, 0).value;
            JoinedLines(MaskedLines(Lines(s), CODE)) == Drawn(s, lexemes) <==> Clear(s, lexemes)
  {
    SeenLineByLine(s, CODE);
    SeenSeesChunks();
    assert s[0..] == s;
    LexemesAgree(rules, Seen, s, 0, Lexemes(rules, s, 0).value);
  }

  /** A sign that hides nothing wherever it stands: behind its first character it has
      no quote, no two hyphens, and no hyphen at its end for another to follow. */
  predicate Simple(sign: string) {
    forall k :: 0 < k < |sign| ==>
      sign[k] != '"' && sign[k] != '\'' && !(sign[k] == '-' && (k + 1 == |sign| || sign[k + 1] == '-'))
  }

  /** A sign the tokeniser can take: where it stands nothing else is tried before signs. */
  predicate Takeable(sign: string) {
    && sign != "" && '\r' !in sign && !StartsWith(sign, "--") && !Whitespace(sign[0]) && !Digit(sign[0])
    && !Lower(sign[0]) && sign[0] != '_' && sign[0] != '"' && sign[0] != '\''
  }

  predicate SimpleSigns(signs: seq<string>) {
    forall w :: w in signs && Takeable(w) ==> Simple(w)
  }

  /** Every accepted source without carriage returns is clear. */
  ghost predicate AlwaysClear(rules: Rules)
    requires Usable(rules)
  {
    forall s :: '\r' !in s && Lexemes(rules, s, 0).Ok? ==> Clear(s, Lexemes(rules, s, 0).value)
  }

  lemma {:induction false} SimpleSignsAreClear(rules: Rules, s: string, i: nat)
    requires Usable(rules) && SimpleSigns(rules.signs) && '\r' !in s
    requires i <= |s| && Lexemes(rules, s, i).Ok?
    ensures Clear(s, Lexemes(rules, s, i).value)
    decreases |s| - i
  {
    if i < |s| {
      LexTakes(rules, s, i);
      var l := Lex(rules, s, i);
      var first, rest := Lexeme(l.part, i, l.end), Lexemes(rules, s, l.end).value;
      assert Lexemes(rules, s, i).value == [first] + rest && ([first] + rest)[1..] == rest;
      SimpleSignsAreClear(rules, s, l.end);
      if l.part == Token(Sign) {
        SimpleSignIsClear(rules, s, first);
      }
    }
  }

  lemma SimpleSignIsClear(rules: Rules, s: string, l: Lexeme)
    requires Usable(rules) && SimpleSigns(rules.signs) && '\r' !in s
    requires l.first < |s| && Lex(rules, s, l.first) == Took(Token(Sign), l.end)
    ensures ClearOne(s, l)
  {
    if l.end > l.first + 1 {
      var w := FirstSign(rules.signs, s, l.first).value;
      FirstSignMatches(rules.signs, s, l.first);
      TakenIsTakeable(rules, s, l.first, w);
      forall k | l.first < k < l.end && k <= |s|
        ensures !Opens(s[k..])
      {
        SimpleHidesNothing(s, l.first, w, k);
      }
    }
  }

  lemma TakenIsTakeable(rules: Rules, s: string, i: nat, w: string)
    requires i < |s| && '\r' !in s && w != "" && StartsAt(s, w, i) && FirstSign(rules.signs, s, i) == Some(w)
    requires Lex(rules, s, i) == Took(Token(Sign), i + |w|) && |w| > 1
    ensures Takeable(w)
  {
    AtCharacters(s[i..], w);
    assert w[0] == s[i];
    assert w[..2] == s[i..i + 2];
    forall k | 0 <= k < |w|
      ensures w[k] != '\r'
    {
      assert s[i + k] == s[i..][k];
    }
  }

  lemma SimpleHidesNothing(s: string, i: nat, w: string, k: nat)
    requires i < k < i + |w| && k <= |s| && i <= |s| && StartsAt(s, w, i) && Simple(w)
    ensures !Opens(s[k..])
  {
    var j := k - i;
    assert i + |w| <= |s|;
    AtCharacters(s[i..], w);
    assert s[k] == s[i..][j] == w[j];
    OpensHere(s, k);
    if j + 1 < |w| {
      assert s[k + 1] == s[i..][j + 1] == w[j + 1];
    }
  }

  /** A source of one sign, and possibly of a comment behind it. */
  lemma SignIsTaken(rules: Rules, s: string, w: string, tail: string)
    requires Usable(rules) && LongestFirst(rules.signs) && w in rules.signs && Takeable(w) && |w| > 1
    requires s == w + tail && (tail == "" || tail == "--")
    requires forall v :: v in rules.signs && StartsAt(s, v, 0) ==> |v| <= |w|
    ensures Lexemes(rules, s, 0).Ok? && '\r' !in s
    ensures Lexemes(rules, s, 0).value != [] && Lexemes(rules, s, 0).value[0] == Lexeme(Token(Sign), 0, |w|)
  {
    assert s[0..|w|] == w;
    FirstSignMatches(rules.signs, s, 0);
    LongestSign(rules.signs, s, 0);
    assert !StartsAt(s, "--", 0) by {
      assert s[0..2] == w[..2];
    }
    assert Lex(rules, s, 0) == Took(Token(Sign), |w|);
    TailIsTaken(rules, s, |w|, tail);
  }

  lemma TailIsTaken(rules: Rules, s: string, i: nat, tail: string)
    requires Usable(rules) && i <= |s| && s[i..] == tail && (tail == "" || tail == "--")
    ensures Lexemes(rules, s, i).Ok?
  {
    if tail == "--" {
      assert s[i] == tail[0] && s[i + 1] == tail[1];
      assert s[i..i + 2] == "--";
      assert StartsAt(s, "--", i) && !StartsAt(s, "--(", i);
      assert Lex(rules, s, i) == Took(Comment, |s|);
    }
  }

  /** A source whose first sign reaches over an opening is not clear. */
  lemma HiddenIsNotClear(s: string, lexemes: seq<Lexeme>, w: string, k: nat)
    requires lexemes != [] && lexemes[0] == Lexeme(Token(Sign), 0, |w|) && 0 < k < |w| && k <= |s| && Opens(s[k..])
    ensures !Clear(s, lexemes)
  {
    assert !ClearOne(s, lexemes[0]);
  }

  lemma WithItself(rules: Rules, w: string, k: nat)
    requires Usable(rules) && LongestFirst(rules.signs) && w in rules.signs && Takeable(w)
    requires 0 < k < |w| && (w[k] == '"' || w[k] == '\'' || (w[k] == '-' && k + 1 < |w| && w[k + 1] == '-'))
    ensures !AlwaysClear(rules)
  {
    assert w == w + "";
    SignIsTaken(rules, w, w, "");
    OpensHere(w, k);
    if w[k] == '-' {
      assert w[k..k + 2] == "--";
    }
    HiddenIsNotClear(w, Lexemes(rules, w, 0).value, w, k);
  }

  lemma WithComment(rules: Rules, w: string)
    requires Usable(rules) && LongestFirst(rules.signs) && w in rules.signs && Takeable(w)
    requires |w| > 1 && w[|w| - 1] == '-' && w + "-" !in rules.signs && w + "--" !in rules.signs
    ensures !AlwaysClear(rules)
  {
    var s, k := w + "--", |w| - 1;
    assert s[0..|w| + 1] == w + "-" && s[0..|w| + 2] == w + "--";
    assert forall v :: v in rules.signs && StartsAt(s, v, 0) ==> v == s[0..|v|];
    SignIsTaken(rules, s, w, "--");
    assert s[k..k + 2] == "--";
    OpensHere(s, k);
    HiddenIsNotClear(s, Lexemes(rules, s, 0).value, w, k);
  }

  lemma Lengthened(w: string, more: string)
    requires Takeable(w) && |w| > 1 && (more == "-" || more == "--") && w[|w| - 1] == '-'
    ensures var v, k := w + more, |w| - 1; Takeable(v) && v[k] == '-' && v[k + 1] == '-'
  {
    var v := w + more;
    assert v[..2] == w[..2];
    assert v[0] == w[0] && v[|w|] == more[0];
  }

  lemma HidingSignIsSeen(rules: Rules, w: string)
    requires Usable(rules) && LongestFirst(rules.signs) && w in rules.signs && Takeable(w) && !Simple(w)
    ensures !AlwaysClear(rules)
  {
    var k :| 0 < k < |w| && (w[k] == '"' || w[k] == '\'' || (w[k] == '-' && (k + 1 == |w| || w[k + 1] == '-')));
    if w[k] == '-' && k + 1 == |w| {
      if w + "-" in rules.signs {
        Lengthened(w, "-");
        WithItself(rules, w + "-", k);
      } else if w + "--" in rules.signs {
        Lengthened(w, "--");
        WithItself(rules, w + "--", k);
      } else {
        WithComment(rules, w);
      }
    } else {
      WithItself(rules, w, k);
    }
  }

  /** No sign reaches over an opening in any accepted source if and only if every sign
      that can be taken is simple. */
  lemma ClearExactly(rules: Rules)
    requires Usable(rules) && LongestFirst(rules.signs)
    ensures AlwaysClear(rules) <==> SimpleSigns(rules.signs)
  {
    if SimpleSigns(rules.signs) {
      forall s | '\r' !in s && Lexemes(rules, s, 0).Ok?
        ensures Clear(s, Lexemes(rules, s, 0).value)
      {
        SimpleSignsAreClear(rules, s, 0);
      }
    } else {
      var w :| w in rules.signs && Takeable(w) && !Simple(w);
      HidingSignIsSeen(rules, w);
    }
  }

  /** A comment's closing among the signs is enough: the tokeniser takes it whole
      where `visible_code` sees a line comment. */
  lemma CloserAsSign(rules: Rules, s: string)
    requires rules.signs == [")--"] && s == ")--"
    ensures Lexemes(rules, s, 0) == Ok([Lexeme(Token(Sign), 0, 3)])
    ensures JoinedLines(MaskedLines(Lines(s), CODE)) != Drawn(s, [Lexeme(Token(Sign), 0, 3)])
  {
    OpensHere(s, 0);
    assert StartsAt(s, ")--", 0) by {
      assert s[0..3] == ")--";
    }
    assert Lex(rules, s, 0) == Took(Token(Sign), 3);
    assert Lexemes(rules, s, 3) == Ok([]);
    assert [Lexeme(Token(Sign), 0, 3)] + [] == [Lexeme(Token(Sign), 0, 3)];
    assert s[1..] == "--" && s[1..][..2] == "--";
    assert Opens(s[1..]);
    assert !ClearOne(s, Lexeme(Token(Sign), 0, 3));
    MasksExactly(rules, s);
  }

  lemma {:induction false} BlankedIsAsLong(pieces: seq<Highlighting.Piece>)
    ensures |Blanking.Blanked(pieces)| == |Highlighting.Bodies(pieces)|
  {
    if pieces != [] {
      BlankedIsAsLong(pieces[1..]);
    }
  }

  lemma {:induction false} LinesAreAsLong(lines: seq<string>, open: Highlighting.Open, state: State)
    requires Highlighting.Proper(open)
    ensures var a, b := Blanking.BlankedLines(lines, open), MaskedLines(lines, state);
            |a| == |b| == |lines| && forall i :: 0 <= i < |lines| ==> |a[i]| == |b[i]|
  {
    if lines != [] {
      var line := Highlighting.Line(lines[0], open);
      Highlighting.LineIsWhole(lines[0], open);
      BlankedIsAsLong(line.pieces);
      LinesAreAsLong(lines[1..], line.open, Masked(lines[0], state).state);
    }
  }

  lemma {:induction false} JoinedTellsLines(a: seq<string>, b: seq<string>)
    requires |a| == |b| && (forall i :: 0 <= i < |a| ==> |a[i]| == |b[i]|)
    requires JoinedLines(a) == JoinedLines(b)
    ensures a == b
  {
    if |a| == 1 {
      assert a == [a[0]] && b == [b[0]];
    } else if a != [] {
      var n := |a[0]|;
      assert (a[0] + "\n" + JoinedLines(a[1..]))[..n] == a[0] && (b[0] + "\n" + JoinedLines(b[1..]))[..n] == b[0];
      assert (a[0] + "\n" + JoinedLines(a[1..]))[n + 1..] == JoinedLines(a[1..]);
      assert (b[0] + "\n" + JoinedLines(b[1..]))[n + 1..] == JoinedLines(b[1..]);
      JoinedTellsLines(a[1..], b[1..]);
      assert a == [a[0]] + a[1..] && b == [b[0]] + b[1..];
    }
  }

  /** With clear signs, the highlighter blanks exactly the tokeniser's comments and
      quoted tokens if and only if every line is tidy. */
  lemma AllThreeAgree(rules: Rules, s: string)
    requires Usable(rules) && '\r' !in s && Lexemes(rules, s, 0).Ok?
    requires Clear(s, Lexemes(rules, s, 0).value)
    ensures JoinedLines(Blanking.BlankedLines(Lines(s), Highlighting.Open(0, None)))
            == Drawn(s, Lexemes(rules, s, 0).value)
       <==> Blanking.TidyLines(Lines(s), CODE)
  {
    var open := Highlighting.Open(0, None);
    var blanked, masked := Blanking.BlankedLines(Lines(s), open), MaskedLines(Lines(s), CODE);
    Blanking.BlankingAgrees(Lines(s));
    MasksExactly(rules, s);
    LinesAreAsLong(Lines(s), open, CODE);
    if JoinedLines(blanked) == JoinedLines(masked) {
      JoinedTellsLines(blanked, masked);
    }
  }
}
