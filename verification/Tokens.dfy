/** `landin_tokens`: the tokens of a source, written from the lexical rules.  The
    grammar's own answers about a spelling, and the validity of a literal's content,
    are parameters.  Positions are of the whole source. */
module Tokeniser {

  import opened Options
  import opened Characters
  import opened Visibility

  datatype Kind = Float | Integer | Word | Sign | RawLiteral | TextLiteral | CharacterLiteral

  datatype Complaint =
    | NoSpaceRule | UnclosedComment | BasePrefix | NoExponent | NoDigits | RunsOn | NotFloat | NotInteger | NotWord
    | UnclosedRaw | BadRaw | UnclosedText | BadText | UnclosedCharacter | BadCharacter | NoRule

  datatype Part = Space | Comment | Token(kind: Kind)

  /** What a source has at a position. */
  datatype Lexed = Took(part: Part, end: nat) | Refused(complaint: Complaint)

  /** The signs, the longest first; whether a rule spells a text; whether the content
      of a literal is valid. */
  datatype Rules = Rules(
    signs: seq<string>,
    spells: (string, string) -> bool,
    raw: string -> bool,
    text: string -> bool,
    character: string -> bool)

  /** An empty sign would be taken for ever. */
  ghost predicate Usable(rules: Rules) {
    "" !in rules.signs
  }

  // ------------------------------------------------------------------
  // Lexemes

  predicate Break(c: char) { c == '\r' || c == '\n' }

  predicate Whitespace(c: char) { c == ' ' || c == '\t' || Break(c) }

  predicate Inline(c: char) { !Break(c) }

  predicate WordByte(c: char) { Lower(c) || Digit(c) || c == '_' }

  predicate HexLetter(c: char) { 'a' <= c <= 'f' || 'A' <= c <= 'F' }

  predicate Quote(c: char) { c == '"' }

  /** Where the run of such characters from a position ends. */
  function End(s: string, i: nat, p: char -> bool): (end: nat)
    requires i <= |s|
    ensures i <= end <= |s| && (forall k :: i <= k < end ==> p(s[k])) && (end < |s| ==> !p(s[end]))
    decreases |s| - i
  {
    if i < |s| && p(s[i]) then End(s, i + 1, p) else i
  }

  /** Where a block comment ends, from a position at some depth in it. */
  function Nested(s: string, i: nat, depth: nat): (end: Option<nat>)
    requires i <= |s|
    ensures end.Some? ==> i <= end.value <= |s|
    decreases |s| - i
  {
    if depth == 0 then Some(i)
    else if i == |s| then None
    else if StartsAt(s, "--(", i) then Nested(s, i + 3, depth + 1)
    else if StartsAt(s, ")--", i) then Nested(s, i + 3, depth - 1)
    else Nested(s, i + 1, depth)
  }

  /** Where the content of a raw literal opened by `q` quotes ends. */
  function RawContent(s: string, i: nat, q: nat): (close: Option<nat>)
    requires i <= |s| && q > 0
    ensures close.Some? ==> i <= close.value && close.value + q <= |s|
    decreases |s| - i
  {
    if i == |s| then None
    else if s[i] != '"' then RawContent(s, i + 1, q)
    else if End(s, i, Quote) - i >= q then Some(i)
    else RawContent(s, End(s, i, Quote), q)
  }

  /** Where a quoted literal ends, from a position in it. */
  function LiteralEnd(s: string, i: nat, quote: char): (end: Option<nat>)
    requires i <= |s|
    ensures end.Some? ==> i < end.value <= |s|
    decreases |s| - i
  {
    if i == |s| || Break(s[i]) then None
    else if s[i] == quote then Some(i + 1)
    else if s[i] == '\\' && i + 1 < |s| && !Break(s[i + 1]) then LiteralEnd(s, i + 2, quote)
    else LiteralEnd(s, i + 1, quote)
  }

  function FloatTo(rules: Rules, s: string, start: nat, end: nat): (l: Lexed)
    requires start < end <= |s|
    ensures l.Took? ==> l == Took(Token(Kind.Float), end)
  {
    if end < |s| && Name(s[end]) then Refused(RunsOn)
    else if !rules.spells("float", s[start..end]) then Refused(NotFloat)
    else Took(Token(Kind.Float), end)
  }

  /** A float whose exponent's mark is just before `i`. */
  function Exponent(rules: Rules, s: string, start: nat, i: nat): (l: Lexed)
    requires start < i <= |s|
    ensures l.Took? ==> start < l.end <= |s| && l.part == Token(Kind.Float)
  {
    var digits := if i < |s| && (s[i] == '+' || s[i] == '-') then i + 1 else i;
    var end := End(s, digits, Decimal);
    if end == digits then Refused(NoDigits) else FloatTo(rules, s, start, end)
  }

  predicate HasPoint(s: string, i: nat, hexadecimal: bool) {
    i + 1 < |s| && s[i] == '.' && (Digit(s[i + 1]) || (hexadecimal && HexLetter(s[i + 1])))
  }

  /** A float with a base prefix, from its point. */
  function HexFloat(rules: Rules, s: string, start: nat, i: nat, hexadecimal: bool): (l: Lexed)
    requires start <= i < |s|
    ensures l.Took? ==> start < l.end <= |s| && l.part == Token(Kind.Float)
  {
    var end := End(s, i + 1, Hex);
    if !hexadecimal then Refused(BasePrefix)
    else if end == |s| || !(s[end] == 'p' || s[end] == 'P') then Refused(NoExponent)
    else Exponent(rules, s, start, end + 1)
  }

  function DecimalFloat(rules: Rules, s: string, start: nat, i: nat): (l: Lexed)
    requires start <= i < |s|
    ensures l.Took? ==> start < l.end <= |s| && l.part == Token(Kind.Float)
  {
    var end := End(s, i + 1, Decimal);
    if end < |s| && (s[end] == 'e' || s[end] == 'E') then Exponent(rules, s, start, end + 1)
    else FloatTo(rules, s, start, end)
  }

  function Number(rules: Rules, s: string, start: nat): (l: Lexed)
    requires start < |s| && Digit(s[start])
    ensures l.Took? ==> start < l.end <= |s| && (l.part == Token(Kind.Float) || l.part == Token(Integer))
  {
    var hexadecimal := StartsAt(s, "0x", start);
    var prefixed := hexadecimal || StartsAt(s, "0o", start) || StartsAt(s, "0b", start);
    var i := End(s, start, if prefixed then Name else Decimal);
    if HasPoint(s, i, hexadecimal) then
      if prefixed then HexFloat(rules, s, start, i, hexadecimal) else DecimalFloat(rules, s, start, i)
    else
      var end := if prefixed then i else End(s, i, Name);
      if rules.spells("integer", s[start..end]) then Took(Token(Integer), end) else Refused(NotInteger)
  }

  function Quoted(s: string, start: nat, kind: Kind, fine: string -> bool, unclosed: Complaint,
                  bad: Complaint): (l: Lexed)
    requires start < |s|
    ensures l.Took? ==> start + 1 < l.end <= |s| && l.part == Token(kind)
  {
    QuotedTo(s, start, LiteralEnd(s, start + 1, s[start]), kind, fine, unclosed, bad)
  }

  function QuotedTo(s: string, start: nat, end: Option<nat>, kind: Kind, fine: string -> bool, unclosed: Complaint,
                    bad: Complaint)
    : (l: Lexed)
    requires start < |s| && (end.Some? ==> start + 1 < end.value <= |s|)
    ensures l.Took? ==> start + 1 < l.end <= |s| && l.part == Token(kind) && end == Some(l.end)
  {
    match end
    case None => Refused(unclosed)
    case Some(i) => if fine(s[start + 1..i - 1]) then Took(Token(kind), i) else Refused(bad)
  }

  function Raw(rules: Rules, s: string, start: nat, begin: nat): (l: Lexed)
    requires start < begin <= |s|
    ensures l.Took? ==> begin < l.end <= |s| && l.part == Token(RawLiteral)
  {
    match RawContent(s, begin, begin - start)
    case None => Refused(UnclosedRaw)
    case Some(close) =>
      if rules.raw(s[begin..close]) then Took(Token(RawLiteral), close + (begin - start)) else Refused(BadRaw)
  }

  function WordAt(rules: Rules, s: string, start: nat): (l: Lexed)
    requires start < |s| && WordByte(s[start])
    ensures l.Took? ==> l.end == End(s, start, WordByte) > start && l.part.Token?
                        && (l.part.kind == Word || l.part.kind == Sign)
  {
    var end := End(s, start, WordByte);
    var run := s[start..end];
    if run == "_" then Took(Token(Sign), end)
    else if rules.spells("keyword", run) || rules.spells("identifier", run) then Took(Token(Word), end)
    else Refused(NotWord)
  }

  function CommentAt(s: string, start: nat): (l: Lexed)
    requires start < |s| && StartsAt(s, "--", start)
    ensures l.Took? ==> start < l.end <= |s| && l.part == Comment
  {
    if StartsAt(s, "--(", start) then
      match Nested(s, start + 3, 1)
      case None => Refused(UnclosedComment)
      case Some(end) => Took(Comment, end)
    else
      assert s[start..start + 2] == "--" && s[start] == s[start..start + 2][0];
      Took(Comment, End(s, start, Inline))
  }

  function FirstSign(signs: seq<string>, s: string, i: nat): Option<string>
    requires i <= |s|
  {
    if signs == [] then None else if StartsAt(s, signs[0], i) then Some(signs[0]) else FirstSign(signs[1..], s, i)
  }

  function Lex(rules: Rules, s: string, i: nat): (l: Lexed)
    requires i < |s|
  {
    if Whitespace(s[i]) then
      if rules.spells("space", [s[i]]) || rules.spells("line_end", [s[i]]) then Took(Space, i + 1)
      else Refused(NoSpaceRule)
    else if StartsAt(s, "--", i) then CommentAt(s, i)
    else if Digit(s[i]) then Number(rules, s, i)
    else if Lower(s[i]) || s[i] == '_' then WordAt(rules, s, i)
    else if s[i] == '"' then
      if End(s, i, Quote) - i >= 3 then Raw(rules, s, i, End(s, i, Quote))
      else Quoted(s, i, TextLiteral, rules.text, UnclosedText, BadText)
    else if s[i] == '\'' then Quoted(s, i, CharacterLiteral, rules.character, UnclosedCharacter, BadCharacter)
    else
      match FirstSign(rules.signs, s, i)
      case None => Refused(NoRule)
      case Some(sign) => Took(Token(Sign), i + |sign|)
  }

  lemma {:induction false} FirstSignMatches(signs: seq<string>, s: string, i: nat)
    requires i <= |s|
    ensures var w := FirstSign(signs, s, i);
            if w.None? then forall v :: v in signs ==> !StartsAt(s, v, i)
            else w.value in signs && StartsAt(s, w.value, i)
  {
    if signs != [] && !StartsAt(s, signs[0], i) {
      FirstSignMatches(signs[1..], s, i);
    }
  }

  predicate LongestFirst(signs: seq<string>) {
    forall j, k :: 0 <= j < k < |signs| ==> |signs[j]| >= |signs[k]|
  }

  /** With the longest signs first, the longest that matches is taken. */
  lemma {:induction false} LongestSign(signs: seq<string>, s: string, i: nat)
    requires LongestFirst(signs)
    requires i <= |s| && FirstSign(signs, s, i).Some?
    ensures var w := FirstSign(signs, s, i).value;
            w in signs && StartsAt(s, w, i) && forall v :: v in signs && StartsAt(s, v, i) ==> |v| <= |w|
  {
    if !StartsAt(s, signs[0], i) {
      LongestSign(signs[1..], s, i);
    }
  }

  lemma LexTakes(rules: Rules, s: string, i: nat)
    requires Usable(rules) && i < |s|
    ensures var l := Lex(rules, s, i); l.Took? ==> i < l.end <= |s|
  {
    FirstSignMatches(rules.signs, s, i);
  }

  // ------------------------------------------------------------------
  // Tokens

  datatype Lexeme = Lexeme(part: Part, first: nat, end: nat)

  datatype Result<+T> = Ok(value: T) | Err(complaint: Complaint)

  function Joined<T>(out: seq<T>, rest: Result<seq<T>>): Result<seq<T>> {
    if rest.Ok? then Ok(out + rest.value) else rest
  }

  /** The lexemes from a position. */
  function Lexemes(rules: Rules, s: string, i: nat): (r: Result<seq<Lexeme>>)
    requires Usable(rules) && i <= |s|
    decreases |s| - i
  {
    if i == |s| then Ok([])
    else
      LexTakes(rules, s, i);
      match Lex(rules, s, i)
      case Refused(complaint) => Err(complaint)
      case Took(part, end) => Joined([Lexeme(part, i, end)], Lexemes(rules, s, end))
  }

  /** A token, and where it begins. */
  datatype Spelled = Spelled(kind: Kind, spelling: string, first: nat)

  function TokenOf(s: string, l: Lexeme): seq<Spelled> {
    if l.part.Token? && l.first <= l.end <= |s| then [Spelled(l.part.kind, s[l.first..l.end], l.first)] else []
  }

  function Tokens(s: string, lexemes: seq<Lexeme>): seq<Spelled> {
    if lexemes == [] then [] else TokenOf(s, lexemes[0]) + Tokens(s, lexemes[1..])
  }

  /** `landin_tokens`, from a position. */
  function TokensFrom(rules: Rules, s: string, i: nat): Result<seq<Spelled>>
    requires Usable(rules) && i <= |s|
  {
    match Lexemes(rules, s, i)
    case Err(complaint) => Err(complaint)
    case Ok(lexemes) => Ok(Tokens(s, lexemes))
  }

  /** One piece of whitespace or comment. */
  predicate Trivia(s: string, i: nat, end: nat) {
    i < end <= |s|
    && if StartsAt(s, "--(", i) then Nested(s, i + 3, 1) == Some(end)
       else if StartsAt(s, "--", i) then end == End(s, i, Inline)
       else end == i + 1 && Whitespace(s[i])
  }

  /** Nothing but whitespace and comments between two positions. */
  ghost predicate Skips(s: string, i: nat, end: nat)
    decreases end - i
  {
    i == end || exists k :: i < k <= end && Trivia(s, i, k) && Skips(s, k, end)
  }

  /** From `i`, the tokens are slices of the source in order, with nothing but
      whitespace and comments between them. */
  ghost predicate Tiles(s: string, ts: seq<Spelled>, i: nat)
    decreases |ts|
  {
    i <= |s|
    && if ts == [] then Skips(s, i, |s|)
       else i <= ts[0].first <= |s| && Skips(s, i, ts[0].first) && ts[0].spelling != ""
            && StartsAt(s, ts[0].spelling, ts[0].first)
            && Tiles(s, ts[1..], ts[0].first + |ts[0].spelling|)
  }

  lemma TriviaFirst(s: string, i: nat, k: nat, ts: seq<Spelled>)
    requires Trivia(s, i, k) && Tiles(s, ts, k)
    ensures Tiles(s, ts, i)
  {
  }

  lemma LexIsTrivia(rules: Rules, s: string, i: nat)
    requires Usable(rules) && i < |s| && Lex(rules, s, i).Took? && !Lex(rules, s, i).part.Token?
    ensures Trivia(s, i, Lex(rules, s, i).end)
  {
    LexTakes(rules, s, i);
    NoHyphensInBlanks(s, i);
  }

  lemma NoHyphensInBlanks(s: string, i: nat)
    requires i < |s|
    ensures StartsAt(s, "--(", i) ==> StartsAt(s, "--", i)
    ensures Whitespace(s[i]) ==> !StartsAt(s, "--", i)
  {
    if StartsAt(s, "--", i) {
      AtCharacters(s[i..], "--");
    }
    if StartsAt(s, "--(", i) {
      AtCharacters(s[i..], "--(");
      assert "--" == "--("[..2];
    }
  }

  /** The first lexeme from a position, and the tokens after it. */
  lemma TokensAfter(rules: Rules, s: string, i: nat)
    requires Usable(rules) && i < |s|
    ensures match Lex(rules, s, i) {
              case Refused(complaint) => TokensFrom(rules, s, i) == Err(complaint)
              case Took(part, end) =>
                i < end <= |s|
                && TokensFrom(rules, s, i) == Joined(TokenOf(s, Lexeme(part, i, end)), TokensFrom(rules, s, end))
            }
  {
    LexTakes(rules, s, i);
    var l := Lex(rules, s, i);
    if l.Took? && Lexemes(rules, s, l.end).Ok? {
      var first, rest := Lexeme(l.part, i, l.end), Lexemes(rules, s, l.end).value;
      assert Lexemes(rules, s, i) == Ok([first] + rest);
      assert ([first] + rest)[1..] == rest;
    }
  }

  lemma TokenFirst(s: string, kind: Kind, i: nat, end: nat, ts: seq<Spelled>)
    requires i < end <= |s| && Tiles(s, ts, end)
    ensures Tiles(s, [Spelled(kind, s[i..end], i)] + ts, i)
  {
    assert ([Spelled(kind, s[i..end], i)] + ts)[1..] == ts;
    assert s[i..][..end - i] == s[i..end];
  }

  lemma {:induction false} TokensTile(rules: Rules, s: string, i: nat)
    requires Usable(rules) && i <= |s| && TokensFrom(rules, s, i).Ok?
    ensures Tiles(s, TokensFrom(rules, s, i).value, i)
    decreases |s| - i
  {
    if i < |s| {
      var l := Lex(rules, s, i);
      TokensAfter(rules, s, i);
      TokensTile(rules, s, l.end);
      var ts := TokensFrom(rules, s, l.end).value;
      if l.part.Token? {
        TokenFirst(s, l.part.kind, i, l.end, ts);
      } else {
        LexIsTrivia(rules, s, i);
        TriviaFirst(s, i, l.end, ts);
        assert [] + ts == ts;
      }
    }
  }

  /** Tokens that tile a source are disjoint slices of it in order. */
  lemma {:induction false} TilesInOrder(s: string, ts: seq<Spelled>, i: nat)
    requires Tiles(s, ts, i)
    ensures forall j :: 0 <= j < |ts| ==> i <= ts[j].first <= |s| && ts[j].spelling != ""
                                          && StartsAt(s, ts[j].spelling, ts[j].first)
    ensures forall j, k :: 0 <= j < k < |ts| ==> ts[j].first + |ts[j].spelling| <= ts[k].first
    decreases |ts|
  {
    if ts != [] {
      var rest := ts[1..];
      TilesInOrder(s, rest, ts[0].first + |ts[0].spelling|);
      forall j | 1 <= j < |ts|
        ensures ts[j] == rest[j - 1]
      {
      }
      assert ts == [ts[0]] + rest;
    }
  }

  /** The tokens of an accepted source are its slices, in order and apart, and what
      is between them is whitespace and comments. */
  lemma AcceptedIsTiled(rules: Rules, s: string)
    requires Usable(rules) && TokensFrom(rules, s, 0).Ok?
    ensures var ts := TokensFrom(rules, s, 0).value;
            && Tiles(s, ts, 0)
            && (forall j :: 0 <= j < |ts| ==> ts[j].spelling != "" && ts[j].first <= |s|
                                              && StartsAt(s, ts[j].spelling, ts[j].first))
            && (forall j, k :: 0 <= j < k < |ts| ==> ts[j].first + |ts[j].spelling| <= ts[k].first)
  {
    TokensTile(rules, s, 0);
    TilesInOrder(s, TokensFrom(rules, s, 0).value, 0);
  }

  // ------------------------------------------------------------------
  // The loops

  method TakeRun(source: string, start: nat, p: char -> bool) returns (i: nat)
    requires start <= |source|
    ensures i == End(source, start, p)
  {
    i := start;
    while i < |source| && p(source[i])
      invariant start <= i <= |source|
      invariant End(source, start, p) == End(source, i, p)
    {
      i := i + 1;
    }
  }

  /** After the opening of a block comment. */
  method TakeNested(source: string, start: nat) returns (end: Option<nat>)
    requires start <= |source|
    ensures end == Nested(source, start, 1)
  {
    var i, depth := start, 1;
    while i < |source| && depth > 0
      invariant start <= i <= |source|
      invariant Nested(source, start, 1) == Nested(source, i, depth)
      decreases |source| - i
    {
      if StartsAt(source, "--(", i) {
        depth, i := depth + 1, i + 3;
      } else if StartsAt(source, ")--", i) {
        depth, i := depth - 1, i + 3;
      } else {
        i := i + 1;
      }
    }
    end := if depth > 0 then None else Some(i);
  }

  /** After the quotes that open a raw literal. */
  method TakeRaw(source: string, start: nat, quotes: nat) returns (close: Option<nat>)
    requires start <= |source| && quotes > 0
    ensures close == RawContent(source, start, quotes)
  {
    var i := start;
    while i < |source|
      invariant start <= i <= |source|
      invariant RawContent(source, start, quotes) == RawContent(source, i, quotes)
    {
      if source[i] == '"' {
        var end := TakeRun(source, i, Quote);
        if end - i >= quotes {
          return Some(i);
        }
        i := end;
      } else {
        i := i + 1;
      }
    }
    close := None;
  }

  /** After the opening quote of a text or character literal. */
  method TakeLiteral(source: string, start: nat, quote: char) returns (end: Option<nat>)
    requires start <= |source|
    ensures end == LiteralEnd(source, start, quote)
  {
    var i := start;
    while i < |source| && !Break(source[i])
      invariant start <= i <= |source|
      invariant LiteralEnd(source, start, quote) == LiteralEnd(source, i, quote)
    {
      if source[i] == quote {
        return Some(i + 1);
      }
      if source[i] == '\\' && i + 1 < |source| && !Break(source[i + 1]) {
        i := i + 1;
      }
      i := i + 1;
    }
    end := None;
  }

  method TakeSign(rules: Rules, source: string, start: nat) returns (sign: Option<string>)
    requires start <= |source|
    ensures sign == FirstSign(rules.signs, source, start)
  {
    for n := 0 to |rules.signs|
      invariant FirstSign(rules.signs, source, start) == FirstSign(rules.signs[n..], source, start)
    {
      assert rules.signs[n..][1..] == rules.signs[n + 1..];
      if StartsAt(source, rules.signs[n], start) {
        return Some(rules.signs[n]);
      }
    }
    sign := None;
  }

  method TakeExponent(rules: Rules, source: string, start: nat, mark: nat) returns (lexed: Lexed)
    requires start < mark <= |source|
    ensures lexed == Exponent(rules, source, start, mark)
  {
    var digits := if mark < |source| && (source[mark] == '+' || source[mark] == '-') then mark + 1 else mark;
    var end := TakeRun(source, digits, Decimal);
    if end == digits {
      return Refused(NoDigits);
    }
    lexed := FloatTo(rules, source, start, end);
  }

  method TakeHexFloat(rules: Rules, source: string, start: nat, i: nat, hexadecimal: bool) returns (lexed: Lexed)
    requires start <= i < |source|
    ensures lexed == HexFloat(rules, source, start, i, hexadecimal)
  {
    if !hexadecimal {
      return Refused(BasePrefix);
    }
    var end := TakeRun(source, i + 1, Hex);
    if end >= |source| || !(source[end] == 'p' || source[end] == 'P') {
      return Refused(NoExponent);
    }
    lexed := TakeExponent(rules, source, start, end + 1);
  }

  method TakeDecimalFloat(rules: Rules, source: string, start: nat, i: nat) returns (lexed: Lexed)
    requires start <= i < |source|
    ensures lexed == DecimalFloat(rules, source, start, i)
  {
    var end := TakeRun(source, i + 1, Decimal);
    if end < |source| && (source[end] == 'e' || source[end] == 'E') {
      lexed := TakeExponent(rules, source, start, end + 1);
    } else {
      lexed := FloatTo(rules, source, start, end);
    }
  }

  method TakeNumber(rules: Rules, source: string, start: nat) returns (lexed: Lexed)
    requires start < |source| && Digit(source[start])
    ensures lexed == Number(rules, source, start)
  {
    var hexadecimal := StartsAt(source, "0x", start);
    var prefixed := hexadecimal || StartsAt(source, "0o", start) || StartsAt(source, "0b", start);
    var i := TakeRun(source, start, if prefixed then Name else Decimal);
    if HasPoint(source, i, hexadecimal) {
      if prefixed {
        lexed := TakeHexFloat(rules, source, start, i, hexadecimal);
      } else {
        lexed := TakeDecimalFloat(rules, source, start, i);
      }
      return;
    }
    if !prefixed {
      i := TakeRun(source, i, Name);
    }
    lexed := if rules.spells("integer", source[start..i]) then Took(Token(Integer), i) else Refused(NotInteger);
  }

  method TakeQuoted(source: string, start: nat, kind: Kind, fine: string -> bool, unclosed: Complaint, bad: Complaint)
    returns (lexed: Lexed)
    requires start < |source|
    ensures lexed == Quoted(source, start, kind, fine, unclosed, bad)
  {
    var end := TakeLiteral(source, start + 1, source[start]);
    lexed := QuotedTo(source, start, end, kind, fine, unclosed, bad);
  }

  method TakeRawLiteral(rules: Rules, source: string, start: nat, begin: nat) returns (lexed: Lexed)
    requires start < begin <= |source|
    ensures lexed == Raw(rules, source, start, begin)
  {
    var quotes := begin - start;
    var close := TakeRaw(source, begin, quotes);
    if close.None? {
      return Refused(UnclosedRaw);
    }
    lexed := if rules.raw(source[begin..close.value]) then Took(Token(RawLiteral), close.value + quotes)
             else Refused(BadRaw);
  }

  method TakeWord(rules: Rules, source: string, start: nat) returns (lexed: Lexed)
    requires start < |source| && WordByte(source[start])
    ensures lexed == WordAt(rules, source, start)
  {
    var i := TakeRun(source, start, WordByte);
    var run := source[start..i];
    if run == "_" {
      return Took(Token(Sign), i);
    }
    if !rules.spells("keyword", run) && !rules.spells("identifier", run) {
      return Refused(NotWord);
    }
    lexed := Took(Token(Word), i);
  }

  method TakeComment(source: string, start: nat) returns (lexed: Lexed)
    requires start < |source| && StartsAt(source, "--", start)
    ensures lexed == CommentAt(source, start)
  {
    if StartsAt(source, "--(", start) {
      var end := TakeNested(source, start + 3);
      lexed := if end.Some? then Took(Comment, end.value) else Refused(UnclosedComment);
    } else {
      var end := TakeRun(source, start, Inline);
      lexed := Took(Comment, end);
    }
  }

  method TakeNext(rules: Rules, source: string, i: nat) returns (lexed: Lexed)
    requires i < |source|
    ensures lexed == Lex(rules, source, i)
  {
    var c := source[i];
    if Whitespace(c) {
      if !rules.spells("space", [c]) && !rules.spells("line_end", [c]) {
        return Refused(NoSpaceRule);
      }
      return Took(Space, i + 1);
    }
    if StartsAt(source, "--", i) {
      lexed := TakeComment(source, i);
    } else if Digit(c) {
      lexed := TakeNumber(rules, source, i);
    } else if Lower(c) || c == '_' {
      lexed := TakeWord(rules, source, i);
    } else if c == '"' {
      var end := TakeRun(source, i, Quote);
      if end - i >= 3 {
        lexed := TakeRawLiteral(rules, source, i, end);
      } else {
        lexed := TakeQuoted(source, i, TextLiteral, rules.text, UnclosedText, BadText);
      }
    } else if c == '\'' {
      lexed := TakeQuoted(source, i, CharacterLiteral, rules.character, UnclosedCharacter, BadCharacter);
    } else {
      var sign := TakeSign(rules, source, i);
      lexed := if sign.Some? then Took(Token(Sign), i + |sign.value|) else Refused(NoRule);
    }
  }

  lemma JoinedBoth<T>(a: seq<T>, b: seq<T>, rest: Result<seq<T>>)
    ensures Joined(a, Joined(b, rest)) == Joined(a + b, rest)
  {
    if rest.Ok? {
      assert a + (b + rest.value) == a + b + rest.value;
    }
  }

  method LandinTokens(rules: Rules, source: string) returns (result: Result<seq<Spelled>>)
    requires Usable(rules)
    ensures result == TokensFrom(rules, source, 0)
  {
    var out, i := [], 0;
    ghost var whole := TokensFrom(rules, source, 0);
    assert whole.Ok? ==> [] + whole.value == whole.value;
    while i < |source|
      invariant i <= |source|
      invariant whole == Joined(out, TokensFrom(rules, source, i))
    {
      var lexed := TakeNext(rules, source, i);
      TokensAfter(rules, source, i);
      if lexed.Refused? {
        return Err(lexed.complaint);
      }
      var token := TokenOf(source, Lexeme(lexed.part, i, lexed.end));
      JoinedBoth(out, token, TokensFrom(rules, source, lexed.end));
      out := out + token;
      i := lexed.end;
    }
    assert out + [] == out;
    result := Ok(out);
  }
}
