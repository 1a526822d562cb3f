/** What the tokens are, said without the scanner: which stretch of a source is a
    comment, a number, a word, a literal or a sign, and so which sources are accepted
    and as what. */
module TokenForms {
  import opened Options
  import opened Characters
  import opened Visibility
  import opened Tokeniser

  // ------------------------------------------------------------------
  // Characters

  predicate IsDigit(c: char) { '0' <= c <= '9' }

  predicate IsLower(c: char) { 'a' <= c <= 'z' }

  predicate IsDecimal(c: char) { IsDigit(c) || c == '_' }

  predicate IsHex(c: char) { IsDigit(c) || 'a' <= c <= 'f' || 'A' <= c <= 'F' || c == '_' }

  predicate IsWordByte(c: char) { IsLower(c) || IsDigit(c) || c == '_' }

  predicate IsName(c: char) { IsLower(c) || 'A' <= c <= 'Z' || IsDigit(c) || c == '_' }

  predicate IsBreak(c: char) { c == '\r' || c == '\n' }

  /** `s[i..j]` are such characters, and no more follow. */
  ghost predicate AllRun(s: string, i: nat, j: nat, p: char -> bool) {
    i <= j <= |s| && (forall k :: i <= k < j ==> p(s[k])) && (j < |s| ==> !p(s[j]))
  }

  /** The text has this word at the position. */
  ghost predicate HasAt(s: string, i: nat, w: string) {
    i + |w| <= |s| && s[i..i + |w|] == w
  }

  // ------------------------------------------------------------------
  // Comments

  /** Behind an opening: up to the closing that belongs to it. */
  ghost predicate Closes(s: string, i: nat, end: nat)
    decreases |s| - i
  {
    i < |s| &&
    if HasAt(s, i, ")--") then end == i + 3
    else if HasAt(s, i, "--(") then exists m: nat :: i + 3 <= m && Closes(s, i + 3, m) && Closes(s, m, end)
    else Closes(s, i + 1, end)
  }

  ghost predicate CommentForm(s: string, i: nat, end: nat) {
    if HasAt(s, i, "--(") then Closes(s, i + 3, end)
    else HasAt(s, i, "--") && AllRun(s, i, end, c => !IsBreak(c))
  }

  // ------------------------------------------------------------------
  // Numbers

  ghost predicate HexPrefix(s: string, i: nat) {
    HasAt(s, i, "0x")
  }

  ghost predicate Prefixed(s: string, i: nat) {
    HexPrefix(s, i) || HasAt(s, i, "0o") || HasAt(s, i, "0b")
  }

  /** A point behind `m` belongs to the number. */
  ghost predicate PointAt(s: string, i: nat, m: nat) {
    m + 1 < |s| && s[m] == '.' &&
    (IsDigit(s[m + 1]) || (HexPrefix(s, i) && ('a' <= s[m + 1] <= 'f' || 'A' <= s[m + 1] <= 'F')))
  }

  /** What stands before a point. */
  ghost predicate Whole(s: string, i: nat, m: nat) {
    AllRun(s, i, m, if Prefixed(s, i) then IsName else IsDecimal)
  }

  /** An optional sign and digits. */
  ghost predicate ExponentForm(s: string, i: nat, end: nat) {
    var digits := if i < |s| && (s[i] == '+' || s[i] == '-') then i + 1 else i;
    digits < end && AllRun(s, digits, end, IsDecimal)
  }

  ghost predicate HexFractionForm(s: string, f: nat, end: nat) {
    exists m: nat :: AllRun(s, f, m, IsHex) && HexTail(s, m, end)
  }

  ghost predicate HexTail(s: string, m: nat, end: nat) {
    m < |s| && (s[m] == 'p' || s[m] == 'P') && ExponentForm(s, m + 1, end)
  }

  ghost predicate DecimalFractionForm(s: string, f: nat, end: nat) {
    exists m: nat :: AllRun(s, f, m, IsDecimal) && DecimalTail(s, m, end)
  }

  ghost predicate DecimalTail(s: string, m: nat, end: nat) {
    if m < |s| && (s[m] == 'e' || s[m] == 'E') then ExponentForm(s, m + 1, end) else end == m
  }

  /** What stands behind a point. */
  ghost predicate FractionForm(s: string, i: nat, f: nat, end: nat) {
    if Prefixed(s, i) then HexPrefix(s, i) && HexFractionForm(s, f, end) else DecimalFractionForm(s, f, end)
  }

  ghost predicate FloatForm(rules: Rules, s: string, i: nat, end: nat) {
    && (exists m: nat :: Whole(s, i, m) && PointAt(s, i, m) && FractionForm(s, i, m + 1, end))
    && i < end <= |s| && (end < |s| ==> !IsName(s[end])) && rules.spells("float", s[i..end])
  }

  ghost predicate IntegerForm(rules: Rules, s: string, i: nat, end: nat) {
    && (exists m: nat :: Whole(s, i, m) && !PointAt(s, i, m))
    && AllRun(s, i, end, IsName) && rules.spells("integer", s[i..end])
  }

  // ------------------------------------------------------------------
  // Literals

  /** So many quotes. */
  ghost predicate QuotesAt(s: string, i: nat, q: nat) {
    i + q <= |s| && forall k :: i <= k < i + q ==> s[k] == '\"'
  }

  ghost predicate RawForm(rules: Rules, s: string, i: nat, q: nat, end: nat) {
    q >= 3 && AllRun(s, i, i + q, c => c == '\"') &&
    exists close: nat :: i + q <= close && QuotesAt(s, close, q) && end == close + q
                         && (forall k :: i + q <= k < close ==> !QuotesAt(s, k, q)) && rules.raw(s[i + q..close])
  }

  /** Between the quotes: characters on the line, and each backslash with one behind it. */
  ghost predicate Content(text: string, quote: char) {
    text == "" ||
    if text[0] == '\\' then |text| > 1 && !IsBreak(text[1]) && Content(text[2..], quote)
    else text[0] != quote && !IsBreak(text[0]) && Content(text[1..], quote)
  }

  ghost predicate QuotedForm(s: string, i: nat, end: nat, quote: char, fine: string -> bool) {
    i + 2 <= end <= |s| && s[i] == quote && s[end - 1] == quote && Content(s[i + 1..end - 1], quote)
    && fine(s[i + 1..end - 1])
  }

  // ------------------------------------------------------------------
  // Any of them

  ghost predicate WordRun(s: string, i: nat, end: nat)
    requires i < |s|
  {
    (IsLower(s[i]) || s[i] == '_') && AllRun(s, i, end, IsWordByte)
  }

  ghost predicate TextQuotes(s: string, i: nat)
    requires i < |s|
  {
    s[i] == '\"' && !QuotesAt(s, i, 3)
  }

  /** Nothing else begins here. */
  ghost predicate SignStarts(s: string, i: nat)
    requires i < |s|
  {
    && s[i] != ' ' && s[i] != '\t' && !IsBreak(s[i]) && !HasAt(s, i, "--") && !IsDigit(s[i])
    && !IsLower(s[i]) && s[i] != '_' && s[i] != '\"' && s[i] != '\''
  }

  /** The longest of the signs that stand here. */
  ghost predicate SignForm(rules: Rules, s: string, i: nat, end: nat) {
    i <= end <= |s| && s[i..end] in rules.signs && forall w :: w in rules.signs && HasAt(s, i, w) ==> |w| <= end - i
  }

  ghost predicate Form(rules: Rules, s: string, i: nat, part: Part, end: nat)
    requires i < |s|
  {
    match part
    case Space =>
      && (s[i] == ' ' || s[i] == '\t' || IsBreak(s[i])) && end == i + 1
      && (rules.spells("space", s[i..i + 1]) || rules.spells("line_end", s[i..i + 1]))
    case Comment => HasAt(s, i, "--") && CommentForm(s, i, end)
    case Token(kind) => TokenForm(rules, s, i, kind, end)
  }

  ghost predicate TokenForm(rules: Rules, s: string, i: nat, kind: Kind, end: nat)
    requires i < |s|
  {
    match kind
    case Integer => IsDigit(s[i]) && IntegerForm(rules, s, i, end)
    case Float => IsDigit(s[i]) && FloatForm(rules, s, i, end)
    case Word =>
      && WordRun(s, i, end) && i <= end <= |s| && s[i..end] != "_"
      && (rules.spells("keyword", s[i..end]) || rules.spells("identifier", s[i..end]))
    case RawLiteral => exists q: nat :: RawForm(rules, s, i, q, end)
    case TextLiteral => TextQuotes(s, i) && QuotedForm(s, i, end, '\"', rules.text)
    case CharacterLiteral => QuotedForm(s, i, end, '\'', rules.character)
    case Sign =>
      || (WordRun(s, i, end) && i <= end <= |s| && s[i..end] == "_")
      || (SignStarts(s, i) && SignForm(rules, s, i, end))
  }

  // ------------------------------------------------------------------
  // Runs

  lemma RunIsEnd(s: string, i: nat, j: nat, p: char -> bool, q: char -> bool)
    requires i <= |s| && forall c :: p(c) == q(c)
    ensures AllRun(s, i, j, p) <==> j == End(s, i, q)
  {
    var end := End(s, i, q);
    assert end < |s| ==> !q(s[end]);
  }

  /** A run has one end. */
  lemma OneRun(s: string, i: nat, p: char -> bool, q: char -> bool)
    requires i <= |s| && forall c :: p(c) == q(c)
    ensures AllRun(s, i, End(s, i, q), p) && forall j: nat :: AllRun(s, i, j, p) ==> j == End(s, i, q)
  {
    forall j: nat | AllRun(s, i, j, p)
      ensures j == End(s, i, q)
    {
      RunIsEnd(s, i, j, p, q);
    }
    RunIsEnd(s, i, End(s, i, q), p, q);
  }

  lemma SameClasses(c: char)
    ensures IsDigit(c) == Digit(c) && IsLower(c) == Lower(c) && IsDecimal(c) == Decimal(c) && IsHex(c) == Hex(c)
    ensures IsWordByte(c) == WordByte(c) && IsName(c) == Name(c) && IsBreak(c) == Break(c)
    ensures (c == '\"') == Quote(c) && (!IsBreak(c)) == Inline(c)
    ensures ('a' <= c <= 'f' || 'A' <= c <= 'F') == HexLetter(c)
    ensures (c == ' ' || c == '\t' || IsBreak(c)) == Whitespace(c)
  {
  }

  // ------------------------------------------------------------------
  // Comments

  /** Deeper by one: first up to the closing of the innermost. */
  lemma {:induction false} NestedSplits(s: string, i: nat, depth: nat)
    requires i <= |s| && depth > 0
    ensures Nested(s, i, depth + 1)
         == match Nested(s, i, depth) case None => None case Some(m) => Nested(s, m, 1)
    decreases |s| - i
  {
    if i < |s| {
      if StartsAt(s, "--(", i) {
        NestedSplits(s, i + 3, depth + 1);
      } else if StartsAt(s, ")--", i) {
        if depth > 1 {
          NestedSplits(s, i + 3, depth - 1);
        }
      } else {
        NestedSplits(s, i + 1, depth);
      }
    }
  }

  lemma {:induction false} NestedCloses(s: string, i: nat, end: nat)
    requires i <= |s|
    ensures Nested(s, i, 1) == Some(end) <==> Closes(s, i, end)
    decreases |s| - i
  {
    if i < |s| {
      OpensOrCloses(s, i);
      if HasAt(s, i, ")--") {
        assert Nested(s, i + 3, 0) == Some(i + 3);
      } else if HasAt(s, i, "--(") {
        NestedSplits(s, i + 3, 1);
        forall m: nat | i + 3 <= m <= |s|
          ensures Nested(s, i + 3, 1) == Some(m) <==> Closes(s, i + 3, m)
          ensures Nested(s, m, 1) == Some(end) <==> Closes(s, m, end)
        {
          NestedCloses(s, i + 3, m);
          NestedCloses(s, m, end);
        }
        ClosesWithin(s, i + 3);
      } else {
        NestedCloses(s, i + 1, end);
      }
    }
  }

  lemma OpensOrCloses(s: string, i: nat)
    requires i < |s|
    ensures HasAt(s, i, "--(") == StartsAt(s, "--(", i) && HasAt(s, i, ")--") == StartsAt(s, ")--", i)
    ensures !(HasAt(s, i, "--(") && HasAt(s, i, ")--"))
  {
    if HasAt(s, i, "--(") {
      assert s[i..i + 3][0] == '-';
    }
  }

  lemma {:induction false} ClosesAt(s: string, i: nat, m: nat)
    requires Closes(s, i, m)
    ensures i < m <= |s|
    decreases |s| - i
  {
    if HasAt(s, i, ")--") {
    } else if HasAt(s, i, "--(") {
      var k: nat :| i + 3 <= k && Closes(s, i + 3, k) && Closes(s, k, m);
      ClosesAt(s, k, m);
    } else {
      ClosesAt(s, i + 1, m);
    }
  }

  lemma ClosesWithin(s: string, i: nat)
    ensures forall m: nat :: Closes(s, i, m) ==> i < m <= |s|
  {
    forall m: nat | Closes(s, i, m)
      ensures i < m <= |s|
    {
      ClosesAt(s, i, m);
    }
  }

  lemma CommentExactly(s: string, i: nat, end: nat)
    requires i < |s| && StartsAt(s, "--", i)
    ensures CommentAt(s, i) == Took(Comment, end) <==> CommentForm(s, i, end)
  {
    OpensOrCloses(s, i);
    if HasAt(s, i, "--(") {
      NestedCloses(s, i + 3, end);
    } else {
      RunIsEnd(s, i, end, c => !IsBreak(c), Inline);
    }
  }

  // ------------------------------------------------------------------
  // Literals

  lemma {:induction false} LiteralExactly(s: string, j: nat, quote: char, end: nat)
    requires j <= |s| && (quote == '\"' || quote == '\'')
    ensures LiteralEnd(s, j, quote) == Some(end)
       <==> j < end <= |s| && s[end - 1] == quote && Content(s[j..end - 1], quote)
    decreases |s| - j
  {
    if j < |s| && !Break(s[j]) && s[j] != quote {
      var two := s[j] == '\\' && j + 1 < |s| && !Break(s[j + 1]);
      LiteralExactly(s, if two then j + 2 else j + 1, quote, end);
      if j < end <= |s| {
        var text := s[j..end - 1];
        if text != "" {
          assert text[0] == s[j] && text[1..] == s[j + 1..end - 1];
          if |text| > 1 {
            assert text[1] == s[j + 1] && text[2..] == s[j + 2..end - 1];
          }
        }
      }
    }
  }

  /** The first place with so many quotes. */
  lemma {:induction false} RawExactly(s: string, i: nat, q: nat, close: nat)
    requires i <= |s| && q > 0
    ensures RawContent(s, i, q) == Some(close)
       <==> i <= close && QuotesAt(s, close, q) && forall k :: i <= k < close ==> !QuotesAt(s, k, q)
    decreases |s| - i
  {
    if i < |s| {
      if s[i] != '\"' {
        RawExactly(s, i + 1, q, close);
      } else {
        var end := End(s, i, Quote);
        forall k: nat | i <= k < end
          ensures QuotesAt(s, k, q) <==> end - k >= q
        {
          assert end < |s| ==> s[end] != '\"';
        }
        assert QuotesAt(s, i, q) <==> end - i >= q;
        if end - i < q {
          RawExactly(s, end, q, close);
        }
      }
    }
  }

  lemma QuotedExactly(s: string, i: nat, kind: Kind, quote: char, fine: string -> bool, no: Complaint, bad: Complaint,
                      end: nat)
    requires i < |s| && s[i] == quote && (quote == '\"' || quote == '\'')
    ensures Quoted(s, i, kind, fine, no, bad) == Took(Token(kind), end) <==> QuotedForm(s, i, end, quote, fine)
  {
    LiteralExactly(s, i + 1, quote, end);
  }

  lemma RawFormExactly(rules: Rules, s: string, i: nat, begin: nat, end: nat)
    requires i < |s| && begin == End(s, i, Quote) && begin - i >= 3
    ensures Raw(rules, s, i, begin) == Took(Token(RawLiteral), end) <==> exists q: nat :: RawForm(rules, s, i, q, end)
  {
    var q := begin - i;
    QuoteRun(s, i, q);
    forall other: nat | RawForm(rules, s, i, other, end)
      ensures other == q
    {
      QuoteRun(s, i, other);
    }
    if Raw(rules, s, i, begin) == Took(Token(RawLiteral), end) {
      RawExactly(s, begin, q, end - q);
      assert RawForm(rules, s, i, q, end);
    }
    if RawForm(rules, s, i, q, end) {
      RawExactly(s, begin, q, end - q);
    }
  }

  lemma QuoteRun(s: string, i: nat, q: nat)
    requires i <= |s|
    ensures AllRun(s, i, i + q, c => c == '\"') <==> i + q == End(s, i, Quote)
    ensures QuotesAt(s, i, 3) <==> End(s, i, Quote) - i >= 3
  {
    RunIsEnd(s, i, i + q, c => c == '\"', Quote);
    var end := End(s, i, Quote);
    assert end < |s| ==> s[end] != '\"';
  }

  // ------------------------------------------------------------------
  // Numbers

  lemma PrefixExactly(s: string, i: nat)
    requires i < |s|
    ensures HexPrefix(s, i) == StartsAt(s, "0x", i)
    ensures Prefixed(s, i) == (StartsAt(s, "0x", i) || StartsAt(s, "0o", i) || StartsAt(s, "0b", i))
  {
  }

  lemma WholeExactly(s: string, i: nat, m: nat)
    requires i < |s|
    ensures Whole(s, i, m) <==> m == End(s, i, if Prefixed(s, i) then Name else Decimal)
  {
    if Prefixed(s, i) {
      RunIsEnd(s, i, m, IsName, Name);
    } else {
      RunIsEnd(s, i, m, IsDecimal, Decimal);
    }
  }

  lemma ExponentExactly(rules: Rules, s: string, start: nat, i: nat, end: nat)
    requires start < i <= |s|
    ensures Exponent(rules, s, start, i) == Took(Token(Kind.Float), end)
       <==> ExponentForm(s, i, end) && EndsFloat(rules, s, start, end)
  {
    var digits := if i < |s| && (s[i] == '+' || s[i] == '-') then i + 1 else i;
    RunIsEnd(s, digits, end, IsDecimal, Decimal);
  }

  /** The spelling is a float's, and no name runs on behind it. */
  ghost predicate EndsFloat(rules: Rules, s: string, i: nat, end: nat) {
    i < end <= |s| && (end < |s| ==> !IsName(s[end])) && rules.spells("float", s[i..end])
  }

  lemma HexFraction(s: string, f: nat, end: nat)
    requires f <= |s|
    ensures HexFractionForm(s, f, end) <==> HexTail(s, End(s, f, Hex), end)
  {
    OneRun(s, f, IsHex, Hex);
  }

  lemma DecimalFraction(s: string, f: nat, end: nat)
    requires f <= |s|
    ensures DecimalFractionForm(s, f, end) <==> DecimalTail(s, End(s, f, Decimal), end)
  {
    OneRun(s, f, IsDecimal, Decimal);
  }

  ghost predicate FractionRead(s: string, i: nat, f: nat, end: nat)
    requires f <= |s|
  {
    if Prefixed(s, i) then HexPrefix(s, i) && HexTail(s, End(s, f, Hex), end)
    else DecimalTail(s, End(s, f, Decimal), end)
  }

  lemma FractionExactly(s: string, i: nat, f: nat, end: nat)
    requires f <= |s|
    ensures FractionForm(s, i, f, end) <==> FractionRead(s, i, f, end)
  {
    HexFraction(s, f, end);
    DecimalFraction(s, f, end);
  }

  lemma HexFloatReads(rules: Rules, s: string, start: nat, m: nat, end: nat)
    requires start < m < |s|
    ensures HexFloat(rules, s, start, m, true) == Took(Token(Kind.Float), end)
       <==> HexTail(s, End(s, m + 1, Hex), end) && EndsFloat(rules, s, start, end)
  {
    var k := End(s, m + 1, Hex);
    if k < |s| && (s[k] == 'p' || s[k] == 'P') {
      ExponentExactly(rules, s, start, k + 1, end);
    }
  }

  lemma PlainExactly(rules: Rules, s: string, start: nat, k: nat, end: nat)
    requires start < k <= |s|
    ensures FloatTo(rules, s, start, k) == Took(Token(Kind.Float), end) <==> end == k && EndsFloat(rules, s, start, end)
  {
  }

  lemma DecimalFloatReads(rules: Rules, s: string, start: nat, m: nat, end: nat)
    requires start < m < |s|
    ensures DecimalFloat(rules, s, start, m) == Took(Token(Kind.Float), end)
       <==> DecimalTail(s, End(s, m + 1, Decimal), end) && EndsFloat(rules, s, start, end)
  {
    var k := End(s, m + 1, Decimal);
    if k < |s| && (s[k] == 'e' || s[k] == 'E') {
      ExponentExactly(rules, s, start, k + 1, end);
    } else {
      PlainExactly(rules, s, start, k, end);
    }
  }

  /** The name characters from a place are the digits there and the name characters behind. */
  lemma {:induction false} NameBehindDigits(s: string, i: nat)
    requires i <= |s|
    ensures End(s, End(s, i, Decimal), Name) == End(s, i, Name)
    decreases |s| - i
  {
    if i < |s| && Decimal(s[i]) {
      NameBehindDigits(s, i + 1);
    }
  }

  /** A number is read by what stands before its point, if it has one. */
  lemma NumberByPoint(rules: Rules, s: string, i: nat, m: nat, hexadecimal: bool, prefixed: bool)
    requires i < |s| && Digit(s[i]) && hexadecimal == HexPrefix(s, i) && prefixed == Prefixed(s, i)
    requires m == End(s, i, if prefixed then Name else Decimal)
    ensures i < m && (PointAt(s, i, m) <==> HasPoint(s, m, hexadecimal))
    ensures Number(rules, s, i)
         == if HasPoint(s, m, hexadecimal) then
              if prefixed then HexFloat(rules, s, i, m, hexadecimal) else DecimalFloat(rules, s, i, m)
            else
              var end := if prefixed then m else End(s, m, Name);
              if rules.spells("integer", s[i..end]) then Took(Token(Integer), end) else Refused(NotInteger)
  {
    PrefixExactly(s, i);
  }

  /** What stands before the point stands there alone. */
  lemma OneWhole(s: string, i: nat, m: nat)
    requires i < |s| && m == End(s, i, if Prefixed(s, i) then Name else Decimal)
    ensures Whole(s, i, m) && forall other: nat :: Whole(s, i, other) ==> other == m
  {
    WholeExactly(s, i, m);
    forall other: nat | Whole(s, i, other)
      ensures other == m
    {
      WholeExactly(s, i, other);
    }
  }

  lemma IntegerExactly(rules: Rules, s: string, i: nat, m: nat, prefixed: bool, end: nat)
    requires i < |s| && Digit(s[i]) && m == End(s, i, if prefixed then Name else Decimal) && prefixed == Prefixed(s, i)
    requires Whole(s, i, m) && (forall other: nat :: Whole(s, i, other) ==> other == m) && !PointAt(s, i, m)
    ensures Number(rules, s, i) == Took(Token(Integer), end) <==> IntegerForm(rules, s, i, end)
    ensures Number(rules, s, i) != Took(Token(Kind.Float), end) && !FloatForm(rules, s, i, end)
  {
    NumberByPoint(rules, s, i, m, HexPrefix(s, i), prefixed);
    NameBehindDigits(s, i);
    RunIsEnd(s, i, end, IsName, Name);
  }

  /** The reading of a number with a point, given whether its fraction is one. */
  lemma FloatReads(rules: Rules, s: string, i: nat, m: nat, prefixed: bool, fraction: bool, end: nat)
    requires i < |s| && Digit(s[i]) && m == End(s, i, if prefixed then Name else Decimal) && prefixed == Prefixed(s, i)
    requires PointAt(s, i, m) && fraction == FractionRead(s, i, m + 1, end)
    ensures Number(rules, s, i) == Took(Token(Kind.Float), end) <==> fraction && EndsFloat(rules, s, i, end)
  {
    NumberByPoint(rules, s, i, m, HexPrefix(s, i), prefixed);
    if !prefixed {
      DecimalFloatReads(rules, s, i, m, end);
    } else if HexPrefix(s, i) {
      HexFloatReads(rules, s, i, m, end);
    }
  }

  lemma FloatExactly(rules: Rules, s: string, i: nat, m: nat, prefixed: bool, end: nat)
    requires i < |s| && Digit(s[i]) && m == End(s, i, if prefixed then Name else Decimal) && prefixed == Prefixed(s, i)
    requires PointAt(s, i, m)
    ensures Number(rules, s, i) == Took(Token(Kind.Float), end) <==> FloatForm(rules, s, i, end)
  {
    var fraction := FractionRead(s, i, m + 1, end);
    FloatReads(rules, s, i, m, prefixed, fraction, end);
    FloatByPoint(rules, s, i, m, end, fraction);
  }

  lemma FloatNoInteger(rules: Rules, s: string, i: nat, m: nat, prefixed: bool, end: nat)
    requires i < |s| && Digit(s[i]) && m == End(s, i, if prefixed then Name else Decimal) && prefixed == Prefixed(s, i)
    requires (forall other: nat :: Whole(s, i, other) ==> other == m) && PointAt(s, i, m)
    ensures Number(rules, s, i) != Took(Token(Integer), end) && !IntegerForm(rules, s, i, end)
  {
    NumberByPoint(rules, s, i, m, HexPrefix(s, i), prefixed);
  }

  lemma FloatByPoint(rules: Rules, s: string, i: nat, m: nat, end: nat, fraction: bool)
    requires i < |s| && m == End(s, i, if Prefixed(s, i) then Name else Decimal)
    requires PointAt(s, i, m) && fraction == FractionRead(s, i, m + 1, end)
    ensures FloatForm(rules, s, i, end) <==> fraction && EndsFloat(rules, s, i, end)
  {
    OneWhole(s, i, m);
    FractionExactly(s, i, m + 1, end);
  }

  lemma NumberExactly(rules: Rules, s: string, i: nat, kind: Kind, end: nat)
    requires i < |s| && Digit(s[i]) && (kind == Integer || kind == Kind.Float)
    ensures Number(rules, s, i) == Took(Token(kind), end) <==> TokenForm(rules, s, i, kind, end)
  {
    var m := End(s, i, if Prefixed(s, i) then Name else Decimal);
    OneWhole(s, i, m);
    if PointAt(s, i, m) {
      FloatExactly(rules, s, i, m, Prefixed(s, i), end);
      FloatNoInteger(rules, s, i, m, Prefixed(s, i), end);
    } else {
      IntegerExactly(rules, s, i, m, Prefixed(s, i), end);
    }
  }

  // ------------------------------------------------------------------
  // Everything

  lemma SignExactly(rules: Rules, s: string, i: nat, end: nat)
    requires Usable(rules) && LongestFirst(rules.signs) && i < |s|
    ensures FirstSign(rules.signs, s, i).Some? && end == i + |FirstSign(rules.signs, s, i).value|
       <==> SignForm(rules, s, i, end)
  {
    FirstSignMatches(rules.signs, s, i);
    var w := FirstSign(rules.signs, s, i);
    if w.Some? {
      LongestSign(rules.signs, s, i);
      assert s[i..i + |w.value|] == w.value;
    }
    if SignForm(rules, s, i, end) {
      var v := s[i..end];
      assert StartsAt(s, v, i) && HasAt(s, i, v);
      assert HasAt(s, i, w.value);
    }
  }

  lemma WordExactly(rules: Rules, s: string, i: nat, kind: Kind, end: nat)
    requires i < |s| && (Lower(s[i]) || s[i] == '_')
    ensures WordAt(rules, s, i) == Took(Token(kind), end)
       <==> (kind == Word || kind == Sign) && TokenForm(rules, s, i, kind, end)
  {
    RunIsEnd(s, i, end, IsWordByte, WordByte);
  }

  /** How each form begins. */
  lemma FormBegins(rules: Rules, s: string, i: nat, part: Part, end: nat)
    requires i < |s| && Form(rules, s, i, part, end)
    ensures match part
            case Space => Whitespace(s[i])
            case Comment => s[i] == '-' && StartsAt(s, "--", i)
            case Token(Integer) => Digit(s[i])
            case Token(Float) => Digit(s[i])
            case Token(Word) => Lower(s[i]) || s[i] == '_'
            case Token(RawLiteral) => s[i] == '\"' && End(s, i, Quote) - i >= 3
            case Token(TextLiteral) => s[i] == '\"' && End(s, i, Quote) - i < 3
            case Token(CharacterLiteral) => s[i] == '\''
            case Token(Sign) => Lower(s[i]) || s[i] == '_' || SignStarts(s, i)
  {
    SameClasses(s[i]);
    HyphensHere(s, i);
    QuoteRun(s, i, 0);
    if part == Token(RawLiteral) {
      var q: nat :| RawForm(rules, s, i, q, end);
      QuoteRun(s, i, q);
    }
  }

  lemma HyphensHere(s: string, i: nat)
    requires i < |s|
    ensures HasAt(s, i, "--") == StartsAt(s, "--", i) && (StartsAt(s, "--", i) ==> s[i] == '-')
  {
    if StartsAt(s, "--", i) {
      assert s[i..i + 2][0] == '-';
    }
  }

  /** What the scanner takes stands there. */
  lemma TakenHasForm(rules: Rules, s: string, i: nat, part: Part, end: nat)
    requires Usable(rules) && LongestFirst(rules.signs) && i < |s| && Lex(rules, s, i) == Took(part, end)
    ensures Form(rules, s, i, part, end)
  {
    SameClasses(s[i]);
    HyphensHere(s, i);
    QuoteRun(s, i, 0);
    assert s[i..i + 1] == [s[i]];
    if Whitespace(s[i]) {
    } else if StartsAt(s, "--", i) {
      CommentExactly(s, i, end);
    } else if Digit(s[i]) {
      NumberExactly(rules, s, i, part.kind, end);
    } else if Lower(s[i]) || s[i] == '_' {
      WordExactly(rules, s, i, part.kind, end);
    } else if s[i] == '\"' || s[i] == '\'' {
      TakenQuoted(rules, s, i, part, end);
    } else {
      SignExactly(rules, s, i, end);
    }
  }

  lemma TakenQuoted(rules: Rules, s: string, i: nat, part: Part, end: nat)
    requires i < |s| && (s[i] == '\"' || s[i] == '\'') && Lex(rules, s, i) == Took(part, end)
    requires !StartsAt(s, "--", i)
    ensures Form(rules, s, i, part, end)
  {
    QuoteRun(s, i, 0);
    if s[i] == '\'' {
      QuotedExactly(s, i, CharacterLiteral, '\'', rules.character, UnclosedCharacter, BadCharacter, end);
    } else if End(s, i, Quote) - i >= 3 {
      RawFormExactly(rules, s, i, End(s, i, Quote), end);
    } else {
      QuotedExactly(s, i, TextLiteral, '\"', rules.text, UnclosedText, BadText, end);
    }
  }

  /** And what stands there it takes. */
  lemma FormIsTaken(rules: Rules, s: string, i: nat, part: Part, end: nat)
    requires Usable(rules) && LongestFirst(rules.signs) && i < |s| && Form(rules, s, i, part, end)
    ensures Lex(rules, s, i) == Took(part, end)
  {
    SameClasses(s[i]);
    HyphensHere(s, i);
    FormBegins(rules, s, i, part, end);
    match part
    case Space => assert s[i..i + 1] == [s[i]];
    case Comment => CommentExactly(s, i, end);
    case Token(kind) =>
      if kind == Integer || kind == Kind.Float {
        NumberExactly(rules, s, i, kind, end);
      } else if kind == Word || (kind == Sign && (Lower(s[i]) || s[i] == '_')) {
        WordExactly(rules, s, i, kind, end);
      } else if kind == Sign {
        SignExactly(rules, s, i, end);
      } else {
        QuotedIsTaken(rules, s, i, kind, end);
      }
  }

  lemma QuotedIsTaken(rules: Rules, s: string, i: nat, kind: Kind, end: nat)
    requires i < |s| && (kind == RawLiteral || kind == TextLiteral || kind == CharacterLiteral)
    requires TokenForm(rules, s, i, kind, end)
    ensures Lex(rules, s, i) == Took(Token(kind), end)
  {
    FormBegins(rules, s, i, Token(kind), end);
    HyphensHere(s, i);
    if kind == RawLiteral {
      RawFormExactly(rules, s, i, End(s, i, Quote), end);
    } else if kind == TextLiteral {
      QuotedExactly(s, i, TextLiteral, '\"', rules.text, UnclosedText, BadText, end);
    } else {
      QuotedExactly(s, i, CharacterLiteral, '\'', rules.character, UnclosedCharacter, BadCharacter, end);
    }
  }

  // ------------------------------------------------------------------
  // Whole sources

  /** The lexemes follow one another from a place to the end, each what stands there. */
  ghost predicate Tiled(rules: Rules, s: string, i: nat, lexemes: seq<Lexeme>)
    decreases |lexemes|
  {
    if lexemes == [] then i == |s|
    else
      && i < |s| && lexemes[0].first == i && i < lexemes[0].end <= |s|
      && Form(rules, s, i, lexemes[0].part, lexemes[0].end)
      && Tiled(rules, s, lexemes[0].end, lexemes[1..])
  }

  /** A source is accepted as these lexemes if and only if it is tiled by them. */
  lemma {:induction false} AcceptsExactly(rules: Rules, s: string, i: nat, lexemes: seq<Lexeme>)
    requires Usable(rules) && LongestFirst(rules.signs) && i <= |s|
    ensures Lexemes(rules, s, i) == Ok(lexemes) <==> Tiled(rules, s, i, lexemes)
    decreases |s| - i
  {
    if i < |s| {
      LexTakes(rules, s, i);
      var l := Lex(rules, s, i);
      if l.Took? {
        TakenHasForm(rules, s, i, l.part, l.end);
        if lexemes != [] {
          AcceptsExactly(rules, s, l.end, lexemes[1..]);
          assert lexemes == [lexemes[0]] + lexemes[1..];
        }
        if Lexemes(rules, s, l.end).Ok? {
          assert ([Lexeme(l.part, i, l.end)] + Lexemes(rules, s, l.end).value)[1..] == Lexemes(rules, s, l.end).value;
        }
      }
      if lexemes != [] && Tiled(rules, s, i, lexemes) {
        FormIsTaken(rules, s, i, lexemes[0].part, lexemes[0].end);
      }
    }
  }

  // ------------------------------------------------------------------
  // Kinds by spelling

  /** So many quotes. */
  function Quotation(q: nat): string {
    seq(q, k => '\"')
  }

  /** What a token's spelling is, of each kind. */
  ghost predicate Spells(rules: Rules, kind: Kind, spelling: string) {
    spelling != "" &&
    match kind
    case Integer => IsDigit(spelling[0]) && '.' !in spelling && rules.spells("integer", spelling)
    case Float => IsDigit(spelling[0]) && '.' in spelling && rules.spells("float", spelling)
    case Word =>
      && (IsLower(spelling[0]) || spelling[0] == '_') && spelling != "_"
      && (rules.spells("keyword", spelling) || rules.spells("identifier", spelling))
    case RawLiteral =>
      exists q: nat, content :: q >= 3 && spelling == Quotation(q) + content + Quotation(q) && rules.raw(content)
    case TextLiteral =>
      && |spelling| > 1 && spelling[0] == '\"' && spelling[|spelling| - 1] == '\"'
      && rules.text(spelling[1..|spelling| - 1])
    case CharacterLiteral =>
      && |spelling| > 1 && spelling[0] == '\'' && spelling[|spelling| - 1] == '\''
      && rules.character(spelling[1..|spelling| - 1])
    case Sign => spelling == "_" || spelling in rules.signs
  }

  lemma FormSpells(rules: Rules, s: string, i: nat, kind: Kind, end: nat)
    requires i < |s| && i < end <= |s| && TokenForm(rules, s, i, kind, end)
    ensures Spells(rules, kind, s[i..end])
  {
    var spelling := s[i..end];
    assert spelling[0] == s[i];
    match kind
    case Integer =>
      assert forall k :: 0 <= k < |spelling| ==> spelling[k] == s[i + k] && IsName(spelling[k]);
    case Float => PointIsSpelled(rules, s, i, end);
    case RawLiteral =>
      var q: nat :| RawForm(rules, s, i, q, end);
      RawSpells(rules, s, i, q, end);
    case TextLiteral => InnerSlice(s, i, end);
    case CharacterLiteral => InnerSlice(s, i, end);
    case _ =>
  }

  lemma InnerSlice(s: string, i: nat, end: nat)
    requires i + 2 <= end <= |s|
    ensures var spelling := s[i..end];
            spelling[1..|spelling| - 1] == s[i + 1..end - 1] && spelling[|spelling| - 1] == s[end - 1]
  {
    var spelling := s[i..end];
    var inner, between := spelling[1..|spelling| - 1], s[i + 1..end - 1];
    forall k | 0 <= k < |inner|
      ensures inner[k] == between[k]
    {
      assert spelling[k + 1] == s[i + 1 + k];
    }
    assert inner == between;
  }

  lemma PointIsSpelled(rules: Rules, s: string, i: nat, end: nat)
    requires i < end <= |s| && FloatForm(rules, s, i, end)
    ensures '.' in s[i..end]
  {
    var m: nat :| Whole(s, i, m) && PointAt(s, i, m) && FractionForm(s, i, m + 1, end);
    FractionEnds(s, i, m + 1, end);
    assert s[i..end][m - i] == '.';
  }

  lemma FractionEnds(s: string, i: nat, f: nat, end: nat)
    requires FractionForm(s, i, f, end)
    ensures f <= end
  {
  }

  lemma RawSpells(rules: Rules, s: string, i: nat, q: nat, end: nat)
    requires i < end <= |s| && RawForm(rules, s, i, q, end)
    ensures Spells(rules, RawLiteral, s[i..end])
  {
    var close: nat :| i + q <= close && QuotesAt(s, close, q) && end == close + q && rules.raw(s[i + q..close]);
    var content := s[i + q..close];
    QuotationAt(s, i, q);
    QuotationAt(s, close, q);
    assert s[i..end] == s[i..i + q] + content + s[close..end];
  }

  lemma QuotationAt(s: string, i: nat, q: nat)
    requires QuotesAt(s, i, q)
    ensures s[i..i + q] == Quotation(q)
  {
  }

  lemma {:induction false} TiledSpell(rules: Rules, s: string, i: nat, lexemes: seq<Lexeme>)
    requires Tiled(rules, s, i, lexemes)
    ensures forall t :: t in Tokens(s, lexemes) ==> Spells(rules, t.kind, t.spelling)
    decreases |lexemes|
  {
    if lexemes != [] {
      TiledSpell(rules, s, lexemes[0].end, lexemes[1..]);
      if lexemes[0].part.Token? {
        FormSpells(rules, s, i, lexemes[0].part.kind, lexemes[0].end);
      }
    }
  }

  /** Every token of an accepted source is spelled as its kind is: a number with a point
      is a float and one without an integer. */
  lemma KindsBySpelling(rules: Rules, s: string)
    requires Usable(rules) && LongestFirst(rules.signs) && TokensFrom(rules, s, 0).Ok?
    ensures forall t :: t in TokensFrom(rules, s, 0).value ==> Spells(rules, t.kind, t.spelling)
  {
    var lexemes := Lexemes(rules, s, 0).value;
    AcceptsExactly(rules, s, 0, lexemes);
    TiledSpell(rules, s, 0, lexemes);
  }
}
