/** Why a source is refused: each complaint of the tokeniser, said of the characters
    where it is made. */
module Complaints {
  import opened Options
  import opened Characters
  import opened Tokeniser
  import opened TokenForms

  /** A literal from its quote to the next one that no backslash takes. */
  ghost predicate Literal(s: string, i: nat, end: nat, quote: char) {
    i + 2 <= end <= |s| && s[end - 1] == quote && Content(s[i + 1..end - 1], quote)
  }

  /** A run of so many quotes opens a raw literal. */
  ghost predicate RawOpens(s: string, i: nat, q: nat) {
    q >= 3 && AllRun(s, i, i + q, c => c == '\"')
  }

  /** What stands at `i` begins with a digit, and a point follows its whole part at `m`. */
  ghost predicate Pointed(s: string, i: nat, m: nat)
    requires i < |s|
  {
    IsDigit(s[i]) && Whole(s, i, m) && PointAt(s, i, m)
  }

  ghost predicate NeverEnds(s: string, i: nat, quote: char) {
    forall end: nat :: !Literal(s, i, end, quote)
  }

  ghost predicate NeverCloses(s: string, i: nat) {
    forall end: nat :: !Closes(s, i, end)
  }

  ghost predicate NoExponentAt(s: string, i: nat) {
    forall end: nat :: !ExponentForm(s, i, end)
  }

  ghost predicate Explains(rules: Rules, s: string, i: nat, why: Complaint)
    requires i < |s|
  {
    match why
    case NoSpaceRule =>
      && (s[i] == ' ' || s[i] == '\t' || IsBreak(s[i]))
      && !rules.spells("space", [s[i]]) && !rules.spells("line_end", [s[i]])
    case UnclosedComment => HasAt(s, i, "--(") && NeverCloses(s, i + 3)
    case NotWord =>
      exists end: nat :: i < end && WordRun(s, i, end) && s[i..end] != "_"
                         && !rules.spells("keyword", s[i..end]) && !rules.spells("identifier", s[i..end])
    case UnclosedRaw => exists q: nat :: RawOpens(s, i, q) && forall k: nat :: i + q <= k ==> !QuotesAt(s, k, q)
    case BadRaw =>
      exists q: nat, close: nat :: RawOpens(s, i, q) && i + q <= close && QuotesAt(s, close, q)
                                   && !rules.raw(s[i + q..close])
    case UnclosedText => TextQuotes(s, i) && NeverEnds(s, i, '\"')
    case BadText =>
      TextQuotes(s, i) && exists end: nat :: Literal(s, i, end, '\"') && !rules.text(s[i + 1..end - 1])
    case UnclosedCharacter => s[i] == '\'' && NeverEnds(s, i, '\'')
    case BadCharacter =>
      s[i] == '\'' && exists end: nat :: Literal(s, i, end, '\'') && !rules.character(s[i + 1..end - 1])
    case NoRule => SignStarts(s, i) && forall w :: w in rules.signs ==> !HasAt(s, i, w)
    case NotInteger =>
      && IsDigit(s[i]) && (exists m: nat :: Whole(s, i, m) && !PointAt(s, i, m))
      && exists end: nat :: i < end && AllRun(s, i, end, IsName) && !rules.spells("integer", s[i..end])
    case BasePrefix => Prefixed(s, i) && !HexPrefix(s, i) && exists m: nat :: Pointed(s, i, m)
    case NoExponent =>
      HexPrefix(s, i) && exists m: nat, k: nat :: Pointed(s, i, m) && AllRun(s, m + 1, k, IsHex)
                                                  && (k == |s| || (s[k] != 'p' && s[k] != 'P'))
    case NoDigits =>
      exists m: nat, k: nat :: Pointed(s, i, m) && m < k < |s| && s[k] in "eEpP" && NoExponentAt(s, k + 1)
    case RunsOn => exists m: nat, end: nat :: Pointed(s, i, m) && m < end < |s| && IsName(s[end])
    case NotFloat =>
      exists m: nat, end: nat :: Pointed(s, i, m) && m < end <= |s| && (end < |s| ==> !IsName(s[end]))
                                 && !rules.spells("float", s[i..end])
  }

  // ------------------------------------------------------------------
  // Literals

  lemma EndIsThere(s: string, i: nat, quote: char)
    requires i < |s| && s[i] == quote && (quote == '\"' || quote == '\'')
    ensures match LiteralEnd(s, i + 1, quote)
            case None => NeverEnds(s, i, quote)
            case Some(end) => Literal(s, i, end, quote)
  {
    forall end: nat
      ensures LiteralEnd(s, i + 1, quote) == Some(end) <==> Literal(s, i, end, quote)
    {
      LiteralExactly(s, i + 1, quote, end);
    }
  }

  lemma QuotedExplained(s: string, i: nat, kind: Tokeniser.Kind, quote: char, fine: string -> bool, no: Complaint,
                        bad: Complaint)
    requires i < |s| && s[i] == quote && (quote == '\"' || quote == '\'') && no != bad
    ensures Quoted(s, i, kind, fine, no, bad) == Refused(no) ==> NeverEnds(s, i, quote)
    ensures Quoted(s, i, kind, fine, no, bad) == Refused(bad) ==>
              exists end: nat :: Literal(s, i, end, quote) && !fine(s[i + 1..end - 1])
  {
    EndIsThere(s, i, quote);
  }

  lemma RawExplained(rules: Rules, s: string, i: nat, begin: nat)
    requires i < |s| && begin == End(s, i, Quote) && begin - i >= 3
    ensures Raw(rules, s, i, begin) == Refused(UnclosedRaw) ==> Explains(rules, s, i, UnclosedRaw)
    ensures Raw(rules, s, i, begin) == Refused(BadRaw) ==> Explains(rules, s, i, BadRaw)
  {
    var q := begin - i;
    QuoteRun(s, i, q);
    assert RawOpens(s, i, q);
    match RawContent(s, begin, q)
    case None => NeverQuotes(s, begin, q);
    case Some(close) => RawExactly(s, begin, q, close);
  }

  lemma {:induction false} NoQuotesAt(s: string, i: nat, q: nat, k: nat)
    requires i <= |s| && q > 0 && RawContent(s, i, q) == None && i <= k
    ensures !QuotesAt(s, k, q)
    decreases k
  {
    forall j: nat | i <= j < k
      ensures !QuotesAt(s, j, q)
    {
      NoQuotesAt(s, i, q, j);
    }
    RawExactly(s, i, q, k);
  }

  lemma NeverQuotes(s: string, i: nat, q: nat)
    requires i <= |s| && q > 0 && RawContent(s, i, q) == None
    ensures forall k: nat :: i <= k ==> !QuotesAt(s, k, q)
  {
    forall k: nat | i <= k
      ensures !QuotesAt(s, k, q)
    {
      NoQuotesAt(s, i, q, k);
    }
  }

  // ------------------------------------------------------------------
  // Numbers

  lemma ExponentExplained(rules: Rules, s: string, i: nat, m: nat, k: nat, why: Complaint)
    requires i < m < k < |s| && Pointed(s, i, m) && s[k] in "eEpP" && Exponent(rules, s, i, k + 1) == Refused(why)
    ensures Explains(rules, s, i, why)
  {
    var next := k + 1;
    if why == NoDigits {
      forall end: nat
        ensures !ExponentForm(s, next, end)
      {
        var digits := if next < |s| && (s[next] == '+' || s[next] == '-') then next + 1 else next;
        RunIsEnd(s, digits, end, IsDecimal, Decimal);
      }
      assert NoExponentAt(s, k + 1);
    }
  }

  lemma HexFloatExplained(rules: Rules, s: string, i: nat, m: nat, why: Complaint)
    requires i < m < |s| && Pointed(s, i, m) && Prefixed(s, i)
    requires HexFloat(rules, s, i, m, HexPrefix(s, i)) == Refused(why)
    ensures Explains(rules, s, i, why)
  {
    var k := End(s, m + 1, Hex);
    OneRun(s, m + 1, IsHex, Hex);
    if HexPrefix(s, i) && k < |s| && (s[k] == 'p' || s[k] == 'P') {
      ExponentExplained(rules, s, i, m, k, why);
    }
  }

  lemma DecimalFloatExplained(rules: Rules, s: string, i: nat, m: nat, why: Complaint)
    requires i < m < |s| && Pointed(s, i, m) && DecimalFloat(rules, s, i, m) == Refused(why)
    ensures Explains(rules, s, i, why)
  {
    var k := End(s, m + 1, Decimal);
    if k < |s| && (s[k] == 'e' || s[k] == 'E') {
      ExponentExplained(rules, s, i, m, k, why);
    }
  }

  lemma NumberExplained(rules: Rules, s: string, i: nat, why: Complaint)
    requires i < |s| && Digit(s[i]) && Number(rules, s, i) == Refused(why)
    ensures Explains(rules, s, i, why)
  {
    var prefixed := Prefixed(s, i);
    var m := End(s, i, if prefixed then Name else Decimal);
    WholeExactly(s, i, m);
    NumberByPoint(rules, s, i, m, HexPrefix(s, i), prefixed);
    if PointAt(s, i, m) {
      if prefixed {
        HexFloatExplained(rules, s, i, m, why);
      } else {
        DecimalFloatExplained(rules, s, i, m, why);
      }
    } else {
      var end := if prefixed then m else End(s, m, Name);
      NameBehindDigits(s, i);
      RunIsEnd(s, i, end, IsName, Name);
    }
  }

  // ------------------------------------------------------------------
  // Anything

  lemma WordExplained(rules: Rules, s: string, i: nat, why: Complaint)
    requires i < |s| && (Lower(s[i]) || s[i] == '_') && WordAt(rules, s, i) == Refused(why)
    ensures Explains(rules, s, i, why)
  {
    RunIsEnd(s, i, End(s, i, WordByte), IsWordByte, WordByte);
  }

  lemma CommentExplained(rules: Rules, s: string, i: nat, why: Complaint)
    requires i < |s| && StartsAt(s, "--", i) && CommentAt(s, i) == Refused(why)
    ensures Explains(rules, s, i, why)
  {
    OpensOrCloses(s, i);
    var inside := i + 3;
    forall end: nat
      ensures !Closes(s, inside, end)
    {
      NestedCloses(s, inside, end);
    }
  }

  lemma SignExplained(rules: Rules, s: string, i: nat)
    requires i < |s| && FirstSign(rules.signs, s, i) == None && SignStarts(s, i)
    ensures Explains(rules, s, i, NoRule)
  {
    FirstSignMatches(rules.signs, s, i);
  }

  /** Whatever the tokeniser refuses, its complaint is true of what stands there. */
  lemma RefusedForCause(rules: Rules, s: string, i: nat, why: Complaint)
    requires i < |s| && Lex(rules, s, i) == Refused(why)
    ensures Explains(rules, s, i, why)
  {
    SameClasses(s[i]);
    HyphensHere(s, i);
    QuoteRun(s, i, 0);
    if Whitespace(s[i]) {
    } else if StartsAt(s, "--", i) {
      CommentExplained(rules, s, i, why);
    } else if Digit(s[i]) {
      NumberExplained(rules, s, i, why);
    } else if Lower(s[i]) || s[i] == '_' {
      WordExplained(rules, s, i, why);
    } else if s[i] == '\"' {
      if End(s, i, Quote) - i >= 3 {
        RawExplained(rules, s, i, End(s, i, Quote));
      } else {
        QuotedExplained(s, i, TextLiteral, '\"', rules.text, UnclosedText, BadText);
      }
    } else if s[i] == '\'' {
      QuotedExplained(s, i, CharacterLiteral, '\'', rules.character, UnclosedCharacter, BadCharacter);
    } else {
      SignExplained(rules, s, i);
    }
  }
  /** Lexemes follow one another from one place to another. */
  ghost predicate Reaches(rules: Rules, s: string, i: nat, j: nat)
    decreases |s| - i
  {
    i == j || (i < |s| && exists part: Part, end: nat :: i < end <= |s| && Form(rules, s, i, part, end)
                                                         && Reaches(rules, s, end, j))
  }

  /** The complaint about a source is about the first place where nothing fits: up to
      it there are lexemes. */
  lemma {:induction false} RefusedAt(rules: Rules, s: string, i: nat) returns (j: nat)
    requires Usable(rules) && LongestFirst(rules.signs) && i <= |s| && Lexemes(rules, s, i).Err?
    ensures j < |s| && Reaches(rules, s, i, j) && Lex(rules, s, j).Refused?
    ensures Explains(rules, s, j, Lexemes(rules, s, i).complaint)
    decreases |s| - i
  {
    LexTakes(rules, s, i);
    match Lex(rules, s, i)
    case Refused(why) =>
      j := i;
      RefusedForCause(rules, s, i, why);
    case Took(part, end) =>
      TakenHasForm(rules, s, i, part, end);
      j := RefusedAt(rules, s, end);
  }

  lemma SourceRefused(rules: Rules, s: string)
    requires Usable(rules) && LongestFirst(rules.signs) && TokensFrom(rules, s, 0).Err?
    ensures exists j: nat :: j < |s| && Reaches(rules, s, 0, j)
                             && Explains(rules, s, j, TokensFrom(rules, s, 0).complaint)
  {
    var j := RefusedAt(rules, s, 0);
  }
}
