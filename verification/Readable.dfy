/** Which trees a production's right-hand side can read as: a printer of words, and
    the trees that some words of the notation spell. */
module Readability {
  import opened Characters
  import opened Notations

  // ------------------------------------------------------------------
  // The words of the notation

  const SCALAR_WORD := SCALAR + " except apostrophe, backslash or line_end"

  predicate Letters(s: string) {
    forall i :: 0 <= i < |s| ==> Lower(s[i]) || s[i] == '_'
  }

  const EXCEPT := " except "

  /** What may stand behind the bytes meant: nothing, or a rule they are not of. */
  predicate ExceptPart(s: string) {
    s == "" || (StartsWith(s, EXCEPT) && |s| > |EXCEPT| && Letters(s[|EXCEPT|..]))
  }

  /** Two beginnings the bytes do not have, quoted. */
  predicate NeitherPart(s: string, a: string, b: string) {
    '\"' !in a && '\"' !in b && s == " that begins neither \"" + a + "\" nor \"" + b + "\""
  }

  /** A word for bytes, with its exceptions. */
  ghost predicate ByteWord(word: string) {
    StartsWith(word, BYTE) && (ExceptPart(word[|BYTE|..]) || exists k :: NeitherTo(word, k) && ExceptPart(word[k..]))
  }

  ghost predicate NeitherTo(word: string, k: int) {
    |BYTE| <= k <= |word| && exists a, b :: NeitherPart(word[|BYTE|..k], a, b)
  }

  predicate Punctuation(word: string) {
    word == "(" || word == ")" || word == "|" || IsOperator(word)
  }

  /** What the notation's expression for one word matches. */
  ghost predicate IsNotationWord(word: string) {
    || IsQuotedWord(word) || word == SCALAR_WORD || word == TEXT_BYTE || ByteWord(word)
    || word == "..." || (word != "" && Letters(word)) || Punctuation(word)
  }

  ghost predicate NotationWords(words: seq<string>) {
    forall i :: 0 <= i < |words| ==> IsNotationWord(words[i])
  }

  // The upper end of a range is whatever word stands there, without its first and
  // last character.

  ghost predicate Upper(high: string) {
    IsNotationWord(UpperWord(high))
  }

  ghost function UpperWord(high: string): string {
    if QuotedBody(high) then "\"" + high + "\""
    else if ByteWord("a" + high + "\"") then "a" + high + "\""
    else "a" + high + "e"
  }

  lemma {:induction false} PlainIsBody(s: string)
    requires '\"' !in s && '\\' !in s
    ensures QuotedBody(s)
    decreases |s|
  {
    if s != "" {
      assert s[0] in s;
      PlainIsBody(s[1..]);
    }
  }

  ghost predicate Plain(s: string) {
    '\"' !in s && '\\' !in s
  }

  lemma InnerIsBody(word: string)
    requires Plain(word)
    ensures QuotedBody(Inner(word))
  {
    PlainIsBody(Inner(word));
  }

  lemma LettersArePlain(s: string)
    requires Letters(s)
    ensures Plain(s)
  {
  }

  lemma PlainWords()
    ensures Plain(BYTE) && Plain(TEXT_BYTE) && Plain(SCALAR_WORD) && Plain(EXCEPT)
  {
    PlainPhrases();
    PlainByteTail();
    PlainScalarTail();
    PlainJoin(BYTE, " except quote, backslash or line_end");
    PlainJoin(SCALAR, " except apostrophe, backslash or line_end");
  }

  lemma PlainJoin(a: string, b: string)
    requires Plain(a) && Plain(b)
    ensures Plain(a + b)
  {
  }

  lemma PlainPhrases()
    ensures Plain(BYTE) && Plain(SCALAR) && Plain(EXCEPT)
  {
  }

  lemma PlainByteTail()
    ensures Plain(" except quote, backslash or line_end")
  {
  }

  lemma PlainScalarTail()
    ensures Plain(" except apostrophe, backslash or line_end")
  {
  }

  lemma ExceptIsPlain(s: string)
    requires ExceptPart(s)
    ensures Plain(s)
  {
    PlainWords();
    if s != "" {
      LettersArePlain(s[|EXCEPT|..]);
      assert s == EXCEPT + s[|EXCEPT|..];
    }
  }

  /** The last letter of an exception may be any. */
  lemma ExceptLastLetter(s: string)
    requires ExceptPart(s) && s != ""
    ensures ExceptPart(s[..|s| - 1] + "e")
  {
    var t, k := s[..|s| - 1] + "e", |EXCEPT|;
    assert t[..k] == s[..k];
    forall i | 0 <= i < |t[k..]|
      ensures Lower(t[k..][i]) || t[k..][i] == '_'
    {
      assert i < |s| - 1 - k ==> t[k..][i] == s[k..][i];
    }
  }

  lemma ByteWordUpper(word: string)
    requires ByteWord(word)
    ensures Upper(Inner(word))
  {
    var high := Inner(word);
    assert word[..|BYTE|] == BYTE;
    if ExceptPart(word[|BYTE|..]) {
      PlainWords();
      ExceptIsPlain(word[|BYTE|..]);
      assert word == BYTE + word[|BYTE|..];
      InnerIsBody(word);
      BodyIsQuoted(high);
    } else {
      var k :| NeitherTo(word, k) && ExceptPart(word[k..]);
      NeitherUpper(word, k);
    }
  }

  lemma BodyIsQuoted(s: string)
    requires QuotedBody(s)
    ensures IsQuotedWord("\"" + s + "\"") && Inner("\"" + s + "\"") == s
  {
  }

  lemma NeitherUpper(word: string, k: nat)
    requires StartsWith(word, BYTE) && NeitherTo(word, k) && ExceptPart(word[k..])
    ensures Upper(Inner(word))
  {
    var high, n := Inner(word), |word|;
    var a, b :| NeitherPart(word[|BYTE|..k], a, b);
    assert word[0] == 'a' by { assert word[..|BYTE|][0] == word[0]; }
    assert word[..n - 1] == "a" + high;
    if word[k..] == "" {
      assert word[|BYTE|..k][k - |BYTE| - 1] == '\"';
      assert word == "a" + high + "\"";
    } else {
      LastLetterIsAny(word, "a" + high + "e", k);
    }
    if QuotedBody(high) {
      BodyIsQuoted(high);
    }
  }

  lemma LastLetterIsAny(word: string, t: string, k: nat)
    requires StartsWith(word, BYTE) && NeitherTo(word, k) && ExceptPart(word[k..]) && word[k..] != ""
    requires |t| == |word| && t[..|t| - 1] == word[..|t| - 1] && t[|t| - 1] == 'e'
    ensures ByteWord(t)
  {
    var a, b :| NeitherPart(word[|BYTE|..k], a, b);
    ExceptLastLetter(word[k..]);
    assert t[k..] == word[k..][..|word[k..]| - 1] + "e";
    assert t[..k] == t[..|t| - 1][..k] == word[..k];
    assert t[|BYTE|..k] == t[..k][|BYTE|..] == word[|BYTE|..k];
    assert t[..|BYTE|] == t[..k][..|BYTE|];
    assert NeitherTo(t, k);
  }

  lemma WordUpper(word: string)
    requires IsNotationWord(word)
    ensures Upper(Inner(word))
  {
    if IsQuotedWord(word) {
      BodyIsQuoted(Inner(word));
    } else if ByteWord(word) {
      ByteWordUpper(word);
    } else {
      PlainWords();
      if Letters(word) {
        LettersArePlain(word);
      }
      InnerIsBody(word);
      BodyIsQuoted(Inner(word));
    }
  }

  lemma UpperExactly(high: string)
    ensures (exists word :: IsNotationWord(word) && Inner(word) == high) <==> Upper(high)
  {
    if word :| IsNotationWord(word) && Inner(word) == high {
      WordUpper(word);
    }
    if Upper(high) {
      assert Inner(UpperWord(high)) == high;
    }
  }

  // ------------------------------------------------------------------
  // A printer

  ghost function PrintItem(t: Tree): (words: seq<string>)
    ensures words != []
    decreases t, 2
  {
    match t
    case Post(op, body) => PrintItem(body) + [op]
    case Alt(_) => ["("] + Print(t) + [")"]
    case Seq(_) => ["("] + Print(t) + [")"]
    case Range(low, high) => ["\"" + low + "\"", "...", UpperWord(high)]
    case Lit(text) => [Quoted(text)]
    case UnicodeScalar => [SCALAR_WORD]
    case TextByte => [TEXT_BYTE]
    case Byte => [BYTE]
    case Rule(name) => [name]
  }

  ghost function Print(t: Tree): seq<string>
    decreases t, 1
  {
    match t
    case Alt(arms) => PrintArms(arms)
    case Seq(items) => PrintItems(items)
    case _ => []
  }

  ghost function PrintItems(items: seq<Tree>): seq<string>
    decreases items, 0
  {
    if items == [] then [] else PrintItem(items[0]) + PrintItems(items[1..])
  }

  ghost function PrintArms(arms: seq<Tree>): seq<string>
    decreases arms, 0
  {
    if arms == [] then []
    else if |arms| == 1 then Print(arms[0])
    else Print(arms[0]) + ["|"] + PrintArms(arms[1..])
  }

  // ------------------------------------------------------------------
  // Normal form

  /** A rule's name is a name, or a sign that is read as one where nothing else can
      use it. */
  predicate RuleName(name: string) {
    (name != "" && Letters(name)) || name == "..." || IsOperator(name)
  }

  /** The first word of a tree's print. */
  ghost function Leading(t: Tree): string {
    PrintItem(t)[0]
  }

  /** `b` may stand behind `a`: an operator would be taken for one of `a`'s, and `...`
      behind a literal for a range, if any word at all follows it.  `last` says that
      none follows `b`. */
  ghost predicate Behind(a: Tree, b: Tree, last: bool) {
    !IsOperator(Leading(b)) && (a.Lit? && Leading(b) == "..." ==> last && b == Rule("..."))
  }

  /** Trees with words, at the end of the right-hand side or not. */
  ghost predicate Normal(t: Tree, last: bool)
    decreases t, 1
  {
    match t
    case Alt(arms) => |arms| > 1 && NormalArms(arms, last)
    case Seq(items) => items != [] && NormalItems(items, last)
    case _ => false
  }

  ghost predicate NormalArms(arms: seq<Tree>, last: bool)
    decreases arms, 0
  {
    arms != [] ==>
      arms[0].Seq? && Normal(arms[0], last && |arms| == 1) && NormalArms(arms[1..], last)
  }

  ghost predicate NormalItems(items: seq<Tree>, last: bool)
    decreases items, 0
  {
    items != [] ==>
      && NormalItem(items[0])
      && (|items| > 1 ==> Behind(items[0], items[1], last && |items| == 2))
      && NormalItems(items[1..], last)
  }

  ghost predicate NormalItem(t: Tree)
    decreases t, 2
  {
    match t
    case Post(op, body) => IsOperator(op) && NormalItem(body)
    case Lit(text) => Writable(text)
    case Range(low, high) => QuotedBody(low) && Upper(high)
    case Rule(name) => RuleName(name)
    case Alt(_) => Normal(t, false)
    case Seq(_) => Normal(t, false)
    case _ => true
  }

  // ------------------------------------------------------------------
  // What is printed is spelled

  /** The words of a part stand at a place in the whole. */
  ghost predicate StandsAt(words: seq<string>, part: seq<string>, lo: nat) {
    lo + |part| <= |words| && words[lo..lo + |part|] == part
  }

  lemma StandsBoth(words: seq<string>, a: seq<string>, b: seq<string>, lo: nat)
    requires StandsAt(words, a + b, lo)
    ensures StandsAt(words, a, lo) && StandsAt(words, b, lo + |a|)
  {
    var whole := words[lo..lo + |a + b|];
    assert whole[..|a|] == a && whole[|a|..] == b;
  }

  lemma StandsOne(words: seq<string>, part: seq<string>, lo: nat)
    requires StandsAt(words, part, lo) && part != []
    ensures words[lo] == part[0]
  {
    assert words[lo..lo + |part|][0] == part[0];
  }

  /** Quoted words and phrases are neither signs nor each other. */
  lemma NotSpecial(word: string)
    requires IsQuoted(word) || StartsWith(word, SCALAR) || StartsWith(word, BYTE)
    ensures word != "..." && !Punctuation(word)
    ensures IsQuoted(word) ==> !StartsWith(word, SCALAR) && !StartsWith(word, BYTE)
    ensures StartsWith(word, SCALAR) ==> !StartsWith(word, BYTE)
  {
    Prefixes(word);
    if IsQuoted(word) {
      PrefixAt(word, "\"", 0);
    }
    if StartsWith(word, SCALAR) {
      PrefixAt(word, SCALAR, 0);
    }
    if StartsWith(word, BYTE) {
      PrefixAt(word, BYTE, 0);
    }
  }

  lemma NamesAreNotSpecial(name: string)
    requires RuleName(name)
    ensures name != "(" && name != ")" && name != "|"
    ensures !IsQuoted(name) && !StartsWith(name, SCALAR) && !StartsWith(name, BYTE)
  {
    if IsQuoted(name) {
      PrefixAt(name, "\"", 0);
    }
    if StartsWith(name, SCALAR) {
      PrefixAt(name, SCALAR, 0);
      PrefixAt(name, SCALAR, 3);
    }
    if StartsWith(name, BYTE) {
      PrefixAt(name, BYTE, 0);
      PrefixAt(name, BYTE, 3);
    }
  }

  lemma {:induction false} ItemPrinted(words: seq<string>, t: Tree, lo: nat)
    requires NormalItem(t) && StandsAt(words, PrintItem(t), lo) && (t.Lit? ==> !RangeAt(words, lo))
    ensures SpellsItem(words, t, lo, lo + |PrintItem(t)|) && !Stops(words, lo) && words[lo] == Leading(t)
    decreases t, 2
  {
    StandsOne(words, PrintItem(t), lo);
    match t
    case Post(op, body) =>
      var inner := PrintItem(body);
      StandsBoth(words, inner, [op], lo);
      StandsOne(words, [op], lo + |inner|);
      if body.Lit? {
        assert |inner| == 1;
      }
      ItemPrinted(words, body, lo);
    case Range(low, high) => RangePrinted(words, low, high, lo);
    case Lit(text) => LiteralPrinted(text);
    case UnicodeScalar => PhrasesPrinted();
    case TextByte => PhrasesPrinted();
    case Byte => PhrasesPrinted();
    case Rule(name) => NamesAreNotSpecial(name);
    case Alt(_) => GroupPrinted(words, t, lo);
    case Seq(_) => GroupPrinted(words, t, lo);
  }

  lemma LiteralPrinted(text: string)
    requires Writable(text)
    ensures IsQuoted(Quoted(text)) && Unescape(Inner(Quoted(text))) == text && !Punctuation(Quoted(text))
  {
    WritableExactly(text);
    assert Quoted(text)[..1] == "\"";
    NotSpecial(Quoted(text));
  }

  lemma PhrasesPrinted()
    ensures StartsWith(SCALAR_WORD, SCALAR) && StartsWith(TEXT_BYTE, BYTE) && TEXT_BYTE != BYTE
    ensures !Punctuation(SCALAR_WORD) && !Punctuation(TEXT_BYTE) && !Punctuation(BYTE)
  {
    assert SCALAR_WORD[..|SCALAR|] == SCALAR;
    assert TEXT_BYTE[..|BYTE|] == BYTE;
    NotSpecial(SCALAR_WORD);
    NotSpecial(TEXT_BYTE);
    NotSpecial(BYTE);
  }

  lemma RangePrinted(words: seq<string>, low: string, high: string, lo: nat)
    requires NormalItem(Range(low, high)) && StandsAt(words, PrintItem(Range(low, high)), lo)
    ensures SpellsItem(words, Range(low, high), lo, lo + 3) && !Stops(words, lo)
  {
    var part := words[lo..lo + 3];
    assert words[lo] == part[0] && words[lo + 1] == part[1] && words[lo + 2] == part[2];
    assert part[0][..1] == "\"";
    NotSpecial(part[0]);
    assert Inner(UpperWord(high)) == high;
  }

  lemma {:induction false} GroupPrinted(words: seq<string>, t: Tree, lo: nat)
    requires (t.Alt? || t.Seq?) && Normal(t, false) && StandsAt(words, ["("] + Print(t) + [")"], lo)
    ensures SpellsGroup(words, t, lo, lo + |Print(t)| + 2)
    decreases t, 1
  {
    var inner := Print(t);
    StandsBoth(words, ["("] + inner, [")"], lo);
    StandsBoth(words, ["("], inner, lo);
    StandsOne(words, ["("], lo);
    StandsOne(words, [")"], lo + 1 + |inner|);
    BodyPrinted(words, t, lo + 1, false);
    BodyIsLong(t);
  }

  lemma BodyIsLong(t: Tree)
    requires Normal(t, false)
    ensures Print(t) != []
  {
  }

  lemma {:induction false} BodyPrinted(words: seq<string>, t: Tree, lo: nat, last: bool)
    requires Normal(t, last) && StandsAt(words, Print(t), lo)
    requires var hi := lo + |Print(t)|; Stops(words, hi) && (last ==> hi == |words|)
    ensures Spells(words, t, lo, lo + |Print(t)|)
    decreases t, 0
  {
    match t
    case Alt(arms) => ArmsPrinted(words, arms, lo, last);
    case Seq(items) => ItemsPrinted(words, items, lo, last);
  }

  lemma {:induction false} ArmPrinted(words: seq<string>, arm: Tree, lo: nat, last: bool)
    requires arm.Seq? && Normal(arm, last) && StandsAt(words, Print(arm), lo)
    requires var hi := lo + |Print(arm)|; Stops(words, hi) && (last ==> hi == |words|)
    ensures arm.items != [] && SpellsItems(words, arm.items, lo, lo + |Print(arm)|)
    decreases arm, 0
  {
    ItemsPrinted(words, arm.items, lo, last);
  }

  lemma {:induction false} FirstArmPrinted(words: seq<string>, arms: seq<Tree>, lo: nat, first: seq<string>,
                                           rest: seq<string>, last: bool)
    requires |arms| > 1 && NormalArms(arms, last) && first == Print(arms[0])
    requires StandsAt(words, first + ["|"] + rest, lo)
    ensures arms[0].items != [] && SpellsItems(words, arms[0].items, lo, lo + |first|)
    ensures IsWord(words, lo + |first|, "|") && StandsAt(words, rest, lo + |first| + 1)
    decreases arms, 0
  {
    BarStands(words, first, rest, lo);
    ArmPrinted(words, arms[0], lo, false);
  }

  lemma {:induction false} ArmsPrinted(words: seq<string>, arms: seq<Tree>, lo: nat, last: bool)
    requires arms != [] && NormalArms(arms, last) && StandsAt(words, PrintArms(arms), lo)
    requires var hi := lo + |PrintArms(arms)|; Stops(words, hi) && (last ==> hi == |words|)
    ensures SpellsArms(words, arms, lo, lo + |PrintArms(arms)|)
    decreases arms, 1
  {
    var first := Print(arms[0]);
    if |arms| == 1 {
      ArmPrinted(words, arms[0], lo, last);
    } else {
      var rest := PrintArms(arms[1..]);
      var bar := lo + |first|;
      FirstArmPrinted(words, arms, lo, first, rest, last);
      ArmsPrinted(words, arms[1..], bar + 1, last);
      ArmThenArms(words, arms, lo, bar, bar + 1 + |rest|);
    }
  }

  lemma BarStands(words: seq<string>, first: seq<string>, rest: seq<string>, lo: nat)
    requires StandsAt(words, first + ["|"] + rest, lo)
    ensures StandsAt(words, first, lo) && IsWord(words, lo + |first|, "|") && StandsAt(words, rest, lo + |first| + 1)
  {
    StandsBoth(words, first + ["|"], rest, lo);
    StandsBoth(words, first, ["|"], lo);
    StandsOne(words, ["|"], lo + |first|);
  }

  lemma ArmThenArms(words: seq<string>, arms: seq<Tree>, lo: nat, bar: nat, hi: nat)
    requires |arms| > 1 && arms[0].Seq? && arms[0].items != [] && lo <= bar < hi && IsWord(words, bar, "|")
    requires SpellsItems(words, arms[0].items, lo, bar) && SpellsArms(words, arms[1..], bar + 1, hi)
    ensures SpellsArms(words, arms, lo, hi)
  {
  }

  lemma {:induction false} ItemsPrinted(words: seq<string>, items: seq<Tree>, lo: nat, last: bool)
    requires NormalItems(items, last) && StandsAt(words, PrintItems(items), lo)
    requires var hi := lo + |PrintItems(items)|; Stops(words, hi) && (last ==> hi == |words|)
    ensures SpellsItems(words, items, lo, lo + |PrintItems(items)|)
    ensures items != [] ==> !Stops(words, lo) && words[lo] == Leading(items[0])
    decreases items, 1
  {
    if items != [] {
      var first, rest := PrintItem(items[0]), PrintItems(items[1..]);
      var mid := lo + |first|;
      StandsBoth(words, first, rest, lo);
      ItemsPrinted(words, items[1..], mid, last);
      NothingTaken(words, items, lo, mid, last);
      ItemPrinted(words, items[0], lo);
      ItemThenItems(words, items, lo, mid, mid + |rest|);
    }
  }

  /** No operator stands behind the first item, and no `...` that would make it a range. */
  lemma NothingTaken(words: seq<string>, items: seq<Tree>, lo: nat, mid: nat, last: bool)
    requires items != [] && NormalItems(items, last) && mid == lo + |PrintItem(items[0])|
    requires |items| == 1 ==> Stops(words, mid)
    requires |items| > 1 ==> !Stops(words, mid) && words[mid] == Leading(items[1])
    requires last ==> mid + |PrintItems(items[1..])| == |words|
    ensures !OperatorAt(words, mid) && (items[0].Lit? ==> !RangeAt(words, lo))
  {
    if |items| == 2 && items[1] == Rule("...") {
      assert PrintItems(items[1..]) == PrintItem(items[1]) + PrintItems(items[2..]);
    }
  }

  lemma ItemThenItems(words: seq<string>, items: seq<Tree>, lo: nat, mid: nat, hi: nat)
    requires items != [] && !Stops(words, lo) && SpellsItem(words, items[0], lo, mid) && !OperatorAt(words, mid)
    requires SpellsItems(words, items[1..], mid, hi)
    ensures SpellsItems(words, items, lo, hi)
  {
  }

  /** The parser undoes the printer on every tree in normal form. */
  lemma ParseUndoesPrint(t: Tree)
    requires Normal(t, true)
    ensures Parse(Print(t)) == Good(t, |Print(t)|)
  {
    var words := Print(t);
    assert words[0..0 + |words|] == words;
    BodyPrinted(words, t, 0, true);
    ParseIsExact(words, t);
  }

  // ------------------------------------------------------------------
  // What is printed are words of the notation

  lemma WordsJoin(a: seq<string>, b: seq<string>)
    requires NotationWords(a) && NotationWords(b)
    ensures NotationWords(a + b)
  {
  }

  lemma PhrasesAreWords()
    ensures ByteWord(BYTE) && IsNotationWord(BYTE) && IsNotationWord(SCALAR_WORD) && IsNotationWord(TEXT_BYTE)
  {
    assert BYTE[..|BYTE|] == BYTE && BYTE[|BYTE|..] == "";
  }

  lemma {:induction false} ItemIsWords(t: Tree)
    requires NormalItem(t)
    ensures NotationWords(PrintItem(t))
    decreases t, 2
  {
    match t
    case Post(op, body) =>
      ItemIsWords(body);
      WordsJoin(PrintItem(body), [op]);
    case Range(low, high) => BodyIsQuoted(low);
    case Lit(text) => WritableExactly(text);
    case UnicodeScalar => PhrasesAreWords();
    case TextByte => PhrasesAreWords();
    case Byte => PhrasesAreWords();
    case Rule(_) =>
    case Alt(_) => GroupIsWords(t);
    case Seq(_) => GroupIsWords(t);
  }

  lemma {:induction false} GroupIsWords(t: Tree)
    requires (t.Alt? || t.Seq?) && Normal(t, false)
    ensures NotationWords(PrintItem(t))
    decreases t, 1
  {
    BodyIsWords(t, false);
    WordsJoin(["("], Print(t));
    WordsJoin(["("] + Print(t), [")"]);
  }

  lemma {:induction false} BodyIsWords(t: Tree, last: bool)
    requires Normal(t, last)
    ensures NotationWords(Print(t))
    decreases t, 0
  {
    match t
    case Alt(arms) => ArmsAreWords(arms, last);
    case Seq(items) => ItemsAreWords(items, last);
  }

  lemma {:induction false} ArmsAreWords(arms: seq<Tree>, last: bool)
    requires NormalArms(arms, last)
    ensures NotationWords(PrintArms(arms))
    decreases arms, 0
  {
    if arms != [] {
      BodyIsWords(arms[0], last && |arms| == 1);
      if |arms| > 1 {
        ArmsAreWords(arms[1..], last);
        WordsJoin(Print(arms[0]), ["|"]);
        WordsJoin(Print(arms[0]) + ["|"], PrintArms(arms[1..]));
      }
    }
  }

  lemma {:induction false} ItemsAreWords(items: seq<Tree>, last: bool)
    requires NormalItems(items, last)
    ensures NotationWords(PrintItems(items))
    decreases items, 0
  {
    if items != [] {
      ItemIsWords(items[0]);
      ItemsAreWords(items[1..], last);
      WordsJoin(PrintItem(items[0]), PrintItems(items[1..]));
    }
  }

  // ------------------------------------------------------------------
  // What is spelled is in normal form

  /** The first word of what an item is spelled by is as special as that of its print. */
  lemma {:induction false} SpelledLeading(words: seq<string>, t: Tree, lo: nat, hi: nat)
    requires SpellsItem(words, t, lo, hi)
    ensures IsOperator(words[lo]) <==> IsOperator(Leading(t))
    ensures words[lo] == "..." <==> Leading(t) == "..."
    ensures words[lo] == "..." && hi == lo + 1 ==> t == Rule("...")
    decreases t
  {
    match t
    case Post(op, body) => SpelledLeading(words, body, lo, hi - 1);
    case Range(low, high) => QuotedLeads(words[lo], "\"" + low + "\"");
    case Lit(text) => QuotedLeads(words[lo], Quoted(text));
    case UnicodeScalar => PhraseLeads(words[lo]);
    case TextByte => PhraseLeads(words[lo]);
    case Byte => PhraseLeads(words[lo]);
    case Rule(_) =>
    case Alt(_) =>
    case Seq(_) =>
  }

  lemma QuotedLeads(word: string, printed: string)
    requires IsQuoted(word) && printed != "" && printed[0] == '\"'
    ensures !IsOperator(word) && word != "..." && !IsOperator(printed) && printed != "..."
  {
    PrefixAt(word, "\"", 0);
  }

  lemma PhraseLeads(word: string)
    requires StartsWith(word, SCALAR) || StartsWith(word, BYTE)
    ensures !IsOperator(word) && word != "..."
    ensures !IsOperator(SCALAR_WORD) && SCALAR_WORD != "..." && !IsOperator(TEXT_BYTE) && TEXT_BYTE != "..."
    ensures !IsOperator(BYTE) && BYTE != "..."
  {
    PhrasesPrinted();
    NotSpecial(word);
    NotSpecial(SCALAR_WORD);
    NotSpecial(TEXT_BYTE);
    NotSpecial(BYTE);
  }

  /** A word of the notation that names a rule. */
  lemma RuleIsNamed(word: string)
    requires IsNotationWord(word) && !IsQuoted(word) && !StartsWith(word, SCALAR) && !StartsWith(word, BYTE)
    requires word != "(" && word != ")" && word != "|"
    ensures RuleName(word)
  {
    PhrasesPrinted();
    QuotedWordIsQuoted(word);
  }

  lemma QuotedWordIsQuoted(word: string)
    ensures IsQuotedWord(word) ==> IsQuoted(word)
  {
    if IsQuotedWord(word) {
      assert word[..1] == "\"";
    }
  }

  lemma QuotedIsBody(word: string)
    requires IsNotationWord(word) && IsQuoted(word)
    ensures QuotedBody(Inner(word))
  {
    NotSpecial(word);
    PhrasesPrinted();
    PrefixAt(word, "\"", 0);
  }

  lemma {:induction false} SpelledItemIsNormal(words: seq<string>, t: Tree, lo: nat, hi: nat)
    requires NotationWords(words) && SpellsItem(words, t, lo, hi) && !Stops(words, lo)
    ensures NormalItem(t)
    decreases t, 2
  {
    match t
    case Post(_, body) => SpelledItemIsNormal(words, body, lo, hi - 1);
    case Lit(_) => UnescapedIsWritable(Inner(words[lo]));
    case Range(_, _) =>
      QuotedIsBody(words[lo]);
      WordUpper(words[lo + 2]);
    case Rule(name) => RuleIsNamed(name);
    case Alt(_) => SpelledIsNormal(words, t, lo + 1, hi - 1);
    case Seq(_) => SpelledIsNormal(words, t, lo + 1, hi - 1);
    case _ =>
  }

  lemma {:induction false} SpelledIsNormal(words: seq<string>, t: Tree, lo: nat, hi: nat)
    requires NotationWords(words) && Spells(words, t, lo, hi)
    ensures Normal(t, hi == |words|)
    decreases t, 1
  {
    match t
    case Alt(arms) => SpelledArmsAreNormal(words, arms, lo, hi);
    case Seq(items) => SpelledItemsAreNormal(words, items, lo, hi);
  }

  lemma {:induction false} SpelledArmsAreNormal(words: seq<string>, arms: seq<Tree>, lo: nat, hi: nat)
    requires NotationWords(words) && arms != [] && SpellsArms(words, arms, lo, hi)
    ensures NormalArms(arms, hi == |words|)
    decreases arms, 0
  {
    if |arms| == 1 {
      SpelledItemsAreNormal(words, arms[0].items, lo, hi);
    } else {
      var bar: nat :| lo <= bar < hi && IsWord(words, bar, "|") && SpellsItems(words, arms[0].items, lo, bar)
                      && SpellsArms(words, arms[1..], bar + 1, hi);
      SpelledItemsAreNormal(words, arms[0].items, lo, bar);
      SpelledArmsAreNormal(words, arms[1..], bar + 1, hi);
    }
  }

  lemma {:induction false} SpelledItemsAreNormal(words: seq<string>, items: seq<Tree>, lo: nat, hi: nat)
    requires NotationWords(words) && SpellsItems(words, items, lo, hi)
    ensures NormalItems(items, hi == |words|)
    decreases items, 0
  {
    if items != [] {
      var mid: nat :| SpellsItem(words, items[0], lo, mid) && !OperatorAt(words, mid)
                      && SpellsItems(words, items[1..], mid, hi);
      SpelledItemIsNormal(words, items[0], lo, mid);
      SpelledItemsAreNormal(words, items[1..], mid, hi);
      if |items| > 1 {
        SpelledBehind(words, items, lo, mid, hi);
      }
    }
  }

  lemma SpelledBehind(words: seq<string>, items: seq<Tree>, lo: nat, mid: nat, hi: nat)
    requires |items| > 1 && SpellsItem(words, items[0], lo, mid) && !OperatorAt(words, mid)
    requires SpellsItems(words, items[1..], mid, hi)
    ensures Behind(items[0], items[1], hi == |words| && |items| == 2)
  {
    var b, rest := items[1], items[1..][1..];
    assert rest == items[2..];
    var end: nat :| SpellsItem(words, b, mid, end) && SpellsItems(words, rest, end, hi);
    SpelledLeading(words, b, mid, end);
    if rest != [] {
      assert end < |words|;
    }
  }

  /** Some words of the notation read as a tree exactly when it is in normal form. */
  lemma ReadableExactly(t: Tree)
    ensures (exists words :: NotationWords(words) && Parse(words) == Good(t, |words|)) <==> Normal(t, true)
  {
    if words :| NotationWords(words) && Parse(words) == Good(t, |words|) {
      ParseIsExact(words, t);
      SpelledIsNormal(words, t, 0, |words|);
    }
    if Normal(t, true) {
      ParseUndoesPrint(t);
      BodyIsWords(t, true);
    }
  }
}
