/** The reader of one production's right-hand side: words into a tree.

    `Spells` says which words spell which tree and never mentions a parser.  The
    parser's methods are proved against functions of the words, and the functions
    against `Spells`, both ways. */
module Notations {

  import opened Characters

  datatype Tree =
    | Lit(text: string)
    | Range(low: string, high: string)
    | UnicodeScalar
    | TextByte
    | Byte
    | Rule(name: string)
    | Alt(arms: seq<Tree>)
    | Seq(items: seq<Tree>)
    | Post(op: string, body: Tree)

  datatype Complaint = Trailing | EmptyAlternative | UnclosedGroup

  datatype Read<+T> = Good(value: T, end: nat) | Bad(complaint: Complaint)

  // ------------------------------------------------------------------
  // Words

  predicate IsQuoted(word: string) {
    StartsWith(word, "\"")
  }

  predicate IsOperator(word: string) {
    word == "?" || word == "*" || word == "+"
  }

  /** Python's `word[1:-1]`. */
  function Inner(word: string): string {
    if |word| < 2 then "" else word[1..|word| - 1]
  }

  /** Python's `text.replace(written, byte)` for a two-character `written`. */
  function Replace(text: string, written: string, byte: char): string
    requires |written| == 2
  {
    if |text| < 2 then text
    else if text[..2] == written then [byte] + Replace(text[2..], written, byte)
    else [text[0]] + Replace(text[1..], written, byte)
  }

  function Unescape(text: string): string {
    Replace(Replace(Replace(Replace(Replace(text, "\\t", '\t'), "\\n", '\n'), "\\r", '\r'), "\\\"", '\"'), "\\\\", '\\')
  }

  const SCALAR := "any Unicode scalar"
  const BYTE := "any byte"
  const TEXT_BYTE := BYTE + " except quote, backslash or line_end"

  /** A word that ends a sequence. */
  predicate Stops(words: seq<string>, at: nat) {
    at >= |words| || words[at] == "|" || words[at] == ")"
  }

  predicate IsWord(words: seq<string>, at: nat, word: string) {
    at < |words| && words[at] == word
  }

  predicate OperatorAt(words: seq<string>, at: nat) {
    at < |words| && IsOperator(words[at])
  }

  /** A quoted word followed by `...` and another word begins a byte range. */
  predicate RangeAt(words: seq<string>, at: nat) {
    at + 2 < |words| && words[at + 1] == "..."
  }

  // ------------------------------------------------------------------
  // What spells what

  /** `words[lo..hi]` spells `t` as one item, operators included. */
  ghost predicate SpellsItem(words: seq<string>, t: Tree, lo: nat, hi: nat)
    decreases t, 2
  {
    lo < hi <= |words| &&
    match t
    case Post(op, body) => OperatorAt(words, hi - 1) && words[hi - 1] == op && SpellsItem(words, body, lo, hi - 1)
    case Alt(_) => SpellsGroup(words, t, lo, hi)
    case Seq(_) => SpellsGroup(words, t, lo, hi)
    case Range(low, high) =>
      hi == lo + 3 && IsQuoted(words[lo]) && words[lo + 1] == "..." && low == Inner(words[lo])
      && high == Inner(words[lo + 2])
    case Lit(text) => hi == lo + 1 && IsQuoted(words[lo]) && !RangeAt(words, lo) && text == Unescape(Inner(words[lo]))
    case UnicodeScalar => hi == lo + 1 && StartsWith(words[lo], SCALAR)
    case TextByte => hi == lo + 1 && words[lo] == TEXT_BYTE
    case Byte => hi == lo + 1 && StartsWith(words[lo], BYTE) && words[lo] != TEXT_BYTE
    case Rule(name) =>
      && hi == lo + 1 && words[lo] == name && name != "(" && !IsQuoted(name)
      && !StartsWith(name, SCALAR) && !StartsWith(name, BYTE)
  }

  ghost predicate SpellsGroup(words: seq<string>, t: Tree, lo: nat, hi: nat)
    decreases t, 1
  {
    lo + 1 < hi <= |words| && words[lo] == "(" && words[hi - 1] == ")" && Spells(words, t, lo + 1, hi - 1)
  }

  /** `words[lo..hi]` spells `t` as a whole right-hand side, or as what a group holds. */
  ghost predicate Spells(words: seq<string>, t: Tree, lo: nat, hi: nat)
    decreases t, 0
  {
    match t
    case Alt(arms) => |arms| > 1 && SpellsArms(words, arms, lo, hi)
    case Seq(items) => items != [] && SpellsItems(words, items, lo, hi)
    case _ => false
  }

  /** Arms with a `|` between them; each is a sequence. */
  ghost predicate SpellsArms(words: seq<string>, arms: seq<Tree>, lo: nat, hi: nat)
    requires arms != []
    decreases arms, 0
  {
    arms[0].Seq? && arms[0].items != [] &&
    if |arms| == 1 then SpellsItems(words, arms[0].items, lo, hi)
    else
      exists bar: nat :: lo <= bar < hi && IsWord(words, bar, "|") && SpellsItems(words, arms[0].items, lo, bar)
                         && SpellsArms(words, arms[1..], bar + 1, hi)
  }

  /** Items one after the other.  An operator belongs to the item before it. */
  ghost predicate SpellsItems(words: seq<string>, items: seq<Tree>, lo: nat, hi: nat)
    decreases items, 0
  {
    if items == [] then lo == hi
    else
      !Stops(words, lo) &&
      exists mid: nat :: SpellsItem(words, items[0], lo, mid) && !OperatorAt(words, mid)
                         && SpellsItems(words, items[1..], mid, hi)
  }

  // ------------------------------------------------------------------
  // What the parser computes

  function ParseAlternation(words: seq<string>, at: nat): (read: Read<Tree>)
    requires at <= |words|
    ensures read.Good? ==> at < read.end <= |words|
    decreases |words| - at, 5
  {
    match ParseArms(words, at)
    case Bad(complaint) => Bad(complaint)
    case Good(arms, end) => Good(if |arms| > 1 then Alt(arms) else arms[0], end)
  }

  function ParseArms(words: seq<string>, at: nat): (read: Read<seq<Tree>>)
    requires at <= |words|
    ensures read.Good? ==> at < read.end <= |words| && read.value != []
    decreases |words| - at, 4
  {
    match ParseSequence(words, at)
    case Bad(complaint) => Bad(complaint)
    case Good(first, end) =>
      if !IsWord(words, end, "|") then Good([first], end)
      else
        match ParseArms(words, end + 1)
        case Bad(complaint) => Bad(complaint)
        case Good(rest, last) => Good([first] + rest, last)
  }

  function ParseSequence(words: seq<string>, at: nat): (read: Read<Tree>)
    requires at <= |words|
    ensures read.Good? ==> at < read.end <= |words|
    decreases |words| - at, 3
  {
    match ParseItems(words, at)
    case Bad(complaint) => Bad(complaint)
    case Good(items, end) => if items == [] then Bad(EmptyAlternative) else Good(Seq(items), end)
  }

  function ParseItems(words: seq<string>, at: nat): (read: Read<seq<Tree>>)
    requires at <= |words|
    ensures read.Good? ==> at <= read.end <= |words| && (read.value != [] ==> at < read.end)
    decreases |words| - at, 2
  {
    if Stops(words, at) then Good([], at)
    else
      match ParseItem(words, at)
      case Bad(complaint) => Bad(complaint)
      case Good(first, end) =>
        match ParseItems(words, end)
        case Bad(complaint) => Bad(complaint)
        case Good(rest, last) => Good([first] + rest, last)
  }

  function ParseItem(words: seq<string>, at: nat): (read: Read<Tree>)
    requires at < |words|
    ensures read.Good? ==> at < read.end <= |words|
    decreases |words| - at, 1
  {
    match ParseAtom(words, at)
    case Bad(complaint) => Bad(complaint)
    case Good(atom, end) => Operators(words, end, atom)
  }

  function ParseAtom(words: seq<string>, at: nat): (read: Read<Tree>)
    requires at < |words|
    ensures read.Good? ==> at < read.end <= |words|
    decreases |words| - at, 0
  {
    var word := words[at];
    if word == "(" then
      match ParseAlternation(words, at + 1)
      case Bad(complaint) => Bad(complaint)
      case Good(atom, end) => if IsWord(words, end, ")") then Good(atom, end + 1) else Bad(UnclosedGroup)
    else if IsQuoted(word) then
      if RangeAt(words, at) then Good(Range(Inner(word), Inner(words[at + 2])), at + 3)
      else Good(Lit(Unescape(Inner(word))), at + 1)
    else if StartsWith(word, SCALAR) then Good(UnicodeScalar, at + 1)
    else if StartsWith(word, BYTE) then Good(if word == TEXT_BYTE then TextByte else Byte, at + 1)
    else Good(Rule(word), at + 1)
  }

  function Operators(words: seq<string>, at: nat, atom: Tree): (read: Read<Tree>)
    requires at <= |words|
    ensures read.Good? && at <= read.end <= |words|
    decreases |words| - at
  {
    if OperatorAt(words, at) then Operators(words, at + 1, Post(words[at], atom)) else Good(atom, at)
  }

  function Parse(words: seq<string>): Read<Tree> {
    match ParseAlternation(words, 0)
    case Bad(complaint) => Bad(complaint)
    case Good(tree, end) => if end == |words| then Good(tree, end) else Bad(Trailing)
  }

  // ------------------------------------------------------------------
  // Everything parsed is spelled by what was consumed

  lemma {:induction false} OperatorsSound(words: seq<string>, lo: nat, at: nat, atom: Tree)
    requires SpellsItem(words, atom, lo, at)
    ensures var read := Operators(words, at, atom);
            SpellsItem(words, read.value, lo, read.end) && !OperatorAt(words, read.end)
    decreases |words| - at
  {
    if OperatorAt(words, at) {
      OperatorsSound(words, lo, at + 1, Post(words[at], atom));
    }
  }

  lemma {:induction false} AlternationSound(words: seq<string>, at: nat)
    requires at <= |words| && ParseAlternation(words, at).Good?
    ensures var read := ParseAlternation(words, at); Spells(words, read.value, at, read.end)
    decreases |words| - at, 5
  {
    ArmsSound(words, at);
  }

  lemma {:induction false} ArmsSound(words: seq<string>, at: nat)
    requires at <= |words| && ParseArms(words, at).Good?
    ensures var read := ParseArms(words, at); SpellsArms(words, read.value, at, read.end)
    decreases |words| - at, 4
  {
    var first := ParseSequence(words, at);
    ItemsSound(words, at);
    if IsWord(words, first.end, "|") {
      ArmsSound(words, first.end + 1);
      var rest := ParseArms(words, first.end + 1);
      assert ([first.value] + rest.value)[1..] == rest.value;
    }
  }

  lemma {:induction false} ItemsSound(words: seq<string>, at: nat)
    requires at <= |words| && ParseItems(words, at).Good?
    ensures var read := ParseItems(words, at); SpellsItems(words, read.value, at, read.end) && Stops(words, read.end)
    decreases |words| - at, 2
  {
    if !Stops(words, at) {
      ItemSound(words, at);
      var first := ParseItem(words, at);
      ItemsSound(words, first.end);
      var rest := ParseItems(words, first.end);
      assert ([first.value] + rest.value)[1..] == rest.value;
    }
  }

  lemma {:induction false} ItemSound(words: seq<string>, at: nat)
    requires at < |words| && ParseItem(words, at).Good?
    ensures var read := ParseItem(words, at);
            SpellsItem(words, read.value, at, read.end) && !OperatorAt(words, read.end)
    decreases |words| - at, 1
  {
    if words[at] == "(" {
      AlternationSound(words, at + 1);
      var inside := ParseAlternation(words, at + 1);
      assert SpellsGroup(words, inside.value, at, inside.end + 1);
    }
    var atom := ParseAtom(words, at);
    assert SpellsItem(words, atom.value, at, atom.end);
    OperatorsSound(words, at, atom.end, atom.value);
  }

  // ------------------------------------------------------------------
  // Everything spelled is parsed

  lemma {:induction false} AlternationComplete(words: seq<string>, t: Tree, lo: nat, hi: nat)
    requires lo <= hi <= |words| && Spells(words, t, lo, hi) && Stops(words, hi) && !IsWord(words, hi, "|")
    ensures ParseAlternation(words, lo) == Good(t, hi)
    decreases t, 0
  {
    match t
    case Alt(arms) => ArmsComplete(words, arms, lo, hi);
    case Seq(items) =>
      ItemsComplete(words, items, lo, hi);
      assert ParseSequence(words, lo) == Good(t, hi);
  }

  lemma {:induction false} ArmsComplete(words: seq<string>, arms: seq<Tree>, lo: nat, hi: nat)
    requires lo <= hi <= |words| && arms != [] && SpellsArms(words, arms, lo, hi)
    requires Stops(words, hi) && !IsWord(words, hi, "|")
    ensures ParseArms(words, lo) == Good(arms, hi)
    decreases arms, 0
  {
    if |arms| == 1 {
      ItemsComplete(words, arms[0].items, lo, hi);
      assert arms == [arms[0]] && arms[0] == Seq(arms[0].items);
      assert ParseSequence(words, lo) == Good(arms[0], hi);
    } else {
      var bar: nat :| lo <= bar < hi && IsWord(words, bar, "|") && SpellsItems(words, arms[0].items, lo, bar)
                      && SpellsArms(words, arms[1..], bar + 1, hi);
      ItemsComplete(words, arms[0].items, lo, bar);
      assert ParseSequence(words, lo) == Good(arms[0], bar);
      ArmsComplete(words, arms[1..], bar + 1, hi);
      assert [arms[0]] + arms[1..] == arms;
    }
  }

  lemma {:induction false} ItemsComplete(words: seq<string>, items: seq<Tree>, lo: nat, hi: nat)
    requires lo <= hi <= |words| && SpellsItems(words, items, lo, hi) && Stops(words, hi)
    ensures ParseItems(words, lo) == Good(items, hi)
    decreases items, 0
  {
    if items != [] {
      var mid: nat :| SpellsItem(words, items[0], lo, mid) && !OperatorAt(words, mid)
                      && SpellsItems(words, items[1..], mid, hi);
      ItemsForward(words, items[1..], mid, hi);
      ItemComplete(words, items[0], lo, mid, items[0], mid);
      ItemsComplete(words, items[1..], mid, hi);
      assert [items[0]] + items[1..] == items;
    }
  }

  lemma {:induction false} ItemsForward(words: seq<string>, items: seq<Tree>, lo: nat, hi: nat)
    requires lo <= |words| && SpellsItems(words, items, lo, hi)
    ensures lo <= hi <= |words|
    decreases items
  {
    if items != [] {
      var mid: nat :| SpellsItem(words, items[0], lo, mid) && !OperatorAt(words, mid)
                      && SpellsItems(words, items[1..], mid, hi);
      ItemsForward(words, items[1..], mid, hi);
    }
  }

  /** Peel the operators off `t` down to its atom; `Operators` puts them back. */
  lemma {:induction false} ItemComplete(words: seq<string>, t: Tree, lo: nat, hi: nat, whole: Tree, end: nat)
    requires SpellsItem(words, t, lo, hi)
    requires hi <= end <= |words| && Operators(words, hi, t) == Good(whole, end)
    ensures ParseItem(words, lo) == Good(whole, end)
    decreases t, 2
  {
    match t
    case Post(op, body) => ItemComplete(words, body, lo, hi - 1, whole, end);
    case Alt(_) => AlternationComplete(words, t, lo + 1, hi - 1);
    case Seq(_) => AlternationComplete(words, t, lo + 1, hi - 1);
    case UnicodeScalar => Prefixes(words[lo]);
    case TextByte => Prefixes(words[lo]);
    case Byte => Prefixes(words[lo]);
    case Rule(_) =>
    case Lit(_) => Prefixes(words[lo]);
    case Range(_, _) => Prefixes(words[lo]);
  }

  /** The phrases begin with different letters from each other and from punctuation. */
  lemma Prefixes(word: string)
    ensures StartsWith(word, SCALAR) ==> word != "(" && !IsQuoted(word) && !StartsWith(word, BYTE)
    ensures StartsWith(word, BYTE) ==> word != "(" && !IsQuoted(word)
    ensures StartsWith(TEXT_BYTE, BYTE) && (IsQuoted(word) ==> word != "(")
  {
    if IsQuoted(word) {
      PrefixAt(word, "\"", 0);
    }
    if StartsWith(word, SCALAR) {
      PrefixAt(word, SCALAR, 0);
      PrefixAt(word, SCALAR, 4);
    }
    if StartsWith(word, BYTE) {
      PrefixAt(word, BYTE, 0);
      PrefixAt(word, BYTE, 4);
    }
  }

  lemma PrefixAt(word: string, prefix: string, i: nat)
    requires StartsWith(word, prefix) && i < |prefix|
    ensures word[i] == prefix[i]
  {
    assert word[..|prefix|][i] == word[i];
  }

  /** The reader is exact: it reads a tree from precisely the words that spell it,
      all of them, and complains precisely when no tree is spelled. */
  lemma ParseIsExact(words: seq<string>, t: Tree)
    ensures Parse(words) == Good(t, |words|) <==> Spells(words, t, 0, |words|)
  {
    if Parse(words) == Good(t, |words|) {
      AlternationSound(words, 0);
    }
    if Spells(words, t, 0, |words|) {
      AlternationComplete(words, t, 0, |words|);
    }
  }

  /** No words spell two trees. */
  lemma SpellingIsUnambiguous(words: seq<string>, a: Tree, b: Tree)
    requires Spells(words, a, 0, |words|) && Spells(words, b, 0, |words|)
    ensures a == b
  {
    ParseIsExact(words, a);
    ParseIsExact(words, b);
  }

  // ------------------------------------------------------------------
  // Escapes

  /** One character directly before another. */
  predicate Has(s: string, a: char, b: char) {
    |s| >= 2 && ((s[0] == a && s[1] == b) || Has(s[1..], a, b))
  }

  /** No backslash stands directly before a `t`, an `n` or an `r`. */
  predicate Writable(text: string) {
    !Has(text, '\\', 't') && !Has(text, '\\', 'n') && !Has(text, '\\', 'r')
  }

  /** A backslash before each backslash and each quote. */
  function Escape(text: string): string {
    if text == "" then ""
    else if text[0] == '\\' || text[0] == '\"' then ['\\', text[0]] + Escape(text[1..])
    else [text[0]] + Escape(text[1..])
  }

  function Doubled(text: string): string {
    if text == "" then ""
    else if text[0] == '\\' then ['\\', '\\'] + Doubled(text[1..])
    else [text[0]] + Doubled(text[1..])
  }

  /** What stands between the quotes of a quoted word. */
  predicate QuotedBody(s: string)
    decreases |s|
  {
    s == ""
    || (if s[0] == '\\' then |s| > 1 && s[1] != '\n' && QuotedBody(s[2..]) else s[0] != '\"' && QuotedBody(s[1..]))
  }

  predicate IsQuotedWord(word: string) {
    |word| >= 2 && word[0] == '\"' && word[|word| - 1] == '\"' && QuotedBody(Inner(word))
  }

  function Quoted(text: string): string {
    "\"" + Escape(text) + "\""
  }

  lemma WrittenFirst(s: string, x: char)
    requires |s| >= 2
    ensures s[..2] == ['\\', x] <==> s[0] == '\\' && s[1] == x
  {
  }

  lemma {:induction false} ReplaceRemoves(s: string, x: char, byte: char)
    requires byte != x && byte != '\\'
    ensures !Has(Replace(s, ['\\', x], byte), '\\', x)
    decreases |s|
  {
    if |s| >= 2 {
      WrittenFirst(s, x);
      if s[..2] == ['\\', x] {
        ReplaceRemoves(s[2..], x, byte);
        HasAfter(byte, Replace(s[2..], ['\\', x], byte), '\\', x);
      } else {
        ReplaceRemoves(s[1..], x, byte);
        ReplaceStarts(s[1..], x, byte);
        HasAfter(s[0], Replace(s[1..], ['\\', x], byte), '\\', x);
      }
    }
  }

  lemma HasAfter(c: char, rest: string, a: char, b: char)
    ensures Has([c] + rest, a, b) <==> (c == a && rest != "" && rest[0] == b) || Has(rest, a, b)
  {
    assert ([c] + rest)[1..] == rest;
  }

  /** What a replaced text begins with. */
  lemma ReplaceStarts(s: string, y: char, byte: char)
    ensures var r := Replace(s, ['\\', y], byte);
            (r == "" <==> s == "") && (r != "" ==> r[0] == byte || r[0] == s[0])
  {
  }

  lemma {:induction false} ReplaceKeepsOut(s: string, y: char, byte: char, x: char)
    requires byte != x && y != x && (byte == '\\' ==> y == '\\') && !Has(s, '\\', x)
    ensures !Has(Replace(s, ['\\', y], byte), '\\', x)
    decreases |s|
  {
    if |s| >= 2 {
      WrittenFirst(s, y);
      HasAfter(s[0], s[1..], '\\', x);
      assert [s[0]] + s[1..] == s;
      if s[..2] == ['\\', y] {
        HasAfter(s[1], s[2..], '\\', x);
        assert [s[1]] + s[2..] == s[1..];
        ReplaceKeepsOut(s[2..], y, byte, x);
        ReplaceStarts(s[2..], y, byte);
        HasAfter(byte, Replace(s[2..], ['\\', y], byte), '\\', x);
      } else {
        ReplaceKeepsOut(s[1..], y, byte, x);
        ReplaceStarts(s[1..], y, byte);
        HasAfter(s[0], Replace(s[1..], ['\\', y], byte), '\\', x);
      }
    }
  }

  /** Whatever is written, what is read has no backslash before those three. */
  lemma UnescapedIsWritable(written: string)
    ensures Writable(Unescape(written))
  {
    var t := Replace(written, "\\t", '\t');
    ReplaceRemoves(written, 't', '\t');
    var n := Replace(t, "\\n", '\n');
    ReplaceKeepsOut(t, 'n', '\n', 't');
    ReplaceRemoves(t, 'n', '\n');
    var r := Replace(n, "\\r", '\r');
    ReplaceKeepsOut(n, 'r', '\r', 't');
    ReplaceKeepsOut(n, 'r', '\r', 'n');
    ReplaceRemoves(n, 'r', '\r');
    QuotesAndBackslashesKeepOut(r, 't');
    QuotesAndBackslashesKeepOut(r, 'n');
    QuotesAndBackslashesKeepOut(r, 'r');
  }

  lemma QuotesAndBackslashesKeepOut(s: string, x: char)
    requires !Has(s, '\\', x) && x != '\"' && x != '\\'
    ensures !Has(Replace(Replace(s, "\\\"", '\"'), "\\\\", '\\'), '\\', x)
  {
    ReplaceKeepsOut(s, '\"', '\"', x);
    ReplaceKeepsOut(Replace(s, "\\\"", '\"'), '\\', '\\', x);
  }

  lemma {:induction false} ReplaceNothing(s: string, x: char, byte: char)
    requires !Has(s, '\\', x)
    ensures Replace(s, ['\\', x], byte) == s
  {
    if |s| >= 2 {
      WrittenFirst(s, x);
      ReplaceNothing(s[1..], x, byte);
    }
  }

  lemma {:induction false} EscapeKeepsOut(text: string, x: char)
    requires !Has(text, '\\', x) && x != '\"' && x != '\\'
    ensures !Has(Escape(text), '\\', x)
  {
    if text != "" {
      var c, rest := text[0], Escape(text[1..]);
      assert [c] + text[1..] == text;
      HasAfter(c, text[1..], '\\', x);
      EscapeKeepsOut(text[1..], x);
      HasAfter(c, rest, '\\', x);
      if c == '\\' || c == '\"' {
        HasAfter('\\', [c] + rest, '\\', x);
        assert ['\\'] + ([c] + rest) == ['\\', c] + rest;
      }
    }
  }

  lemma {:induction false} QuotesBack(text: string)
    ensures Replace(Escape(text), "\\\"", '\"') == Doubled(text)
  {
    if text != "" {
      var c, rest := text[0], Escape(text[1..]);
      QuotesBack(text[1..]);
      if c == '\\' {
        var pair := ['\\', c] + rest;
        assert pair[1..] == [c] + rest && ([c] + rest)[1..] == rest;
        WrittenFirst(pair, '\"');
        assert rest == "" || rest[0] != '\"';
        if rest != "" {
          WrittenFirst([c] + rest, '\"');
        }
      } else if c == '\"' {
        var pair := ['\\', c] + rest;
        assert pair[2..] == rest;
        WrittenFirst(pair, '\"');
      } else {
        assert ([c] + rest)[1..] == rest;
      }
    }
  }

  lemma {:induction false} BackslashesBack(text: string)
    ensures Replace(Doubled(text), "\\\\", '\\') == text
  {
    if text != "" {
      var c, rest := text[0], Doubled(text[1..]);
      BackslashesBack(text[1..]);
      assert [c] + text[1..] == text;
      if c == '\\' {
        assert (['\\', c] + rest)[2..] == rest;
        WrittenFirst(['\\', c] + rest, '\\');
      } else {
        assert ([c] + rest)[1..] == rest;
      }
    }
  }

  /** Reading undoes escaping. */
  lemma UnescapeUndoesEscape(text: string)
    requires Writable(text)
    ensures Unescape(Escape(text)) == text
  {
    var escaped := Escape(text);
    EscapeKeepsOut(text, 't');
    EscapeKeepsOut(text, 'n');
    EscapeKeepsOut(text, 'r');
    ReplaceNothing(escaped, 't', '\t');
    ReplaceNothing(escaped, 'n', '\n');
    ReplaceNothing(escaped, 'r', '\r');
    QuotesBack(text);
    BackslashesBack(text);
  }

  lemma {:induction false} EscapedIsBody(text: string)
    ensures QuotedBody(Escape(text))
  {
    if text != "" {
      var c, rest := text[0], Escape(text[1..]);
      EscapedIsBody(text[1..]);
      if c == '\\' || c == '\"' {
        assert (['\\', c] + rest)[2..] == rest;
      } else {
        assert ([c] + rest)[1..] == rest;
      }
    }
  }

  /** A literal has a quoted word exactly when no backslash in it stands directly
      before a `t`, an `n` or an `r`; the escaped text is one. */
  lemma WritableExactly(text: string)
    ensures (exists word :: IsQuotedWord(word) && Unescape(Inner(word)) == text) <==> Writable(text)
    ensures Writable(text) ==> IsQuotedWord(Quoted(text)) && Unescape(Inner(Quoted(text))) == text
  {
    if Writable(text) {
      var word := Quoted(text);
      assert Inner(word) == Escape(text);
      EscapedIsBody(text);
      UnescapeUndoesEscape(text);
    }
    if word :| IsQuotedWord(word) && Unescape(Inner(word)) == text {
      UnescapedIsWritable(Inner(word));
    }
  }

  /** A backslash and a `t`, escaped, is not read back: the second backslash and the
      `t` become a tab. */
  lemma DoubledBackslashIsLost()
    ensures Escape("\\t") == "\\\\t" && Unescape("\\\\t") == "\\\t"
    ensures !Writable("\\t")
  {
    var s := "\\\\t";
    assert s[1..] == "\\t" && "\\t"[1..] == "t" && "t"[1..] == "" && "\\t"[2..] == "";
    WrittenFirst(s, 't');
    WrittenFirst("\\t", 't');
    assert Replace(s, "\\t", '\t') == "\\\t";
    var tab := "\\\t";
    assert tab[1..] == "\t";
    ReplaceNothing(tab, 'n', '\n');
    ReplaceNothing(tab, 'r', '\r');
    ReplaceNothing(tab, '\"', '\"');
    ReplaceNothing(tab, '\\', '\\');
  }

  // ------------------------------------------------------------------
  // The parser itself

  class Notation {
    const words: seq<string>
    var at: nat

    constructor (words: seq<string>)
      ensures this.words == words && at == 0
    {
      this.words, at := words, 0;
    }

    method ParseAll() returns (read: Read<Tree>)
      requires at == 0
      modifies this`at
      ensures read == Parse(words)
    {
      read := Alternation();
      if read.Good? && at != |words| {
        read := Bad(Trailing);
      }
    }

    method Alternation() returns (read: Read<Tree>)
      requires at <= |words|
      modifies this`at
      ensures at <= |words| && read == ParseAlternation(words, old(at)) && (read.Good? ==> at == read.end)
      decreases |words| - at, 3
    {
      read := Sequence();
      if read.Bad? {
        return;
      }
      var arms := [read.value];
      while at < |words| && words[at] == "|"
        invariant old(at) < at <= |words| && arms != []
        invariant ParseArms(words, old(at)) ==
                    if !IsWord(words, at, "|") then Good(arms, at) else Onto(arms, ParseArms(words, at + 1))
        decreases |words| - at
      {
        at := at + 1;
        ghost var start := at;
        read := Sequence();
        if read.Bad? {
          return;
        }
        arms := arms + [read.value];
        if IsWord(words, at, "|") {
          OntoOnto(arms[..|arms| - 1], read.value, ParseArms(words, at + 1));
        }
      }
      read := Good(if |arms| > 1 then Alt(arms) else arms[0], at);
    }

    method Sequence() returns (read: Read<Tree>)
      requires at <= |words|
      modifies this`at
      ensures at <= |words| && read == ParseSequence(words, old(at)) && (read.Good? ==> at == read.end)
      decreases |words| - at, 2
    {
      var items: seq<Tree> := [];
      OntoNone(ParseItems(words, at));
      while at < |words| && words[at] != "|" && words[at] != ")"
        invariant old(at) <= at <= |words|
        invariant ParseItems(words, old(at)) == Onto(items, ParseItems(words, at))
        decreases |words| - at
      {
        ghost var start := at;
        read := Item();
        if read.Bad? {
          return;
        }
        OntoOnto(items, read.value, ParseItems(words, at));
        items := items + [read.value];
      }
      assert items + [] == items;
      if items == [] {
        return Bad(EmptyAlternative);
      }
      read := Good(Seq(items), at);
    }

    method Item() returns (read: Read<Tree>)
      requires at < |words|
      modifies this`at
      ensures at <= |words| && read == ParseItem(words, old(at)) && (read.Good? ==> at == read.end)
      decreases |words| - at, 1
    {
      var word := words[at];
      var atom: Tree;
      if word == "(" {
        at := at + 1;
        read := Alternation();
        if read.Bad? {
          return;
        }
        atom := read.value;
        if at >= |words| || words[at] != ")" {
          return Bad(UnclosedGroup);
        }
        at := at + 1;
      } else if IsQuoted(word) {
        at := at + 1;
        atom := Lit(Unescape(Inner(word)));
        if at + 1 < |words| && words[at] == "..." {
          var upper := words[at + 1];
          at := at + 2;
          atom := Range(Inner(word), Inner(upper));
        }
      } else if StartsWith(word, SCALAR) {
        at := at + 1;
        atom := UnicodeScalar;
      } else if StartsWith(word, BYTE) {
        at := at + 1;
        atom := if word == TEXT_BYTE then TextByte else Byte;
      } else {
        at := at + 1;
        atom := Rule(word);
      }
      assert ParseAtom(words, old(at)) == Good(atom, at);
      while at < |words| && IsOperator(words[at])
        invariant old(at) < at <= |words|
        invariant ParseItem(words, old(at)) == Operators(words, at, atom)
        decreases |words| - at
      {
        atom := Post(words[at], atom);
        at := at + 1;
      }
      read := Good(atom, at);
    }
  }

  /** What was read so far, and then the rest. */
  function Onto(before: seq<Tree>, rest: Read<seq<Tree>>): Read<seq<Tree>> {
    match rest
    case Bad(complaint) => Bad(complaint)
    case Good(items, end) => Good(before + items, end)
  }

  lemma OntoOnto(before: seq<Tree>, next: Tree, rest: Read<seq<Tree>>)
    ensures Onto(before, Onto([next], rest)) == Onto(before + [next], rest)
  {
    if rest.Good? {
      assert before + ([next] + rest.value) == before + [next] + rest.value;
    }
  }

  lemma OntoNone(rest: Read<seq<Tree>>)
    ensures Onto([], rest) == rest
  {
    if rest.Good? {
      assert [] + rest.value == rest.value;
    }
  }
}
