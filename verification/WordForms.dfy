/** How the words of the notation read, with every word and phrase written out: what
    each kind of word is as an atom, which words are operators, and where a sequence
    stops. */
module WordForms {
  import opened Characters
  import opened Notations

  predicate Begins(word: string, phrase: string) {
    |word| >= |phrase| && forall i :: 0 <= i < |phrase| ==> word[i] == phrase[i]
  }

  lemma BeginsIsPrefix(word: string, phrase: string)
    ensures Begins(word, phrase) <==> StartsWith(word, phrase)
  {
    if StartsWith(word, phrase) {
      assert word[..|phrase|] == phrase;
      assert forall i :: 0 <= i < |phrase| ==> word[..|phrase|][i] == word[i];
    }
    if Begins(word, phrase) {
      assert word[..|phrase|] == phrase;
    }
  }

  /** A word that begins with a double quote: a range when dots and another word
      follow, and a literal otherwise, with the escapes of its inside read. */
  lemma QuotedReads(words: seq<string>, at: nat)
    requires at < |words| && words[at] != "" && words[at][0] as int == 34
    ensures var word := words[at];
            var inside := if |word| < 2 then "" else word[1..|word| - 1];
            if at + 2 < |words| && words[at + 1] == "..." then
              var upper := words[at + 2];
              ParseAtom(words, at) == Good(Range(inside, if |upper| < 2 then "" else upper[1..|upper| - 1]), at + 3)
            else ParseAtom(words, at) == Good(Lit(Unescape(inside)), at + 1)
  {
    BeginsIsPrefix(words[at], "\"");
    assert words[at] != "(";
  }

  lemma TextByteSpelled()
    ensures TEXT_BYTE == "any byte except quote, backslash or line_end"
  {
  }

  /** Any other word but an opening parenthesis: one of the three classes of bytes and
      scalars by its phrase, and otherwise the name of a rule. */
  lemma PhraseReads(words: seq<string>, at: nat)
    requires at < |words| && words[at] != "(" && (words[at] == "" || words[at][0] as int != 34)
    ensures ParseAtom(words, at) ==
            Good(if Begins(words[at], "any Unicode scalar") then UnicodeScalar
                 else if words[at] == "any byte except quote, backslash or line_end" then TextByte
                 else if Begins(words[at], "any byte") then Byte
                 else Rule(words[at]), at + 1)
  {
    BeginsIsPrefix(words[at], "\"");
    BeginsIsPrefix(words[at], SCALAR);
    BeginsIsPrefix(words[at], BYTE);
    Prefixes(words[at]);
    TextByteSpelled();
  }

  /** A group is what stands between its parentheses. */
  lemma GroupReads(words: seq<string>, at: nat)
    requires at < |words| && words[at] == "("
    ensures var inside, read := ParseAlternation(words, at + 1), ParseAtom(words, at);
            match inside
            case Bad(_) => read == inside
            case Good(tree, end) =>
              read == if end < |words| && words[end] == ")" then Good(tree, end + 1) else Bad(UnclosedGroup)
  {
  }

  /** The operators are the question mark, the star and the plus, innermost first. */
  lemma OperatorsRead(words: seq<string>, at: nat, atom: Tree)
    requires at <= |words|
    ensures if at < |words| && (words[at] == "?" || words[at] == "*" || words[at] == "+")
            then Operators(words, at, atom) == Operators(words, at + 1, Post(words[at], atom))
            else Operators(words, at, atom) == Good(atom, at)
  {
  }

  /** A sequence stops at a bar, at a closing parenthesis and at the end, nowhere else. */
  lemma SequencesStop(words: seq<string>, at: nat)
    requires at <= |words|
    ensures ParseItems(words, at) == Good([], at) <==> at == |words| || words[at] == "|" || words[at] == ")"
  {
  }
  /** An alternative of no items is complained of, and so are words behind the whole. */
  lemma ComplaintsRead(words: seq<string>, at: nat)
    requires at <= |words|
    ensures at == |words| || words[at] == "|" || words[at] == ")" ==>
              ParseSequence(words, at) == Bad(EmptyAlternative) && ParseAlternation(words, at) == Bad(EmptyAlternative)
    ensures ParseAlternation(words, 0).Good? ==>
              (Parse(words) == Bad(Trailing) <==> ParseAlternation(words, 0).end < |words|)
  {
  }
}
