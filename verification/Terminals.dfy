/** What the nodes that are not expanded match, name by name and character by
    character: each rule the scanner owns, each literal, each class of characters. */
module Terminals {
  import opened Options
  import opened Grammars

  /** One token on, or nowhere. */
  ghost predicate TakesToken(r: Reading, n: NodeId, at: nat, yes: bool)
    requires Ok(r, n, at)
  {
    Ends(r, n, at) == if yes then {at + 1} else {}
  }

  lemma NotExpanded(r: Reading, n: NodeId, at: nat)
    requires Ok(r, n, at) && r.input.Tokens? && r.g.nodes[n].Rule?
    requires r.g.nodes[n].name in TOKEN_KIND_RULES || r.g.nodes[n].name in LEXICAL_RULES
    ensures Ends(r, n, at) == Terminal(r.input, r.g.nodes[n], at)
  {
    EndsTerminal(r, n, at);
  }

  /** The seven rules that are matched against the kind of a token. */
  lemma KindRules(r: Reading, n: NodeId, at: nat)
    requires Ok(r, n, at) && r.input.Tokens? && r.g.nodes[n].Rule?
    ensures var name, here := r.g.nodes[n].name, at < |r.input.tokens|;
            && (name == "integer" ==> TakesToken(r, n, at, here && r.input.tokens[at].kind == IntegerToken))
            && (name == "float" ==> TakesToken(r, n, at, here && r.input.tokens[at].kind == FloatToken))
            && (name == "character" ==> TakesToken(r, n, at, here && r.input.tokens[at].kind == CharacterToken))
            && (name == "text" ==> TakesToken(r, n, at, here && r.input.tokens[at].kind == TextToken))
            && (name == "raw" ==> TakesToken(r, n, at, here && r.input.tokens[at].kind == RawToken))
            && (name == "identifier" ==>
                  TakesToken(r, n, at, here && r.input.tokens[at].kind == WordToken
                                       && r.input.tokens[at].text !in r.input.reserved))
            && (name == "literal" ==> TakesToken(r, n, at, here && IsLiteral(r.input.tokens[at])))
  {
    if r.g.nodes[n].name in TOKEN_KIND_RULES {
      NotExpanded(r, n, at);
    }
  }

  /** A scanned literal of any kind, or one of the spelled ones. */
  predicate IsLiteral(token: Token) {
    || token.kind == IntegerToken || token.kind == FloatToken || token.kind == CharacterToken
    || token.kind == TextToken || token.kind == RawToken
    || token.text == "true" || token.text == "false" || token.text == "zeroed" || token.text == "uninit"
  }

  /** The other rules the scanner owns: any token. */
  predicate ReadsAnyToken(name: string) {
    || name == "space" || name == "line_end" || name == "comment" || name == "line_comment" || name == "doc_comment"
    || name == "block_comment" || name == "block_item" || name == "keyword" || name == "character_escape"
    || name == "unicode_scalar" || name == "text_byte" || name == "text_escape" || name == "quote_run"
    || name == "raw_content" || name == "decimal_fraction" || name == "decimal_exponent" || name == "hex_fraction"
    || name == "binary_exponent" || name == "decimal_digits" || name == "hex_digits" || name == "decimal"
    || name == "hex" || name == "octal" || name == "binary" || name == "lower" || name == "digit"
    || name == "hex_digit" || name == "octal_digit" || name == "binary_digit"
  }

  predicate ReadsKind(name: string) {
    || name == "identifier" || name == "integer" || name == "float" || name == "character" || name == "text"
    || name == "raw" || name == "literal"
  }

  lemma ByKind(name: string)
    ensures name in TOKEN_KIND_RULES <==> ReadsKind(name)
  {
  }

  lemma ByScanner(name: string)
    ensures name in LEXICAL_RULES ==> ReadsKind(name) || ReadsAnyToken(name)
    ensures ReadsAnyToken(name) ==> name in LEXICAL_RULES
  {
  }

  lemma OwnedByScanner(name: string)
    ensures name in TOKEN_KIND_RULES <==> ReadsKind(name)
    ensures name in TOKEN_KIND_RULES || name in LEXICAL_RULES <==> ReadsKind(name) || ReadsAnyToken(name)
  {
    ByKind(name);
    ByScanner(name);
  }

  /** Every other rule is its production, or derives nothing without one. */
  lemma OtherRules(r: Reading, n: NodeId, at: nat)
    requires Ok(r, n, at) && r.input.Tokens? && r.g.nodes[n].Rule? && !ReadsKind(r.g.nodes[n].name)
    ensures var name := r.g.nodes[n].name;
            if ReadsAnyToken(name) then TakesToken(r, n, at, at < |r.input.tokens|)
            else if name in r.g.trees then Ends(r, n, at) == Ends(r, r.g.trees[name], at)
            else Ends(r, n, at) == {}
  {
    var name := r.g.nodes[n].name;
    OwnedByScanner(name);
    if ReadsAnyToken(name) || name !in r.g.trees {
      EndsTerminal(r, n, at);
    } else {
      EndsRule(r, n, at, r.g.trees[name]);
    }
  }

  /** Terminals over tokens: a literal matches the spelling, whatever the kind; a byte
      is any token; ranges and scalars match none. */
  lemma TokenTerminals(r: Reading, n: NodeId, at: nat)
    requires Ok(r, n, at) && r.input.Tokens?
    ensures var node, here := r.g.nodes[n], at < |r.input.tokens|;
            && (node.Lit? ==> TakesToken(r, n, at, here && r.input.tokens[at].text == node.text))
            && (node.Byte? || node.TextByte? ==> TakesToken(r, n, at, here))
            && (node.Range? || node.UnicodeScalar? ==> TakesToken(r, n, at, false))
  {
    var node := r.g.nodes[n];
    if node.Lit? || node.Byte? || node.TextByte? || node.Range? || node.UnicodeScalar? {
      EndsTerminal(r, n, at);
    }
  }

  // ------------------------------------------------------------------
  // Over the characters of one token

  /** Double quote, backslash, carriage return, line feed. */
  predicate EndsText(c: char) {
    c as int == 34 || c as int == 92 || c as int == 13 || c as int == 10
  }

  /** Apostrophe, backslash, carriage return, line feed, or half of a surrogate pair. */
  predicate NoScalar(c: char) {
    c as int == 39 || c as int == 92 || c as int == 13 || c as int == 10 || 0xD800 <= c as int <= 0xDFFF
  }

  /** Python's order between a string and one character. */
  predicate BelowOrAt(low: string, c: char) {
    low == "" || low[0] < c || low == [c]
  }

  predicate AboveOrAt(high: string, c: char) {
    high != "" && c <= high[0]
  }

  lemma OneCharacterOrder(s: string, c: char)
    ensures AtMost(s, [c]) == BelowOrAt(s, c) && AtMost([c], s) == AboveOrAt(s, c)
  {
    if s != "" {
      assert AtMost(s[1..], []) == (s[1..] == []);
      assert [c][1..] == [];
      assert s == [s[0]] + s[1..];
      assert AtMost([], s[1..]);
    }
  }

  /** One character on, or nowhere. */
  lemma CharacterTerminals(r: Reading, n: NodeId, at: nat)
    requires Ok(r, n, at) && r.input.Characters?
    ensures var node, text, here := r.g.nodes[n], r.input.text, at < |r.input.text|;
            && (node.Byte? ==> TakesToken(r, n, at, here))
            && (node.TextByte? ==> TakesToken(r, n, at, here && !EndsText(text[at])))
            && (node.UnicodeScalar? ==> TakesToken(r, n, at, here && !NoScalar(text[at])))
            && (node.Range? ==>
                  TakesToken(r, n, at, here && BelowOrAt(node.low, text[at]) && AboveOrAt(node.high, text[at])))
  {
    var node := r.g.nodes[n];
    if node.Byte? || node.TextByte? || node.Range? || node.UnicodeScalar? {
      EndsTerminal(r, n, at);
      if at < |r.input.text| {
        Spellings(r.input.text[at]);
        if node.Range? {
          OneCharacterOrder(node.low, r.input.text[at]);
          OneCharacterOrder(node.high, r.input.text[at]);
        }
      }
    }
  }

  lemma Spellings(c: char)
    ensures c in "\"\\\r\n" <==> EndsText(c)
    ensures c in "'\\\r\n" || 0xD800 <= c as int <= 0xDFFF <==> NoScalar(c)
  {
    SameCode(c, '\"', 34);
    SameCode(c, '\'', 39);
    SameCode(c, '\\', 92);
    SameCode(c, '\r', 13);
    SameCode(c, '\n', 10);
  }

  lemma SameCode(c: char, d: char, code: int)
    requires d as int == code
    ensures c == d <==> c as int == code
  {
  }

  /** A literal over text is itself, wherever it stands, and a rule its production. */
  lemma TextLiterals(r: Reading, n: NodeId, at: nat, e: nat)
    requires Ok(r, n, at) && r.input.Characters? && r.g.nodes[n].Lit?
    ensures e in Ends(r, n, at) <==>
              exists rest :: r.input.text[at..] == r.g.nodes[n].text + rest && e == at + |r.g.nodes[n].text|
  {
    var spelling, text := r.g.nodes[n].text, r.input.text;
    EndsTerminal(r, n, at);
    if e in Ends(r, n, at) {
      assert text[at..] == spelling + text[e..];
    }
    if rest :| text[at..] == spelling + rest && e == at + |spelling| {
      assert text[at..e] == text[at..][..|spelling|] == spelling;
    }
  }

  lemma TextRules(r: Reading, n: NodeId, at: nat)
    requires Ok(r, n, at) && r.input.Characters? && r.g.nodes[n].Rule?
    ensures var name := r.g.nodes[n].name;
            Ends(r, n, at) == if name in r.g.trees then Ends(r, r.g.trees[name], at) else {}
  {
    var name := r.g.nodes[n].name;
    if name in r.g.trees {
      EndsRule(r, n, at, r.g.trees[name]);
    } else {
      EndsTerminal(r, n, at);
    }
  }
}
