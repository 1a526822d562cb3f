/** What one turn of `visible_code` masks, said character by character. */
module VisibleForms {
  import opened Characters
  import opened Visibility

  /** The text begins with `--(`, with `)--`, or with two hyphens. */
  predicate BeginsOpening(s: string) { |s| >= 3 && s[0] == '-' && s[1] == '-' && s[2] == '(' }

  predicate BeginsClosing(s: string) { |s| >= 3 && s[0] == ')' && s[1] == '-' && s[2] == '-' }

  predicate BeginsHyphens(s: string) { |s| >= 2 && s[0] == '-' && s[1] == '-' }

  lemma BeginsAsItDoes(s: string)
    ensures BeginsOpening(s) == StartsWith(s, "--(") && BeginsClosing(s) == StartsWith(s, ")--")
    ensures BeginsHyphens(s) == StartsWith(s, "--")
  {
    if |s| >= 3 {
      assert s[..3] == [s[0], s[1], s[2]];
    }
    if |s| >= 2 {
      assert s[..2] == [s[0], s[1]];
    }
  }

  /** In a block comment: an opening or a closing, or one character. */
  lemma CommentChunk(s: string, depth: nat, quotes: nat)
    requires s != "" && depth > 0
    ensures Next(s, State(depth, quotes))
         == if BeginsOpening(s) then Chunk(3, State(depth + 1, quotes), true)
            else if BeginsClosing(s) then Chunk(3, State(depth - 1, quotes), true)
            else Chunk(1, State(depth, quotes), true)
  {
    BeginsAsItDoes(s);
  }

  /** So many quotes, and then none. */
  ghost predicate QuoteRun(s: string, n: nat) {
    n <= |s| && (forall k :: 0 <= k < n ==> s[k] == '\"') && (n < |s| ==> s[n] != '\"')
  }

  lemma {:induction false} QuotesAreRun(s: string, n: nat)
    ensures QuoteRun(s, n) <==> n == Quotes(s)
    decreases |s|
  {
    if s != "" && s[0] == '\"' {
      var rest := s[1..];
      if n > 0 {
        QuotesAreRun(rest, n - 1);
        if QuoteRun(s, n) {
          assert forall k :: 0 <= k < n - 1 ==> rest[k] == s[k + 1];
        }
        if QuoteRun(rest, n - 1) {
          assert forall k :: 1 <= k < n ==> s[k] == rest[k - 1];
        }
      }
    }
  }

  /** In a raw literal: a run of quotes long enough closes it, and no more of the run
      is taken than opened it. */
  lemma RawChunk(s: string, quotes: nat, n: nat)
    requires s != "" && quotes > 0 && QuoteRun(s, n)
    ensures Next(s, State(0, quotes))
         == if n == 0 then Chunk(1, State(0, quotes), true)
            else if n < quotes then Chunk(n, State(0, quotes), true)
            else Chunk(quotes, State(0, 0), true)
  {
    QuotesAreRun(s, n);
  }

  /** Between two quotes: each backslash with the character behind it. */
  ghost predicate Inside(text: string, quote: char) {
    text == "" ||
    if text[0] == '\\' then |text| > 1 && Inside(text[2..], quote) else text[0] != quote && Inside(text[1..], quote)
  }

  /** The literal closes behind so many characters of what follows its quote. */
  ghost predicate ClosesAt(rest: string, quote: char, n: nat) {
    0 < n <= |rest| && rest[n - 1] == quote && Inside(rest[..n - 1], quote)
  }

  /** Closing is there if anywhere, and otherwise the end of the line. */
  lemma {:induction false} ClosingExactly(rest: string, quote: char, n: nat)
    requires quote != '\\'
    ensures ClosesAt(rest, quote, n) ==> Closing(rest, quote) == n
    ensures Closing(rest, quote) == |rest| || ClosesAt(rest, quote, Closing(rest, quote))
    decreases |rest|
  {
    if rest != "" {
      var step := if rest[0] != '\\' then 1 else if |rest| > 1 then 2 else 1;
      if rest[0] != quote && rest[step..] != "" {
        ClosingExactly(rest[step..], quote, if n >= step then n - step else 0);
        if n <= |rest| {
          InsideStep(rest, quote, step, n);
        }
        InsideStep(rest, quote, step, Closing(rest, quote));
      }
    }
  }

  lemma InsideStep(rest: string, quote: char, step: nat, n: nat)
    requires rest != "" && rest[0] != quote && quote != '\\' && step == (if rest[0] == '\\' && |rest| > 1 then 2 else 1)
    requires n <= |rest|
    ensures ClosesAt(rest, quote, n) <==> n > step && ClosesAt(rest[step..], quote, n - step)
  {
    if step < n <= |rest| {
      assert rest[..n - 1][step..] == rest[step..][..n - 1 - step];
      assert rest[step..][n - step - 1] == rest[n - 1];
    }
  }

  /** In code: a comment, a literal, or one character that is shown. */
  lemma CodeChunk(s: string, n: nat)
    requires s != "" && QuoteRun(s, n)
    ensures Next(s, State(0, 0))
         == if BeginsOpening(s) then Chunk(3, State(1, 0), true)
            else if BeginsHyphens(s) then Chunk(|s|, State(0, 0), true)
            else if n >= 3 then Chunk(n, State(0, n), true)
            else if s[0] == '\"' || s[0] == '\'' then Chunk(1 + Closing(s[1..], s[0]), State(0, 0), true)
            else Chunk(1, State(0, 0), false)
  {
    BeginsAsItDoes(s);
    QuotesAreRun(s, n);
  }

  /** Masked is blank, and shown is as it was. */
  lemma ShownExactly(s: string, masked: bool, i: nat)
    requires i < |s|
    ensures |Shown(s, masked)| == |s| && Shown(s, masked)[i] as int == if masked then 32 else s[i] as int
  {
  }
}
