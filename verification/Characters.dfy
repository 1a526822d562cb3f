/** Characters and runs of them, as the scanners name them. */
module Characters {

  import opened Options

  /** A length found further on. */
  function More(n: nat, rest: Option<nat>): Option<nat> {
    if rest.Some? then Some(n + rest.value) else None
  }

  predicate Digit(c: char) { '0' <= c <= '9' }

  predicate Lower(c: char) { 'a' <= c <= 'z' }

  predicate Name(c: char) { Lower(c) || 'A' <= c <= 'Z' || Digit(c) || c == '_' }

  predicate Hex(c: char) { 'a' <= c <= 'f' || 'A' <= c <= 'F' || Digit(c) || c == '_' }

  predicate Decimal(c: char) { Digit(c) || c == '_' }

  /** The longest run of such characters a text begins with. */
  function Span(s: string, p: char -> bool): (n: nat)
    ensures n <= |s| && (forall k :: 0 <= k < n ==> p(s[k])) && (n < |s| ==> !p(s[n]))
  {
    if s != "" && p(s[0]) then 1 + Span(s[1..], p) else 0
  }

  predicate StartsWith(s: string, w: string) {
    |w| <= |s| && s[..|w|] == w
  }

  lemma WithinFrom(s: string, i: nat, w: string)
    requires i <= |s|
    ensures StartsWith(s[i..], w) <==> i + |w| <= |s| && s[i..i + |w|] == w
  {
    if i + |w| <= |s| {
      assert s[i..][..|w|] == s[i..i + |w|];
    }
  }

  predicate StartsAt(s: string, w: string, i: nat)
    requires i <= |s|
    ensures StartsAt(s, w, i) <==> StartsWith(s[i..], w)
  {
    WithinFrom(s, i, w);
    i + |w| <= |s| && s[i..i + |w|] == w
  }
}
