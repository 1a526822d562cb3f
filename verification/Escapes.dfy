/** What `unescape` makes of a text without doubled backslashes, character by
    character: it replaces one kind of escape after another, and that comes to
    reading from left to right. */
module Escapes {
  import opened Characters
  import opened Notations

  /** What a backslash and this character stand for, by their codes: tab, line feed,
      carriage return, double quote. */
  function CodeOf(c: char): int {
    if c == 't' then 9 else if c == 'n' then 10 else if c == 'r' then 13 else if c as int == 34 then 34 else -1
  }

  /** A text read from left to right. */
  function Decoded(text: string): string {
    if |text| > 1 && text[0] == '\\' && CodeOf(text[1]) >= 0 then [CodeOf(text[1]) as char] + Decoded(text[2..])
    else if text != "" then [text[0]] + Decoded(text[1..])
    else ""
  }

  /** One character that is no backslash, or a backslash and one that is none. */
  predicate IsHead(head: string) {
    (|head| == 1 && head[0] != '\\') || (|head| == 2 && head[0] == '\\' && head[1] != '\\')
  }

  function Staged(head: string, x: char, byte: char): string {
    if head == ['\\', x] then [byte] else head
  }

  /** One kind of escape replaced, at the beginning and behind it. */
  lemma {:induction false} StagePasses(head: string, rest: string, x: char, byte: char)
    requires IsHead(head)
    ensures Replace(head + rest, ['\\', x], byte) == Staged(head, x, byte) + Replace(rest, ['\\', x], byte)
    decreases |head|
  {
    var s := head + rest;
    if |head| == 1 {
      assert s[1..] == rest;
      if rest != "" {
        assert s[..2][0] == head[0];
      }
    } else {
      assert s[..2] == head && s[2..] == rest && s[1..] == [head[1]] + rest;
      if head != ['\\', x] {
        StagePasses([head[1]], rest, x, byte);
        assert [head[0]] + ([head[1]] + Replace(rest, ['\\', x], byte)) == head + Replace(rest, ['\\', x], byte);
      }
    }
  }

  /** What `unescape` makes of a head. */
  function Read(head: string): string {
    if |head| == 2 && CodeOf(head[1]) >= 0 then [CodeOf(head[1]) as char] else head
  }

  lemma UnescapeHead(head: string, rest: string)
    requires IsHead(head)
    ensures Unescape(head + rest) == Read(head) + Unescape(rest)
  {
    var h1, r1 := Staged(head, 't', '\t'), Replace(rest, "\\t", '\t');
    var h2, r2 := Staged(h1, 'n', '\n'), Replace(r1, "\\n", '\n');
    var h3, r3 := Staged(h2, 'r', '\r'), Replace(r2, "\\r", '\r');
    var h4, r4 := Staged(h3, '\"', '\"'), Replace(r3, "\\\"", '\"');
    StagePasses(head, rest, 't', '\t');
    StagePasses(h1, r1, 'n', '\n');
    StagePasses(h2, r2, 'r', '\r');
    StagePasses(h3, r3, '\"', '\"');
    StagePasses(h4, r4, '\\', '\\');
    assert h4 == Read(head) by {
      CodesRead(head);
    }
  }

  lemma CodesRead(head: string)
    requires IsHead(head)
    ensures Staged(Staged(Staged(Staged(head, 't', '\t'), 'n', '\n'), 'r', '\r'), '\"', '\"') == Read(head)
  {
    if |head| == 2 {
      assert head == ['\\', head[1]];
    }
  }

  /** The end of a text: nothing, or a single backslash. */
  lemma UnescapeEnd(text: string)
    requires text == "" || text == "\\"
    ensures Unescape(text) == text
  {
  }

  /** Where no backslash is doubled, reading replaces each escape by its character and
      leaves every other character as it is. */
  lemma {:induction false} UnescapeReads(text: string)
    requires !Has(text, '\\', '\\')
    ensures Unescape(text) == Decoded(text)
    decreases |text|
  {
    if text == "" || text == "\\" {
      UnescapeEnd(text);
    } else if text[0] != '\\' {
      assert text == text[..1] + text[1..];
      UnescapeReads(text[1..]);
      UnescapeHead(text[..1], text[1..]);
    } else {
      assert text == text[..2] + text[2..] && text[1..] == [text[1]] + text[2..];
      assert text[1..][1..] == text[2..];
      UnescapeReads(text[2..]);
      UnescapeHead(text[..2], text[2..]);
    }
  }
}
