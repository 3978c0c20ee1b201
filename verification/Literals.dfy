/** Reading a single-quoted SQL literal byte by byte, as two parsers do it
    (crates/ducklink-host/src/at5_intercept.rs:410-430,
    crates/ducklink-host/src/delta_rewrite.rs:149-171). */
module Literals {
  import opened Wrappers
  import opened SqlText
  import opened Utf8

  /** What a literal yields when its opening quote has been read: its text, with the bytes of
      any non-ASCII character pushed one by one, and the text after the closing quote. */
  function AfterOpeningQuote(t: string): Option<(string, string)> {
    if t == [] then None
    else if t[0] == '\'' then
      if |t| > 1 && t[1] == '\'' then Prepend("'", AfterOpeningQuote(t[2..])) else Some(([], t[1..]))
    else Prepend(Latin1(Encode(t[0])), AfterOpeningQuote(t[1..]))
  }

  function Prepend(front: string, r: Option<(string, string)>): Option<(string, string)> {
    match r case None => None case Some((text, rest)) => Some((front + text, rest))
  }

  lemma PrependAssociates(a: string, b: string, r: Option<(string, string)>)
    ensures Prepend(a, Prepend(b, r)) == Prepend(a + b, r) && Prepend([], r) == r
  {
    if r.Some? { assert a + (b + r.value.0) == a + b + r.value.0 && [] + r.value.0 == r.value.0; }
  }

  /** The text of a literal that begins with `c`. */
  lemma Unfolds(c: char, s: string)
    ensures Doubled([c] + s) == (if c == '\'' then "''" else [c]) + Doubled(s)
    ensures BytesAsChars([c] + s) == (if c == '\'' then "'" else Latin1(Encode(c))) + BytesAsChars(s)
  {
    assert ([c] + s)[1..] == s;
    if c == '\'' { assert Encode(c) == [39] && Latin1([39]) == "'" by { assert [39][1..] == []; } }
  }

  lemma ReadsOne(c: char, more: string)
    ensures AfterOpeningQuote((if c == '\'' then "''" else [c]) + more) ==
      Prepend(if c == '\'' then "'" else Latin1(Encode(c)), AfterOpeningQuote(more))
  {
    var t := (if c == '\'' then "''" else [c]) + more;
    if c == '\'' { assert t[2..] == more; } else { assert t[1..] == more; }
  }

  lemma {:induction false} LiteralReads(s: string, rest: string)
    requires rest == [] || rest[0] != '\''
    ensures AfterOpeningQuote(Doubled(s) + "'" + rest) == Some((BytesAsChars(s), rest))
  {
    hide Encode, Latin1, AfterOpeningQuote, Doubled, BytesAsChars;
    if s == [] {
      NoText(rest);
    } else {
      var c, tail := s[0], s[1..];
      var more := Doubled(tail) + "'" + rest;
      LiteralReads(tail, rest);
      assert s == [c] + tail;
      Unfolds(c, tail);
      ReadsOne(c, more);
      assert Doubled(s) + "'" + rest == (if c == '\'' then "''" else [c]) + more;
    }
  }

  lemma NoText(rest: string)
    requires rest == [] || rest[0] != '\''
    ensures Doubled([]) == BytesAsChars([]) == [] && AfterOpeningQuote([] + "'" + rest) == Some(([], rest))
  {
    assert ([] + "'" + rest)[1..] == rest;
  }

  /** Whatever is accepted was written that way: the text with its quotes doubled, a closing
      quote, and no further quote behind it. */
  lemma {:induction false} LiteralIsWritten(t: string) returns (s: string)
    requires AfterOpeningQuote(t).Some?
    ensures var (text, rest) := AfterOpeningQuote(t).value;
            t == Doubled(s) + "'" + rest && (rest == [] || rest[0] != '\'') && text == BytesAsChars(s)
  {
    hide Encode, Latin1, Doubled, BytesAsChars;
    if t[0] == '\'' && !(|t| > 1 && t[1] == '\'') {
      s := "";
      NoText(t[1..]);
      assert t == [] + "'" + t[1..];
    } else {
      var c := t[0];
      var more := if c == '\'' then t[2..] else t[1..];
      var tail := LiteralIsWritten(more);
      s := [c] + tail;
      Unfolds(c, tail);
      assert t == (if c == '\'' then "''" else [c]) + more;
    }
  }
}
