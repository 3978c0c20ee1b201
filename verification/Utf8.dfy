/** UTF-8, and what becomes of it when its bytes are pushed one by one as characters. */
module Utf8 {
  import opened Wrappers
  import opened Chars

  /** The UTF-8 encoding of one scalar value. */
  function Encode(c: char): (b: Bytes)
    ensures 1 <= |b| <= 4 && (|b| == 1 <==> IsAscii(c))
  {
    var n := c as int;
    if n < 0x80 then [n]
    else if n < 0x800 then [0xC0 + n / 0x40, 0x80 + n % 0x40]
    else if n < 0x1_0000 then [0xE0 + n / 0x1000, 0x80 + n / 0x40 % 0x40, 0x80 + n % 0x40]
    else [0xF0 + n / 0x4_0000, 0x80 + n / 0x1000 % 0x40, 0x80 + n / 0x40 % 0x40, 0x80 + n % 0x40]
  }

  /** `byte as char` for each byte: Latin-1. */
  function Latin1(b: Bytes): (s: string)
    ensures |s| == |b|
  {
    if b == [] then [] else [b[0] as char] + Latin1(b[1..])
  }

  /** Pushing the bytes of a string one by one as characters. */
  function BytesAsChars(s: string): string {
    if s == [] then [] else Latin1(Encode(s[0])) + BytesAsChars(s[1..])
  }

  predicate AllAscii(s: string) {
    forall k | 0 <= k < |s| :: IsAscii(s[k])
  }

  lemma {:induction false} BytesAsCharsLength(s: string)
    ensures |BytesAsChars(s)| >= |s| && (|BytesAsChars(s)| == |s| <==> AllAscii(s))
  {
    if s != [] {
      BytesAsCharsLength(s[1..]);
      assert s == [s[0]] + s[1..];
    }
  }

  /** Text survives exactly when it is ASCII. */
  lemma {:induction false} BytesAsCharsIsIdentity(s: string)
    ensures BytesAsChars(s) == s <==> AllAscii(s)
  {
    BytesAsCharsLength(s);
    if AllAscii(s) && s != [] {
      assert s == [s[0]] + s[1..];
      BytesAsCharsIsIdentity(s[1..]);
      var b := Encode(s[0]);
      assert b[1..] == [] && Latin1(b) == [s[0]];
    }
  }
}
