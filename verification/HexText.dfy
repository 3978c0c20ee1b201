/** Hexadecimal text of byte strings. */
module HexText {
  import opened Wrappers

  function HexVal(c: char): Option<nat> {
    if '0' <= c <= '9' then Some(c as int - '0' as int)
    else if 'a' <= c <= 'f' then Some(10 + c as int - 'a' as int)
    else if 'A' <= c <= 'F' then Some(10 + c as int - 'A' as int)
    else None
  }

  /** The digits in order, in either case. */
  lemma HexValIs(c: char, d: nat)
    requires d < 16
    ensures HexVal(c) == Some(d) <==> c == "0123456789abcdef"[d] || c == "0123456789ABCDEF"[d]
  {}

  function HexDigit(d: nat): (c: char)
    requires d < 16
    ensures HexVal(c) == Some(d) && ('0' <= c <= '9' || 'a' <= c <= 'f')
  {
    if d < 10 then ('0' as int + d) as char else ('a' as int + d - 10) as char
  }

  function Hex(b: Bytes): string {
    if b == [] then [] else [HexDigit(b[0] / 16), HexDigit(b[0] % 16)] + Hex(b[1..])
  }

  function HexBytes(s: string): Option<Bytes> {
    if s == [] then Some([])
    else if |s| == 1 then None
    else match (HexVal(s[0]), HexVal(s[1]), HexBytes(s[2..]))
      case (Some(hi), Some(lo), Some(rest)) => HexValBound(s[0]); HexValBound(s[1]); Some([hi * 16 + lo] + rest)
      case _ => None
  }

  lemma HexValBound(c: char)
    ensures HexVal(c).Some? ==> HexVal(c).value < 16
  {}

  lemma {:induction false} HexRoundTrip(b: Bytes)
    ensures HexBytes(Hex(b)) == Some(b) && |Hex(b)| == 2 * |b|
      && forall k :: 0 <= k < |Hex(b)| ==> HexVal(Hex(b)[k]).Some?
  {
    if b != [] {
      HexRoundTrip(b[1..]);
      var h := Hex(b);
      assert h[2..] == Hex(b[1..]);
      assert b == [b[0]] + b[1..];
      forall k | 0 <= k < |h| ensures HexVal(h[k]).Some? {
        if k >= 2 { assert h[k] == Hex(b[1..])[k - 2]; }
      }
    }
  }

  lemma {:induction false} OddHex(s: string)
    ensures |s| % 2 != 0 ==> HexBytes(s).None?
  {
    if |s| >= 2 { OddHex(s[2..]); }
  }
}
