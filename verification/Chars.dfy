/** Characters and strings as the Rust code classifies them. Strings are sequences of Unicode
    scalar values; every scanner in the model decides on ASCII characters only. */
module Chars {
  /** Where a scanner of SQL text stands: outside quotes, or in a literal of either kind. */
  datatype Mode = Code | Single | Double

  /** `u8::is_ascii_whitespace`. */
  predicate IsAsciiSpace(c: char) {
    c == ' ' || c == '\t' || c == '\n' || c == '\U{0C}' || c == '\r'
  }

  /** The Unicode White_Space property, which `str::trim` and `char::is_whitespace` use. */
  predicate IsSpace(c: char) {
    '\t' <= c <= '\r' || c == ' ' || c == '\U{85}' || c == '\U{A0}' || c == '\U{1680}' || '\U{2000}' <= c <= '\U{200A}'
    || c == '\U{2028}' || c == '\U{2029}' || c == '\U{202F}' || c == '\U{205F}' || c == '\U{3000}'
  }

  predicate IsAscii(c: char) {
    c < '\U{80}'
  }

  /** The two kinds of white space differ on ASCII by the vertical tab alone. */
  lemma AsciiSpaces(c: char)
    ensures IsAsciiSpace(c) <==> IsAscii(c) && IsSpace(c) && c != '\U{0B}'
  {}

  predicate IsDigit(c: char) {
    '0' <= c <= '9'
  }

  predicate IsAlpha(c: char) {
    'a' <= c <= 'z' || 'A' <= c <= 'Z'
  }

  /** A character that can continue a bare identifier. */
  predicate IsWord(c: char) {
    IsAlpha(c) || IsDigit(c) || c == '_'
  }

  function Lower(c: char): char {
    if 'A' <= c <= 'Z' then ((c as int) + 32) as char else c
  }

  /** `eq_ignore_ascii_case`. */
  predicate EqIgnoreCase(a: string, b: string) {
    |a| == |b| && forall k | 0 <= k < |a| :: Lower(a[k]) == Lower(b[k])
  }

  predicate Blank(s: string) {
    forall k | 0 <= k < |s| :: IsSpace(s[k])
  }

  function TrimStart(s: string): string {
    if s != [] && IsSpace(s[0]) then TrimStart(s[1..]) else s
  }

  function TrimEnd(s: string): string {
    if s != [] && IsSpace(s[|s| - 1]) then TrimEnd(s[..|s| - 1]) else s
  }

  function Trim(s: string): string {
    TrimEnd(TrimStart(s))
  }
}
