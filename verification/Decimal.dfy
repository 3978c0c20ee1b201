/** Decimal numerals, as Rust's integer formatting writes and `parse` reads them. */
module Decimal {
  import opened Wrappers
  import opened Chars

  function DigitChar(d: nat): (c: char)
    requires d < 10
    ensures IsDigit(c) && c as int == '0' as int + d
  {
    ('0' as int + d) as char
  }

  function DigitValue(c: char): (d: nat)
    requires IsDigit(c)
    ensures d < 10
  {
    c as int - '0' as int
  }

  predicate AllDigits(s: string) {
    forall k | 0 <= k < |s| :: IsDigit(s[k])
  }

  function Digits(n: nat): (s: string)
    ensures s != [] && AllDigits(s)
  {
    if n < 10 then [DigitChar(n)] else Digits(n / 10) + [DigitChar(n % 10)]
  }

  function Value(s: string): nat
    requires AllDigits(s)
  {
    if s == [] then 0 else Value(s[..|s| - 1]) * 10 + DigitValue(s[|s| - 1])
  }

  lemma {:induction false} ValueOfDigits(n: nat)
    ensures Value(Digits(n)) == n
  {
    if n >= 10 {
      ValueOfDigits(n / 10);
      assert Digits(n)[..|Digits(n)| - 1] == Digits(n / 10);
    }
  }

  lemma DigitsInjective(m: nat, n: nat)
    requires Digits(m) == Digits(n)
    ensures m == n
  {
    ValueOfDigits(m);
    ValueOfDigits(n);
  }

  /** No leading zero, except in "0" itself. */
  lemma {:induction false} DigitsNoLeadingZero(n: nat)
    ensures n > 0 ==> Digits(n)[0] != '0'
  {
    if n >= 10 { DigitsNoLeadingZero(n / 10); }
  }

  function Signed(n: int): string {
    if n < 0 then "-" + Digits(-n) else Digits(n)
  }

  predicate InI64(n: int) {
    -0x8000_0000_0000_0000 <= n < 0x8000_0000_0000_0000
  }

  /** `str::parse::<i64>`: an optional sign, at least one digit, and a value in range. */
  function ParseI64(s: string): Option<int> {
    var digits := if s != [] && (s[0] == '-' || s[0] == '+') then s[1..] else s;
    if digits == [] || !AllDigits(digits) then None else
    var v: int := Value(digits);
    var n := if s[0] == '-' then -v else v;
    if InI64(n) then Some(n) else None
  }

  lemma ParseSigned(n: int)
    ensures ParseI64(Signed(n)) == if InI64(n) then Some(n) else None
  {
    var m := if n < 0 then -n else n;
    ValueOfDigits(m);
    var s := Signed(n);
    if n < 0 {
      assert s[1..] == Digits(m);
    } else {
      assert IsDigit(s[0]);
    }
  }
}
