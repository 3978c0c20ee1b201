/** The fixed-width UTC timestamp of a signed request
    (crates/ducklink-host/src/sigv4.rs:79-96, 129). */
module AmzDate {
  import opened Decimal
  import opened Calendar
  import Sorting

  function Zeros(k: nat): string {
    seq(k, _ => '0')
  }

  /** `{n:0w}`: at least `w` digits, padded with zeros. */
  function Padded(n: nat, w: nat): string {
    var d := Digits(n);
    if |d| >= w then d else Zeros(w - |d|) + d
  }

  /** `YYYYMMDDTHHMMSSZ`. */
  function FormatAmzDate(secs: nat): string {
    var days, rem := secs / 86_400, secs % 86_400;
    var (hh, mm, ss) := (rem / 3600, rem % 3600 / 60, rem % 60);
    var t := CivilFromDays(days);
    YearIsCurrent(days);
    Padded(t.y, 4) + Padded(t.m, 2) + Padded(t.d, 2) + "T" + Padded(hh, 2) + Padded(mm, 2) + Padded(ss, 2) + "Z"
  }

  lemma YearIsCurrent(days: nat)
    ensures CivilFromDays(days).y >= 1970
  {
    var t := CivilFromDays(days);
    CivilIsCorrect(days);
    hide CivilFromDays;
    if t.y < 1970 {
      DayOfYearBound(t);
      YearsAreOrdered(t.y, 1970);
    }
  }

  // ---------------------------------------------------------------------------
  // Fixed-width numerals
  // ---------------------------------------------------------------------------

  function Pow10(w: nat): (p: nat)
    ensures p > 0
  {
    if w == 0 then 1 else 10 * Pow10(w - 1)
  }

  function Fixed(n: nat, w: nat): (s: string)
    ensures |s| == w
  {
    if w == 0 then [] else Fixed(n / 10, w - 1) + [DigitChar(n % 10)]
  }

  lemma {:induction false} FixedZero(w: nat)
    ensures Fixed(0, w) == Zeros(w)
  {
    if w > 0 { FixedZero(w - 1); }
  }

  lemma {:induction false} PaddedIsFixed(n: nat, w: nat)
    requires w > 0 && n < Pow10(w)
    ensures Padded(n, w) == Fixed(n, w)
  {
    if n < 10 {
      FixedZero(w - 1);
      assert Fixed(n, w) == Zeros(w - 1) + [DigitChar(n)];
    } else {
      assert w > 1;
      PaddedIsFixed(n / 10, w - 1);
      var d, e := Digits(n), Digits(n / 10);
      if |e| < w - 1 { assert Zeros(w - |d|) + d == Zeros(w - 1 - |e|) + e + [DigitChar(n % 10)]; }
    }
  }

  lemma {:induction false} PaddedOverflows(n: nat, w: nat)
    requires n >= Pow10(w)
    ensures |Padded(n, w)| > w
  {
    if w > 0 && n >= 10 { PaddedOverflows(n / 10, w - 1); }
  }

  lemma {:induction false} FixedJoins(a: nat, v: nat, b: nat, w: nat)
    requires b < Pow10(w)
    ensures Fixed(a, v) + Fixed(b, w) == Fixed(a * Pow10(w) + b, v + w)
  {
    if w == 0 {
      assert Fixed(b, 0) == [] && a * 1 == a;
    } else {
      var n := a * Pow10(w) + b;
      assert n == 10 * (a * Pow10(w - 1)) + b;
      assert n / 10 == a * Pow10(w - 1) + b / 10 && n % 10 == b % 10;
      FixedJoins(a, v, b / 10, w - 1);
      assert Fixed(a, v) + Fixed(b, w) == Fixed(a, v) + Fixed(b / 10, w - 1) + [DigitChar(b % 10)];
    }
  }

  // ---------------------------------------------------------------------------
  // Lexicographic order
  // ---------------------------------------------------------------------------

  /** Strictly before, in the order of strings. */
  predicate LexLess(a: string, b: string) {
    Sorting.StrLeq(a, b) && a != b
  }

  lemma LexStep(a: string, b: string)
    requires a != [] && b != []
    ensures LexLess(a, b) <==> a[0] < b[0] || (a[0] == b[0] && LexLess(a[1..], b[1..]))
  {
    assert Sorting.Codes(a)[1..] == Sorting.Codes(a[1..]) && Sorting.Codes(b)[1..] == Sorting.Codes(b[1..]);
    assert a == [a[0]] + a[1..] && b == [b[0]] + b[1..];
  }

  lemma LexAsymmetric(a: string, b: string)
    requires LexLess(a, b)
    ensures !LexLess(b, a)
  {
    Sorting.StrOrder();
  }

  lemma {:induction false} LexConcat(a: string, b: string, c: string, d: string)
    requires |a| == |b| && (LexLess(a, b) || (a == b && LexLess(c, d)))
    ensures LexLess(a + c, b + d)
  {
    if a == [] {
      assert a + c == c && b + d == d;
    } else {
      hide LexLess;
      assert (a + c)[1..] == a[1..] + c && (b + d)[1..] == b[1..] + d;
      LexStep(a, b);
      LexStep(a + c, b + d);
      if a[0] == b[0] { LexConcat(a[1..], b[1..], c, d); }
    }
  }

  lemma {:induction false} FixedOrder(m: nat, n: nat, w: nat)
    requires m < n < Pow10(w)
    ensures LexLess(Fixed(m, w), Fixed(n, w))
  {
    if w > 0 {
      var c, d := [DigitChar(m % 10)], [DigitChar(n % 10)];
      hide LexLess;
      if m / 10 < n / 10 { FixedOrder(m / 10, n / 10, w - 1); } else { LexStep(c, d); }
      LexConcat(Fixed(m / 10, w - 1), Fixed(n / 10, w - 1), [DigitChar(m % 10)], [DigitChar(n % 10)]);
    }
  }

  // ---------------------------------------------------------------------------
  // The timestamp
  // ---------------------------------------------------------------------------

  /** The first second of year 10000. */
  const YEAR_10000: nat := 253_402_300_800

  function DateNumber(t: Date): int {
    t.y * 10_000 + t.m * 100 + t.d
  }

  function ClockNumber(rem: nat): nat {
    rem / 3600 * 10_000 + rem % 3600 / 60 * 100 + rem % 60
  }

  lemma YearBound(days: nat)
    ensures 1970 <= CivilFromDays(days).y && (CivilFromDays(days).y < 10_000 <==> days < 2_932_897)
  {
    var t := CivilFromDays(days);
    YearIsCurrent(days);
    CivilIsCorrect(days);
    hide CivilFromDays, DaysBeforeYear, DaysBeforeMonth;
    DaysBeforeYearClosed(10_000);
    DayOfYearBound(t);
    if t.y < 10_000 {
      YearsAreOrdered(t.y, 10_000);
    } else if t.y > 10_000 {
      YearsAreOrdered(10_000, t.y);
    }
  }

  lemma SmallPowers()
    ensures Pow10(2) == 100 && Pow10(4) == 10_000 && Pow10(6) == 1_000_000 && Pow10(8) == 100_000_000
  {
    assert Pow10(1) == 10 && Pow10(3) == 1000 && Pow10(5) == 100_000 && Pow10(7) == 10_000_000;
  }

  lemma DateDigits(t: Date)
    requires ValidDate(t) && 0 <= t.y < 10_000
    ensures Padded(t.y, 4) + Padded(t.m, 2) + Padded(t.d, 2) == Fixed(DateNumber(t), 8) && DateNumber(t) < Pow10(8)
  {
    SmallPowers();
    hide Padded, Fixed, Pow10;
    PaddedIsFixed(t.y, 4);
    PaddedIsFixed(t.m, 2);
    PaddedIsFixed(t.d, 2);
    FixedJoins(t.y, 4, t.m, 2);
    FixedJoins(t.y * 100 + t.m, 6, t.d, 2);
  }

  lemma ClockDigitsOf(hh: nat, mm: nat, ss: nat)
    requires hh < 24 && mm < 60 && ss < 60
    ensures Padded(hh, 2) + Padded(mm, 2) + Padded(ss, 2) == Fixed(hh * 10_000 + mm * 100 + ss, 6)
    ensures hh * 10_000 + mm * 100 + ss < Pow10(6)
  {
    SmallPowers();
    hide Padded, Fixed, Pow10;
    PaddedIsFixed(hh, 2);
    PaddedIsFixed(mm, 2);
    PaddedIsFixed(ss, 2);
    FixedJoins(hh, 2, mm, 2);
    FixedJoins(hh * 100 + mm, 4, ss, 2);
  }

  lemma ClockDigits(rem: nat)
    requires rem < 86_400
    ensures Padded(rem / 3600, 2) + Padded(rem % 3600 / 60, 2) + Padded(rem % 60, 2) == Fixed(ClockNumber(rem), 6)
    ensures ClockNumber(rem) < Pow10(6)
  {
    hide Padded, Fixed, Pow10;
    ClockDigitsOf(rem / 3600, rem % 3600 / 60, rem % 60);
  }

  /** Before year 10000 the timestamp is date digits, `T`, clock digits, `Z`. */
  lemma TimestampShape(secs: nat)
    requires secs < YEAR_10000
    ensures var t := CivilFromDays(secs / 86_400);
      FormatAmzDate(secs) == Fixed(DateNumber(t), 8) + "T" + Fixed(ClockNumber(secs % 86_400), 6) + "Z"
      && 0 <= DateNumber(t) < Pow10(8) && ClockNumber(secs % 86_400) < Pow10(6)
  {
    hide CivilFromDays, Padded, Fixed, Pow10;
    var days, rem := secs / 86_400, secs % 86_400;
    var t := CivilFromDays(days);
    YearBound(days);
    CivilIsCorrect(days);
    DateDigits(t);
    ClockDigits(rem);
    var hh, mm, ss := Padded(rem / 3600, 2), Padded(rem % 3600 / 60, 2), Padded(rem % 60, 2);
    assert FormatAmzDate(secs) == Padded(t.y, 4) + Padded(t.m, 2) + Padded(t.d, 2) + "T" + (hh + mm + ss) + "Z";
  }

  /** The timestamp has sixteen characters exactly until the end of year 9999. */
  lemma TimestampLength(secs: nat)
    ensures |FormatAmzDate(secs)| == 16 <==> secs < YEAR_10000
  {
    if secs < YEAR_10000 {
      TimestampShape(secs);
    } else {
      var t := CivilFromDays(secs / 86_400);
      YearBound(secs / 86_400);
      hide CivilFromDays;
      SmallPowers();
      PaddedOverflows(t.y, 4);
      PaddedAtLeast(t.m);
      PaddedAtLeast(t.d);
      PaddedAtLeast(secs % 86_400 / 3600);
      PaddedAtLeast(secs % 86_400 % 3600 / 60);
      PaddedAtLeast(secs % 86_400 % 60);
    }
  }

  lemma PaddedAtLeast(n: nat)
    ensures |Padded(n, 2)| >= 2
  {}

  /** The first eight characters, which scope a signature, are the date alone. */
  lemma ScopeIsDate(secs: nat)
    requires secs < YEAR_10000
    ensures var t := CivilFromDays(secs / 86_400);
      |FormatAmzDate(secs)| == 16 && t.y >= 0
        && FormatAmzDate(secs)[..8] == Padded(t.y, 4) + Padded(t.m, 2) + Padded(t.d, 2)
  {
    hide CivilFromDays, Padded;
    TimestampShape(secs);
    var t := CivilFromDays(secs / 86_400);
    YearBound(secs / 86_400);
    CivilIsCorrect(secs / 86_400);
    DateDigits(t);
  }

  lemma ClockOrder(r: nat, s: nat)
    requires r < s < 86_400
    ensures ClockNumber(r) < ClockNumber(s)
  {
    hide ClockNumber;
    var p := ClockParts(r);
    var q := ClockParts(s);
    var (rh, rm, rs) := p;
    var (sh, sm, ss) := q;
    if rh < sh {
      assert 10_000 * rh + 10_000 <= 10_000 * sh;
    } else {
      assert rh == sh;
      assert rm <= sm;
    }
  }

  lemma Remainder60(k: nat, s: nat)
    requires s < 60
    ensures (60 * k + s) % 60 == s
  {}

  lemma ClockParts(r: nat) returns (parts: (nat, nat, nat))
    ensures var (h, m,
        s) := parts; r == 3600 * h + 60 * m + s && m < 60 && s < 60 && ClockNumber(r) == 10_000 * h + 100 * m + s
  {
    var rem := r % 3600;
    var (h, m, s) := (r / 3600, rem / 60, rem % 60);
    assert r == 3600 * h + rem && rem == 60 * m + s;
    Remainder60(60 * h + m, s);
    assert r == 60 * (60 * h + m) + s;
    parts := (h, m, s);
  }

  lemma DateOrder(s: Date, t: Date)
    requires ValidDate(s) && ValidDate(t) && Before(s, t)
    ensures DateNumber(s) < DateNumber(t)
  {}

  lemma LaterDayLaterDate(a: nat, b: nat)
    requires a < b
    ensures Before(CivilFromDays(a), CivilFromDays(b))
  {
    var s, t := CivilFromDays(a), CivilFromDays(b);
    CivilIsCorrect(a);
    CivilIsCorrect(b);
    hide CivilFromDays, DayNumber;
    if Before(t, s) { DayNumberMonotone(t, s); }
  }

  lemma LaterIsGreater(a: nat, b: nat)
    requires a < b < YEAR_10000
    ensures LexLess(FormatAmzDate(a), FormatAmzDate(b))
  {
    hide CivilFromDays, Padded, Fixed, Pow10, LexLess, FormatAmzDate, DateNumber, ClockNumber;
    TimestampShape(a);
    TimestampShape(b);
    var (da, db) := (a / 86_400, b / 86_400);
    var (ra, rb) := (a % 86_400, b % 86_400);
    var (s, t) := (CivilFromDays(da), CivilFromDays(db));
    var (x, y) := (Fixed(DateNumber(s), 8), Fixed(DateNumber(t), 8));
    var (u, v) := (Fixed(ClockNumber(ra), 6), Fixed(ClockNumber(rb), 6));
    assert FormatAmzDate(a) == x + ("T" + (u + "Z")) && FormatAmzDate(b) == y + ("T" + (v + "Z"));
    if da < db {
      LaterDayLaterDate(da, db);
      CivilIsCorrect(da);
      CivilIsCorrect(db);
      DateOrder(s, t);
      FixedOrder(DateNumber(s), DateNumber(t), 8);
      LexConcat(x, y, "T" + (u + "Z"), "T" + (v + "Z"));
    } else {
      assert da == db && ra < rb;
      ClockOrder(ra, rb);
      FixedOrder(ClockNumber(ra), ClockNumber(rb), 6);
      LexConcat(u, v, "Z", "Z");
      SameHead("T", u + "Z", v + "Z");
      SameHead(x, "T" + (u + "Z"), "T" + (v + "Z"));
    }
  }

  lemma SameHead(h: string, a: string, b: string)
    requires LexLess(a, b)
    ensures LexLess(h + a, h + b)
  {
    LexConcat(h, h, a, b);
  }

  /** Before year 10000, timestamps are in lexicographic order exactly as their times are in
      numeric order. */
  lemma TimestampOrder(a: nat, b: nat)
    requires a < YEAR_10000 && b < YEAR_10000
    ensures LexLess(FormatAmzDate(a), FormatAmzDate(b)) <==> a < b
  {
    hide FormatAmzDate;
    if a < b {
      LaterIsGreater(a, b);
    } else if b < a {
      LaterIsGreater(b, a);
      LexAsymmetric(FormatAmzDate(b), FormatAmzDate(a));
    }
  }
}
