/** Days since 1970-01-01 to a proleptic Gregorian date
    (crates/ducklink-host/src/sigv4.rs:98-110). */
module Calendar {
  datatype Date = Date(y: int, m: nat, d: nat)

  // ---------------------------------------------------------------------------
  // The calendar, defined without the algorithm
  // ---------------------------------------------------------------------------

  predicate Leap(y: int) {
    y % 4 == 0 && (y % 100 != 0 || y % 400 == 0)
  }

  function YearLength(y: int): nat {
    if Leap(y) then 366 else 365
  }

  function MonthLength(y: int, m: nat): nat
    requires 1 <= m <= 12
  {
    if m == 2 then (if Leap(y) then 29 else 28)
    else if m in {4, 6, 9, 11} then 30 else 31
  }

  predicate ValidDate(t: Date) {
    1 <= t.m <= 12 && 1 <= t.d <= MonthLength(t.y, t.m)
  }

  /** Days from 1970-01-01 to the first of January of year `y`, year by year. */
  function DaysBeforeYear(y: int): int
    decreases if y >= 1970 then y - 1970 else 1970 - y
  {
    if y == 1970 then 0
    else if y > 1970 then DaysBeforeYear(y - 1) + YearLength(y - 1)
    else DaysBeforeYear(y + 1) - YearLength(y)
  }

  /** Days from the first of January to the first of month `m`, month by month. */
  function DaysBeforeMonth(y: int, m: nat): nat
    requires 1 <= m <= 12
  {
    if m == 1 then 0 else DaysBeforeMonth(y, m - 1) + MonthLength(y, m - 1)
  }

  function DayNumber(t: Date): int
    requires ValidDate(t)
  {
    DaysBeforeYear(t.y) + DaysBeforeMonth(t.y, t.m) + t.d - 1
  }

  // ---------------------------------------------------------------------------
  // The algorithm
  // ---------------------------------------------------------------------------

  /** Rust's `/` on signed integers: it truncates toward zero. */
  function Quot(a: int, b: int): int
    requires b > 0
  {
    if a >= 0 then a / b else -((-a) / b)
  }

  function EraYear(doe: int): int {
    (doe - doe / 1460 + doe / 36_524 - doe / 146_096) / 365
  }

  /** The calendar date of day `doy` of the year that starts on the first of March of `y`. */
  function FromMarch(y: int, doy: nat): Date
    requires doy <= 365
  {
    var mp := (5 * doy + 2) / 153;
    MonthOfDay(doy);
    var d := doy - (153 * mp + 2) / 5 + 1;
    var m := if mp < 10 then mp + 3 else mp - 9;
    Date(if m <= 2 then y + 1 else y, m, d)
  }

  function CivilFromDays(days: int): Date {
    var z := days + 719_468;
    var era := Quot(if z >= 0 then z else z - 146_096, 146_097);
    var doe := z - era * 146_097;
    EraOf(days);
    var yoe := EraYear(doe);
    var doy := doe - (365 * yoe + yoe / 4 - yoe / 100);
    DayOfEraYear(doe);
    FromMarch(yoe + era * 400, doy)
  }

  /** The 400-year era of a day, counted from 0000-03-01, and the day within it. */
  function Era(days: int): int {
    (days + 719_468) / 146_097
  }

  function DayOfEra(days: int): (doe: nat)
    ensures doe < 146_097
  {
    (days + 719_468) % 146_097
  }

  /** Truncating division, corrected for negative numbers, is the floor. */
  lemma EraOf(days: int)
    ensures var z := days + 719_468;
      Quot(if z >= 0 then z else z - 146_096, 146_097) == Era(days) && z - Era(days) * 146_097 == DayOfEra(days)
  {}

  /** A day of the era by century, four-year block, year and day of the year, each year
      running from March to February with its leap day, if any, last. */
  datatype EraDay = EraDay(c: nat, q: nat, y: nat, doy: nat)

  predicate ValidEraDay(e: EraDay) {
    e.c <= 3 && e.q <= 24 && e.y <= 3 && e.doy <= 365
    && (e.doy == 365 ==> e.y == 3 && (e.q == 24 ==> e.c == 3))
  }

  function EraDayNumber(e: EraDay): nat {
    36_524 * e.c + 1461 * e.q + 365 * e.y + e.doy
  }

  function SplitEraDay(doe: nat): (e: EraDay)
    requires doe < 146_097
    ensures ValidEraDay(e) && EraDayNumber(e) == doe
  {
    var c := if doe == 146_096 then 3 else doe / 36_524;
    var r := doe - 36_524 * c;
    var q := r / 1461;
    var s := r - 1461 * q;
    var y := if s == 1460 then 3 else s / 365;
    EraDay(c, q, y, s - 365 * y)
  }

  lemma {:induction false} MultiplesOrdered(b: nat, x: nat, y: nat)
    ensures x < y ==> b * x + b <= b * y
    decreases y
  {
    if x < y {
      MultiplesOrdered(b, x, y - 1);
      assert b * y == b * (y - 1) + b;
    }
  }

  lemma QuotientIs(a: nat, b: nat, k: nat)
    requires b > 0 && b * k <= a < b * k + b
    ensures a / b == k
  {
    var q := a / b;
    assert a == b * q + a % b;
    MultiplesOrdered(b, q, k);
    MultiplesOrdered(b, k, q);
  }

  lemma CenturyTerm(e: EraDay, doe: nat)
    requires ValidEraDay(e) && doe == EraDayNumber(e) && doe < 146_097
    ensures doe / 36_524 - doe / 146_096 == e.c
  {
    if doe < 146_096 {
      assert 36_524 * e.c <= doe < 36_524 * e.c + 36_524;
      QuotientIs(doe, 36_524, e.c);
    }
  }

  function BlockTerm(e: EraDay): nat {
    25 * e.c + e.q + (if 24 * e.c + e.q + 365 * e.y + e.doy >= 1460 then 1 else 0)
  }

  lemma BlockTermIsQuotient(e: EraDay, doe: nat)
    requires ValidEraDay(e) && doe == EraDayNumber(e)
    ensures doe / 1460 == BlockTerm(e)
  {
    var k := BlockTerm(e);
    assert 1460 * k <= doe < 1460 * k + 1460;
    QuotientIs(doe, 1460, k);
  }

  /** The closed formulas find the year within the era and the day within the year. */
  lemma YearOfEra(doe: nat)
    requires doe < 146_097
    ensures var e := SplitEraDay(doe);
      EraYear(doe) == 100 * e.c + 4 * e.q + e.y
  {
    var e := SplitEraDay(doe);
    CenturyTerm(e, doe);
    BlockTermIsQuotient(e, doe);
    var n, k := doe - BlockTerm(e) + e.c, 100 * e.c + 4 * e.q + e.y;
    assert 365 * k <= n < 365 * k + 365;
    QuotientIs(n, 365, k);
  }

  lemma DayOfEraYear(doe: nat)
    requires doe < 146_097
    ensures var yoe := EraYear(doe);
      yoe >= 0 && doe - (365 * yoe + yoe / 4 - yoe / 100) == SplitEraDay(doe).doy
  {
    var e := SplitEraDay(doe);
    YearOfEra(doe);
    hide SplitEraDay, EraYear;
    var yoe := 100 * e.c + 4 * e.q + e.y;
    Quotient4(yoe, 25 * e.c + e.q, e.y);
    Quotient100(yoe, e.c, 4 * e.q + e.y);
  }

  lemma Quotient4(a: int, k: int, r: int)
    requires a == 4 * k + r && 0 <= r < 4
    ensures a / 4 == k
  {}

  lemma Quotient100(a: int, k: int, r: int)
    requires a == 100 * k + r && 0 <= r < 100
    ensures a / 100 == k
  {}

  lemma Quotient400(a: int, k: int, r: int)
    requires a == 400 * k + r && 0 <= r < 400
    ensures a / 400 == k
  {}

  // ---------------------------------------------------------------------------
  // The date is valid and its day number is the given day count
  // ---------------------------------------------------------------------------

  /** The recursive count of days before a year has a closed form. */
  lemma {:induction false} DaysBeforeYearClosed(y: int)
    ensures DaysBeforeYear(y) == 365 * (y - 1970) + (y - 1) / 4 - (y - 1) / 100 + (y - 1) / 400 - 477
    decreases if y >= 1970 then y - 1970 else 1970 - y
  {
    if y > 1970 {
      DaysBeforeYearClosed(y - 1);
      LeapCount(y - 1);
    } else if y < 1970 {
      DaysBeforeYearClosed(y + 1);
      LeapCount(y);
    }
  }

  lemma LeapCount(y: int)
    ensures y / 4 - y / 100 + y / 400 == (y - 1) / 4 - (y - 1) / 100 + (y - 1) / 400 + if Leap(y) then 1 else 0
  {
    QuotientSteps4(y);
    QuotientSteps100(y);
    QuotientSteps400(y);
    MultiplesNest(y);
  }

  lemma QuotientSteps4(y: int)
    ensures y / 4 == (y - 1) / 4 + if y % 4 == 0 then 1 else 0
  {}

  lemma QuotientSteps100(y: int)
    ensures y / 100 == (y - 1) / 100 + if y % 100 == 0 then 1 else 0
  {}

  lemma QuotientSteps400(y: int)
    ensures y / 400 == (y - 1) / 400 + if y % 400 == 0 then 1 else 0
  {}

  lemma MultiplesNest(y: int)
    ensures (y % 400 == 0 ==> y % 100 == 0) && (y % 100 == 0 ==> y % 4 == 0)
  {
    if y % 400 == 0 {
      assert y == 400 * (y / 400);
      Multiple100(4 * (y / 400));
    }
    if y % 100 == 0 {
      assert y == 100 * (y / 100);
      Multiple4(25 * (y / 100));
    }
  }

  lemma Multiple100(k: int)
    ensures 100 * k % 100 == 0
  {}

  lemma Multiple4(k: int)
    ensures 4 * k % 4 == 0
  {}

  lemma MonthTable(y: int)
    ensures DaysBeforeMonth(y, 1) == 0 && DaysBeforeMonth(y, 2) == 31
    ensures var f := if Leap(y) then 60 else 59;
      DaysBeforeMonth(y, 3) == f && DaysBeforeMonth(y, 4) == f + 31 && DaysBeforeMonth(y, 5) == f + 61
      && DaysBeforeMonth(y, 6) == f + 92 && DaysBeforeMonth(y, 7) == f + 122 && DaysBeforeMonth(y, 8) == f + 153
      && DaysBeforeMonth(y, 9) == f + 184 && DaysBeforeMonth(y, 10) == f + 214 && DaysBeforeMonth(y, 11) == f + 245
      && DaysBeforeMonth(y, 12) == f + 275
  {
    assert DaysBeforeMonth(y, 2) == 31;
    assert DaysBeforeMonth(y, 3) == 31 + MonthLength(y, 2);
    assert DaysBeforeMonth(y, 4) == DaysBeforeMonth(y, 3) + 31;
    assert DaysBeforeMonth(y, 5) == DaysBeforeMonth(y, 4) + 30;
    assert DaysBeforeMonth(y, 6) == DaysBeforeMonth(y, 5) + 31;
    assert DaysBeforeMonth(y, 7) == DaysBeforeMonth(y, 6) + 30;
    assert DaysBeforeMonth(y, 8) == DaysBeforeMonth(y, 7) + 31;
    assert DaysBeforeMonth(y, 9) == DaysBeforeMonth(y, 8) + 31;
    assert DaysBeforeMonth(y, 10) == DaysBeforeMonth(y, 9) + 30;
    assert DaysBeforeMonth(y, 11) == DaysBeforeMonth(y, 10) + 31;
    assert DaysBeforeMonth(y, 12) == DaysBeforeMonth(y, 11) + 30;
  }

  /** The 153-day rule: the month, counted from March, and the day of the month. */
  lemma MonthOfDay(doy: nat)
    requires doy <= 365
    ensures var mp := (5 * doy + 2) / 153;
      mp <= 11 && (153 * mp + 2) / 5 <= doy && doy - (153 * mp + 2) / 5 <= 30
      && (doy - (153 * mp + 2) / 5 == 30 ==> mp in {0, 2, 4, 5, 7, 9, 10}) && (mp == 11 ==> doy - 337 <= 28)
  {
    var mp := (5 * doy + 2) / 153;
    assert 153 * mp <= 5 * doy + 2 < 153 * mp + 153;
  }

  /** The March-based year of a day, and the day within it. */
  function MarchYear(days: int): int {
    var e := SplitEraDay(DayOfEra(days));
    Era(days) * 400 + (100 * e.c + 4 * e.q + e.y)
  }

  function MarchDay(days: int): nat {
    SplitEraDay(DayOfEra(days)).doy
  }

  lemma CivilUnfolded(days: int)
    ensures MarchDay(days) <= 365 && CivilFromDays(days) == FromMarch(MarchYear(days), MarchDay(days))
  {
    hide SplitEraDay, FromMarch, Quot, EraYear, Era, DayOfEra;
    EraOf(days);
    YearOfEra(DayOfEra(days));
    DayOfEraYear(DayOfEra(days));
  }

  /** A March-based year has its 366th day exactly when the next calendar year is leap. */
  lemma MarchLeap(days: int)
    ensures MarchDay(days) <= 365 && (MarchDay(days) == 365 ==> Leap(MarchYear(days) + 1))
  {
    hide SplitEraDay;
    var e, n := SplitEraDay(DayOfEra(days)), Era(days);
    var y := MarchYear(days) + 1;
    if e.doy == 365 {
      assert y == 4 * (100 * n + 25 * e.c + e.q + 1);
      if e.q == 24 { assert y == 400 * (n + 1); }
      else { assert y % 100 == 4 * e.q + 4; }
    }
  }

  /** The days before a March-based year, against the independent count. */
  lemma MarchYearStartFrom(n: int, e: EraDay, y: int)
    requires ValidEraDay(e) && y == 400 * n + 100 * e.c + 4 * e.q + e.y
    ensures DaysBeforeYear(y) + DaysBeforeMonth(y, 3) + e.doy == 146_097 * n + EraDayNumber(e) - 719_468
  {
    hide DaysBeforeYear, DaysBeforeMonth, Leap;
    MonthTable(y);
    DaysBeforeYearClosed(y);
    LeapCount(y);
    Quotient4(y, 100 * n + 25 * e.c + e.q, e.y);
    Quotient100(y, 4 * n + e.c, 4 * e.q + e.y);
    Quotient400(y, n, 100 * e.c + 4 * e.q + e.y);
  }

  lemma MarchYearStart(days: int)
    ensures days == DaysBeforeYear(MarchYear(days)) + DaysBeforeMonth(MarchYear(days), 3) + MarchDay(days)
  {
    hide SplitEraDay, DaysBeforeYear, DaysBeforeMonth, Era, DayOfEra;
    EraOf(days);
    MarchYearStartFrom(Era(days), SplitEraDay(DayOfEra(days)), MarchYear(days));
  }

  /** The 153-day rule against the month table. */
  lemma MarchTable(y: int, mp: nat)
    requires mp <= 11
    ensures mp < 10 ==> DaysBeforeMonth(y, mp + 3) == DaysBeforeMonth(y, 3) + (153 * mp + 2) / 5
    ensures mp >= 10 ==> YearLength(y) + DaysBeforeMonth(y + 1, mp - 9) == DaysBeforeMonth(y, 3) + (153 * mp + 2) / 5
  {
    hide DaysBeforeMonth;
    MonthTable(y);
    MonthTable(y + 1);
  }

  lemma NextYearStart(y: int)
    ensures DaysBeforeYear(y + 1) == DaysBeforeYear(y) + YearLength(y)
  {
    hide DaysBeforeYear;
    DaysBeforeYearClosed(y);
    DaysBeforeYearClosed(y + 1);
    LeapCount(y);
  }

  lemma FromMarchIsCorrect(y: int, doy: nat)
    requires doy <= 365 && (doy == 365 ==> Leap(y + 1))
    ensures var t := FromMarch(y, doy);
      ValidDate(t) && DayNumber(t) == DaysBeforeYear(y) + DaysBeforeMonth(y, 3) + doy
  {
    hide DaysBeforeYear, DaysBeforeMonth;
    var mp := (5 * doy + 2) / 153;
    MonthOfDay(doy);
    MarchTable(y, mp);
    NextYearStart(y);
    assert mp == 11 && doy - (153 * mp + 2) / 5 == 28 ==> doy == 365;
  }

  /** For every day count, past or future, the algorithm names a valid date whose day number
      is that count. */
  lemma CivilIsCorrect(days: int)
    ensures ValidDate(CivilFromDays(days)) && DayNumber(CivilFromDays(days)) == days
  {
    hide CivilFromDays, FromMarch, DayNumber, ValidDate, DaysBeforeYear, DaysBeforeMonth, MarchYear, MarchDay;
    CivilUnfolded(days);
    MarchLeap(days);
    MarchYearStart(days);
    FromMarchIsCorrect(MarchYear(days), MarchDay(days));
  }

  // ---------------------------------------------------------------------------
  // Dates and day numbers correspond one to one, in order
  // ---------------------------------------------------------------------------

  predicate Before(s: Date, t: Date) {
    s.y < t.y || (s.y == t.y && (s.m < t.m || (s.m == t.m && s.d < t.d)))
  }

  lemma {:induction false} YearsAreOrdered(x: int, y: int)
    requires x < y
    ensures DaysBeforeYear(x) + YearLength(x) <= DaysBeforeYear(y)
    decreases y - x
  {
    DaysBeforeYearClosed(y);
    DaysBeforeYearClosed(y - 1);
    LeapCount(y - 1);
    assert DaysBeforeYear(y) == DaysBeforeYear(y - 1) + YearLength(y - 1);
    if x < y - 1 { YearsAreOrdered(x, y - 1); }
  }

  lemma {:induction false} MonthsAreOrdered(y: int, m: nat, n: nat)
    requires 1 <= m < n <= 12
    ensures DaysBeforeMonth(y, m) + MonthLength(y, m) <= DaysBeforeMonth(y, n)
  {
    if m < n - 1 { MonthsAreOrdered(y, m, n - 1); }
  }

  lemma DayOfYearBound(t: Date)
    requires ValidDate(t)
    ensures DaysBeforeMonth(t.y, t.m) + t.d <= YearLength(t.y)
  {
    if t.m < 12 { MonthsAreOrdered(t.y, t.m, 12); }
    MonthTable(t.y);
  }

  lemma DayNumberMonotone(s: Date, t: Date)
    requires ValidDate(s) && ValidDate(t) && Before(s, t)
    ensures DayNumber(s) < DayNumber(t)
  {
    if s.y < t.y {
      DayOfYearBound(s);
      YearsAreOrdered(s.y, t.y);
    } else if s.m < t.m {
      MonthsAreOrdered(s.y, s.m, t.m);
    }
  }

  /** The algorithm inverts the day number on every valid date: a bijection. */
  lemma CivilInvertsDayNumber(t: Date)
    requires ValidDate(t)
    ensures CivilFromDays(DayNumber(t)) == t
  {
    var s := CivilFromDays(DayNumber(t));
    CivilIsCorrect(DayNumber(t));
    if Before(s, t) {
      DayNumberMonotone(s, t);
    } else if Before(t, s) {
      DayNumberMonotone(t, s);
    }
  }
}
