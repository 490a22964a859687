/**
 * Calendar dates as Python's `datetime` handles them: proleptic Gregorian
 * dates numbered by their ordinal (0001-01-01 is day 1), `weekday()`,
 * the ordinal <-> year/month/day conversions, and the
 * `strftime("%m/%d/%Y %I:%M %p")` rendering used for delivery dates.
 */
module Calendar {
  import opened Decimal

  /** Ordinal of 9999-12-31, the last day a Python `datetime` can hold. */
  const MaxOrdinal: int := 3652059

  /** A day that a Python `datetime` can represent. */
  type Ordinal = n: int | 1 <= n <= MaxOrdinal witness 1

  type Hour = h: int | 0 <= h < 24
  type Minute = m: int | 0 <= m < 60

  /** A wall-clock time of day, as `strptime(..., "%H:%M")` reads it. */
  datatype TimeOfDay = TimeOfDay(hour: Hour, minute: Minute)

  datatype Date = Date(year: int, month: int, day: int)

  predicate IsLeap(y: int)
  {
    y % 4 == 0 && (y % 100 != 0 || y % 400 == 0)
  }

  function DaysInMonth(y: int, m: int): (n: int)
    requires 1 <= m <= 12
    ensures 28 <= n <= 31
  {
    MonthLength(m, IsLeap(y))
  }

  /** The length of month `m` in a leap or a common year. */
  function MonthLength(m: int, leap: bool): (n: int)
    requires 1 <= m <= 12
    ensures 28 <= n <= 31
    ensures m < 12 ==> n == DaysBeforeMonthIn(m + 1, leap) - DaysBeforeMonthIn(m, leap)
    ensures m == 12 ==> n + DaysBeforeMonthIn(m, leap) == if leap then 366 else 365
  {
    if m == 2 then (if leap then 29 else 28)
    else if m == 4 || m == 6 || m == 9 || m == 11 then 30
    else 31
  }

  /** Days in the months before month `m` of a year (leap or not). */
  function DaysBeforeMonthIn(m: int, leap: bool): (n: int)
    requires 1 <= m <= 12
    ensures 0 <= n <= 335
  {
    var base :=
      if m == 1 then 0 else if m == 2 then 31 else if m == 3 then 59
      else if m == 4 then 90 else if m == 5 then 120 else if m == 6 then 151
      else if m == 7 then 181 else if m == 8 then 212 else if m == 9 then 243
      else if m == 10 then 273 else if m == 11 then 304 else 334;
    if m > 2 && leap then base + 1 else base
  }

  /** A real calendar day within `datetime`'s range of years 1 to 9999. */
  predicate ValidDate(d: Date)
  {
    1 <= d.year <= 9999 && 1 <= d.month <= 12 && 1 <= d.day <= DaysInMonth(d.year, d.month)
  }

  type CivilDate = d: Date | ValidDate(d) witness Date(1, 1, 1)

  /** Days in the years before year `y`. */
  function DaysBeforeYear(y: int): int
    requires 1 <= y
  {
    var p := y - 1;
    p * 365 + p / 4 - p / 100 + p / 400
  }

  lemma YearLength(y: int)
    requires 1 <= y
    ensures DaysBeforeYear(y + 1) == DaysBeforeYear(y) + if IsLeap(y) then 366 else 365
  {
    DivStep(y, 4);
    DivStep(y, 100);
    DivStep(y, 400);
    DivisorsNest(y);
    var p := y - 1;
    assert DaysBeforeYear(y + 1) == y * 365 + y / 4 - y / 100 + y / 400;
    assert DaysBeforeYear(y) == p * 365 + p / 4 - p / 100 + p / 400;
  }

  /** A multiple of 400 is one of 100, and a multiple of 100 one of 4. */
  lemma DivisorsNest(y: int)
    ensures y % 400 == 0 ==> y % 100 == 0
    ensures y % 100 == 0 ==> y % 4 == 0
  {
    if y % 400 == 0 {
      DivUnique(y, 100, 4 * (y / 400), 0);
    }
    if y % 100 == 0 {
      DivUnique(y, 4, 25 * (y / 100), 0);
    }
  }

  /** Going from `y - 1` to `y` raises the quotient by one exactly when `d` divides `y`. */
  lemma DivStep(y: int, d: int)
    requires 1 <= y && 0 < d
    ensures y / d == (y - 1) / d + (if y % d == 0 then 1 else 0)
  {
    var q, r := (y - 1) / d, (y - 1) % d;
    assert y == q * d + (r + 1);
    if r + 1 < d {
      DivUnique(y, d, q, r + 1);
    } else {
      assert y == (q + 1) * d + 0;
      DivUnique(y, d, q + 1, 0);
    }
  }

  /** Quotient and remainder are the unique `q`, `r` with `x == q * n + r` and `0 <= r < n`. */
  lemma DivUnique(x: int, n: int, q: int, r: int)
    requires 0 < n && x == q * n + r && 0 <= r < n
    ensures x / n == q && x % n == r
  {
    var q', r' := x / n, x % n;
    assert x == q' * n + r';
    var d := q - q';
    assert d * n == r' - r;
    if d >= 1 {
      MulAtLeast(d, n);
      assert false;
    } else if d <= -1 {
      MulAtLeast(-d, n);
      assert false;
    }
  }

  lemma MulAtLeast(d: int, n: int)
    requires 1 <= d && 0 < n
    ensures n <= d * n
  {
  }


  lemma {:induction false} DaysBeforeYearMonotone(a: int, b: int)
    requires 1 <= a <= b
    ensures DaysBeforeYear(a) <= DaysBeforeYear(b)
    decreases b - a
  {
    if a < b {
      YearLength(a);
      DaysBeforeYearMonotone(a + 1, b);
    }
  }

  /** `date.toordinal()`. */
  function ToOrdinal(d: CivilDate): (n: Ordinal)
  {
    DaysBeforeYearMonotone(1, d.year);
    YearLength(d.year);
    DaysBeforeYearMonotone(d.year + 1, 10000);
    assert DaysBeforeYear(10000) == MaxOrdinal;
    DaysBeforeYear(d.year) + DaysBeforeMonthIn(d.month, IsLeap(d.year)) + d.day
  }

  /** A day of a year lies within the year: at most 365 days in, 366 in a leap year. */
  lemma DayOfYearBound(d: CivilDate)
    ensures DaysBeforeMonthIn(d.month, IsLeap(d.year)) + d.day <= if IsLeap(d.year) then 366 else 365
  {
    var leap := IsLeap(d.year);
    if d.month < 12 {
      assert DaysBeforeMonthIn(d.month + 1, leap) <= DaysBeforeMonthIn(12, leap);
    }
  }

  /** A later real date has a larger ordinal. */
  lemma ToOrdinalMonotone(lo: CivilDate, hi: CivilDate)
    requires IsAfter(hi, lo)
    ensures ToOrdinal(lo) < ToOrdinal(hi)
  {
    var leap := IsLeap(lo.year);
    if lo.year < hi.year {
      DayOfYearBound(lo);
      YearLength(lo.year);
      DaysBeforeYearMonotone(lo.year + 1, hi.year);
    } else if lo.month < hi.month {
      assert DaysBeforeMonthIn(lo.month + 1, leap) <= DaysBeforeMonthIn(hi.month, leap);
    }
  }

  /** Distinct real dates have distinct ordinals. */
  lemma ToOrdinalInjective(d1: CivilDate, d2: CivilDate)
    ensures d1 != d2 ==> ToOrdinal(d1) != ToOrdinal(d2)
  {
    if d1 != d2 {
      if IsAfter(d2, d1) {
        ToOrdinalMonotone(d1, d2);
      } else {
        ToOrdinalMonotone(d2, d1);
      }
    }
  }

  /** `date.fromordinal(d.toordinal()) == d`: the conversions are inverse in both directions. */
  lemma OrdinalRoundTrip(d: CivilDate)
    ensures FromOrdinal(ToOrdinal(d)) == d
  {
    ToOrdinalInjective(FromOrdinal(ToOrdinal(d)), d);
  }

  /** `date.fromordinal(n)`: the year, month and day of an ordinal, by the 400/100/4/1-year cycles. */
  function FromOrdinal(n: Ordinal): (d: Date)
    ensures ValidDate(d) && ToOrdinal(d) == n
  {
    var m0 := n - 1;
    var n400, r400 := m0 / 146097, m0 % 146097;
    var n100, r100 := r400 / 36524, r400 % 36524;
    var n4, r4 := r100 / 1461, r100 % 1461;
    var n1, r1 := r4 / 365, r4 % 365;
    CycleBounds(m0);
    CycleDigits(m0);
    CycleDate(n400, n100, n4, n1, r1)
  }

  /**
   * The date `a` 400-year cycles, `b` centuries, `c` 4-year cycles, `e`
   * years and `r` days after 0001-01-01; `b == 4` or `e == 4` is the last
   * day of the leap year that ends the cycle before.
   */
  function CycleDate(a: int, b: int, c: int, e: int, r: int): (d: Date)
    requires 0 <= a && 0 <= b <= 4 && 0 <= c <= 24 && 0 <= e <= 4 && 0 <= r < 365
    requires b == 4 ==> c == 0 && e == 0 && r == 0
    requires e == 4 ==> r == 0 && c < 24 && b < 4
    requires a <= 24 && (a == 24 ==> b <= 3) && (a == 24 && b == 3 ==> c <= 24)
    requires a == 24 && b == 3 && c == 24 ==> e <= 2
    ensures ValidDate(d) && ToOrdinal(d) == 146097 * a + 36524 * b + 1461 * c + 365 * e + r + 1
  {
    var year := a * 400 + 1 + b * 100 + c * 4 + e;
    if e == 4 || b == 4 then
      YearEndOrdinal(year - 1, a, if b == 4 then 3 else b, if b == 4 then 24 else c);
      Date(year - 1, 12, 31)
    else
      var leap := e == 3 && (c != 24 || b == 3);
      var md := MonthAndDay(r, leap);
      InYearOrdinal(year, a, b, c, e, r, md);
      Date(year, md.0, md.1)
  }

  /** The last day of the leap year that ends 400-year cycle `a`, century `b` and 4-year cycle `c`. */
  lemma YearEndOrdinal(y: int, a: int, b: int, c: int)
    requires 0 <= a && 0 <= b <= 3 && 0 <= c <= 24 && (c != 24 || b == 3)
    requires y == 400 * a + 100 * b + 4 * c + 4 <= 9999
    ensures ValidDate(Date(y, 12, 31)) && ToOrdinal(Date(y, 12, 31)) == 146097 * a + 36524 * b + 1461 * c + 1461
  {
    CycleYearStart(a, b, c, 3);
  }

  /** Day `md.1` of month `md.0` of the year after `a`, `b`, `c` and `e` cycles, as day `r` of that year. */
  lemma InYearOrdinal(y: int, a: int, b: int, c: int, e: int, r: int, md: (int, int))
    requires 0 <= a && 0 <= b <= 3 && 0 <= c <= 24 && 0 <= e <= 3 && 0 <= r < 365
    requires y == 400 * a + 100 * b + 4 * c + e + 1 <= 9999
    requires var leap := e == 3 && (c != 24 || b == 3);
      1 <= md.0 <= 12 && 1 <= md.1 <= MonthLength(md.0, leap)
      && r == DaysBeforeMonthIn(md.0, leap) + md.1 - 1
    ensures ValidDate(Date(y, md.0, md.1))
    ensures ToOrdinal(Date(y, md.0, md.1)) == 146097 * a + 36524 * b + 1461 * c + 365 * e + r + 1
  {
    CycleYearStart(a, b, c, e);
  }

  /**
   * An ordinal count of days from day 0 split into whole 400-, 100-, 4- and
   * 1-year cycles and the day of the year; the two boundary cases are the
   * last day of a leap year.
   */
  lemma CycleDigits(m0: int)
    requires 0 <= m0
    ensures var r400 := m0 % 146097;
      var r100 := r400 % 36524;
      var r4 := r100 % 1461;
      var n400, n100, n4, n1, r1 := m0 / 146097, r400 / 36524, r100 / 1461, r4 / 365, r4 % 365;
      && m0 == 146097 * n400 + 36524 * n100 + 1461 * n4 + 365 * n1 + r1
      && 0 <= n400 && 0 <= n100 <= 4 && 0 <= n4 <= 24 && 0 <= n1 <= 4 && 0 <= r1 < 365
      && (n100 == 4 ==> n4 == 0 && n1 == 0 && r1 == 0)
      && (n1 == 4 ==> r1 == 0 && n4 < 24 && n100 < 4)
  {
  }

  /**
   * Year `400a + 100b + 4c + e + 1` starts `146097a + 36524b + 1461c + 365e`
   * days after day 0, and it is a leap year exactly when it ends a 4-year
   * cycle that does not end a century, or ends a 400-year cycle.
   */
  lemma CycleYearStart(a: int, b: int, c: int, e: int)
    requires 0 <= a && 0 <= b <= 3 && 0 <= c <= 24 && 0 <= e <= 3
    ensures DaysBeforeYear(400 * a + 100 * b + 4 * c + e + 1) == 146097 * a + 36524 * b + 1461 * c + 365 * e
    ensures IsLeap(400 * a + 100 * b + 4 * c + e + 1) <==> e == 3 && (c != 24 || b == 3)
  {
    var p := 400 * a + 100 * b + 4 * c + e;
    DivUnique(p, 4, 100 * a + 25 * b + c, e);
    DivUnique(p, 100, 4 * a + b, 4 * c + e);
    DivUnique(p, 400, a, 100 * b + 4 * c + e);
    CycleYearLeap(a, b, c, e);
  }

  lemma CycleYearLeap(a: int, b: int, c: int, e: int)
    requires 0 <= a && 0 <= b <= 3 && 0 <= c <= 24 && 0 <= e <= 3
    ensures IsLeap(400 * a + 100 * b + 4 * c + e + 1) <==> e == 3 && (c != 24 || b == 3)
  {
    var y := 400 * a + 100 * b + 4 * c + e + 1;
    if e == 3 {
      DivUnique(y, 4, 100 * a + 25 * b + c + 1, 0);
    } else {
      DivUnique(y, 4, 100 * a + 25 * b + c, e + 1);
    }
    if 4 * c + e == 99 {
      DivUnique(y, 100, 4 * a + b + 1, 0);
    } else {
      DivUnique(y, 100, 4 * a + b, 4 * c + e + 1);
    }
    if 100 * b + 4 * c + e == 399 {
      DivUnique(y, 400, a + 1, 0);
    } else {
      DivUnique(y, 400, a, 100 * b + 4 * c + e + 1);
    }
  }

  /** The month and the day of the month of day `r` (from 0) of a year. */
  function MonthAndDay(r: int, leap: bool): (md: (int, int))
    requires 0 <= r < 365
    ensures 1 <= md.0 <= 12 && 1 <= md.1 <= MonthLength(md.0, leap)
    ensures r == DaysBeforeMonthIn(md.0, leap) + md.1 - 1
  {
    var month := (r + 50) / 32;
    MonthEstimate(r, leap);
    var preceding := DaysBeforeMonthIn(month, leap);
    if preceding > r then (month - 1, r - DaysBeforeMonthIn(month - 1, leap) + 1)
    else (month, r - preceding + 1)
  }

  /** The last ordinal, 9999-12-31, is day 364 of year 3 of the fourth 4-year cycle of century 3 of 400-year cycle 24. */
  lemma CycleBounds(m0: int)
    requires 0 <= m0 < MaxOrdinal
    ensures var r400 := m0 % 146097;
      var r100 := r400 % 36524;
      var n400, n100, n4, n1 := m0 / 146097, r400 / 36524, r100 / 1461, (r100 % 1461) / 365;
      && n400 <= 24
      && (n400 == 24 ==> n100 <= 3)
      && (n400 == 24 && n100 == 3 ==> n4 <= 24)
      && (n400 == 24 && n100 == 3 && n4 == 24 ==> n1 <= 2)
  {
    var r400 := m0 % 146097;
    var r100 := r400 % 36524;
    assert m0 / 146097 == 24 ==> r400 == m0 - 24 * 146097;
    assert r400 / 36524 == 3 ==> r100 == r400 - 3 * 36524;
  }

  /** The month guess `(r + 50) / 32` of `_ord2ymd` is the right month or one too many. */
  lemma MonthEstimate(r: int, leap: bool)
    requires 0 <= r < 365
    ensures 1 <= (r + 50) / 32 <= 12
    ensures DaysBeforeMonthIn((r + 50) / 32, leap) > r ==>
      2 <= (r + 50) / 32 &&
      0 <= r - DaysBeforeMonthIn((r + 50) / 32 - 1, leap) < MonthLength((r + 50) / 32 - 1, leap)
    ensures DaysBeforeMonthIn((r + 50) / 32, leap) <= r ==>
      r - DaysBeforeMonthIn((r + 50) / 32, leap) < MonthLength((r + 50) / 32, leap)
  {
  }

  /** `datetime.weekday()`: 0 is Monday, 5 Saturday, 6 Sunday. */
  function Weekday(n: int): (w: int)
    ensures 0 <= w < 7
  {
    (n + 6) % 7
  }

  /** The test `weekday() in [5, 6]`. */
  predicate IsWeekend(n: int)
  {
    Weekday(n) >= 5
  }

  /** The hour as `%I` shows it: 12 for midnight and noon, otherwise 1 to 11. */
  function Clock12(h: Hour): (c: int)
    ensures 1 <= c <= 12
    ensures c % 12 == h % 12
  {
    if h % 12 == 0 then 12 else h % 12
  }

  /** Zero-padded two-digit rendering, as `%m`, `%d`, `%I` and `%M` print. */
  function TwoDigits(v: int): (s: string)
    requires 0 <= v < 100
    ensures |s| == 2 && DigitPair(s, 0)
    ensures DigitValue(s[0]) * 10 + DigitValue(s[1]) == v
  {
    [DigitChar(v / 10), DigitChar(v % 10)]
  }

  /** Zero-padded four-digit rendering of a year. */
  function FourDigits(v: int): (s: string)
    requires 0 <= v < 10000
    ensures |s| == 4 && DigitPair(s, 0) && DigitPair(s, 2)
    ensures DigitValue(s[0]) * 1000 + DigitValue(s[1]) * 100 + DigitValue(s[2]) * 10 + DigitValue(s[3]) == v
  {
    TwoDigits(v / 100) + TwoDigits(v % 100)
  }

  /** `s[i]` and `s[i + 1]` are both decimal digit characters. */
  predicate DigitPair(s: string, i: nat)
  {
    i + 2 <= |s| && IsDigit(s[i]) && IsDigit(s[i + 1])
  }

  /** The value of the two characters at `s[i]`, `s[i + 1]` read as decimal digits. */
  function ReadTwo(s: string, i: nat): int
    requires i + 2 <= |s|
  {
    DigitValue(s[i]) * 10 + DigitValue(s[i + 1])
  }

  /** `strftime("%m/%d/%Y")`: month, day and year at fixed positions. */
  function DatePart(d: Date): (s: string)
    requires 1 <= d.year <= 9999 && 1 <= d.month <= 12 && 1 <= d.day <= 31
    ensures |s| == 10 && s[2] == '/' && s[5] == '/'
    ensures DigitPair(s, 0) && DigitPair(s, 3) && DigitPair(s, 6) && DigitPair(s, 8)
    ensures ReadTwo(s, 0) == d.month && ReadTwo(s, 3) == d.day
    ensures ReadTwo(s, 6) * 100 + ReadTwo(s, 8) == d.year
  {
    var mo, dd, y := TwoDigits(d.month), TwoDigits(d.day), FourDigits(d.year);
    [mo[0], mo[1], '/', dd[0], dd[1], '/', y[0], y[1], y[2], y[3]]
  }

  /** `strftime("%I:%M %p")`: the hour on a 12-hour clock, the minutes, and AM or PM. */
  function TimePart(t: TimeOfDay): (s: string)
    ensures |s| == 8 && s[2] == ':' && s[5] == ' '
    ensures DigitPair(s, 0) && DigitPair(s, 3)
    ensures 1 <= ReadTwo(s, 0) <= 12 && ReadTwo(s, 0) % 12 == t.hour % 12
    ensures ReadTwo(s, 3) == t.minute
    ensures s[6] == (if t.hour < 12 then 'A' else 'P') && s[7] == 'M'
  {
    var h, mi := TwoDigits(Clock12(t.hour)), TwoDigits(t.minute);
    [h[0], h[1], ':', mi[0], mi[1], ' ', if t.hour < 12 then 'A' else 'P', 'M']
  }

  /**
   * `strftime("%m/%d/%Y %I:%M %p")` of date `d` at time `t`: the month, day
   * and year can be read back from fixed positions, the hour is shown on a
   * 12-hour clock (01 to 12) with AM before noon and PM from noon on, and
   * the minutes are `t`'s.
   */
  function FormatDate(d: Date, t: TimeOfDay): (s: string)
    requires 1 <= d.year <= 9999 && 1 <= d.month <= 12 && 1 <= d.day <= 31
    ensures |s| == 19
    ensures s[2] == '/' && s[5] == '/' && s[10] == ' ' && s[13] == ':' && s[16] == ' '
    ensures DigitPair(s, 0) && DigitPair(s, 3) && DigitPair(s, 6) && DigitPair(s, 8)
    ensures DigitPair(s, 11) && DigitPair(s, 14)
    ensures ReadTwo(s, 0) == d.month && ReadTwo(s, 3) == d.day
    ensures ReadTwo(s, 6) * 100 + ReadTwo(s, 8) == d.year
    ensures 1 <= ReadTwo(s, 11) <= 12 && ReadTwo(s, 11) % 12 == t.hour % 12
    ensures ReadTwo(s, 14) == t.minute
    ensures s[17] == (if t.hour < 12 then 'A' else 'P') && s[18] == 'M'
  {
    DatePart(d) + " " + TimePart(t)
  }

  /** The same rendering of the day with ordinal `n`. */
  function FormatDateTime(n: Ordinal, t: TimeOfDay): (s: string)
    ensures |s| == 19
    ensures s[2] == '/' && s[5] == '/' && s[10] == ' ' && s[13] == ':' && s[16] == ' '
    ensures DigitPair(s, 0) && DigitPair(s, 3) && DigitPair(s, 6) && DigitPair(s, 8)
    ensures DigitPair(s, 11) && DigitPair(s, 14)
    ensures ReadTwo(s, 0) == FromOrdinal(n).month && ReadTwo(s, 3) == FromOrdinal(n).day
    ensures ReadTwo(s, 6) * 100 + ReadTwo(s, 8) == FromOrdinal(n).year
    ensures 1 <= ReadTwo(s, 11) <= 12 && ReadTwo(s, 11) % 12 == t.hour % 12
    ensures ReadTwo(s, 14) == t.minute
    ensures s[17] == (if t.hour < 12 then 'A' else 'P') && s[18] == 'M'
  {
    FormatDate(FromOrdinal(n), t)
  }

  /** Lexicographic comparison of dates, as dayjs's `isAfter` compares two days. */
  predicate IsAfter(a: Date, b: Date)
  {
    a.year > b.year
    || (a.year == b.year && a.month > b.month)
    || (a.year == b.year && a.month == b.month && a.day > b.day)
  }
}
