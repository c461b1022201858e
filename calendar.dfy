/** The proleptic Gregorian calendar of Python's `datetime.date`: which dates exist, and day numbers. */
module Calendar {
  import opened Values

  const MinYear := 1
  const MaxYear := 9999

  predicate IsLeap(y: int) {
    y % 4 == 0 && (y % 100 != 0 || y % 400 == 0)
  }

  function DaysInMonth(y: int, m: int): int
    requires 1 <= m <= 12
  {
    if m == 2 then (if IsLeap(y) then 29 else 28)
    else if m == 4 || m == 6 || m == 9 || m == 11 then 30
    else 31
  }

  function DaysInYear(y: int): int {
    if IsLeap(y) then 366 else 365
  }

  /** The dates `date(year, month, day)` accepts without raising. */
  predicate IsValidDate(d: Date) {
    && MinYear <= d.year <= MaxYear
    && 1 <= d.month <= 12
    && 1 <= d.day <= DaysInMonth(d.year, d.month)
  }

  /** Days in the years before `y` (Python's `_days_before_year`). */
  function DaysBeforeYear(y: int): int
    requires y >= MinYear
  {
    var p := y - 1;
    p * 365 + p / 4 - p / 100 + p / 400
  }

  /** Days in year `y` before the first of month `m`. */
  function DaysBeforeMonth(y: int, m: int): int
    requires 1 <= m <= 12
  {
    if m == 1 then 0 else DaysBeforeMonth(y, m - 1) + DaysInMonth(y, m - 1)
  }

  /** `date.toordinal()`: 1 for 0001-01-01, one more for each following day. */
  function Ordinal(d: Date): int
    requires IsValidDate(d)
  {
    DaysBeforeYear(d.year) + DaysBeforeMonth(d.year, d.month) + d.day
  }

  /** Chronological order, as Python compares dates. */
  predicate Before(a: Date, b: Date) {
    || a.year < b.year
    || (a.year == b.year && a.month < b.month)
    || (a.year == b.year && a.month == b.month && a.day < b.day)
  }

  /** Moving from `p` to `p + 1` raises the quotient by `k` exactly when `p + 1` is a multiple of `k`. */
  lemma DivStep(p: int, k: int)
    requires p >= 0 && (k == 4 || k == 100 || k == 400)
    ensures (p + 1) / k == p / k + (if (p + 1) % k == 0 then 1 else 0)
  {
    if k == 4 {
    } else if k == 100 {
    } else {
    }
  }

  lemma MultipleFacts(y: int)
    ensures y % 400 == 0 ==> y % 100 == 0
    ensures y % 100 == 0 ==> y % 4 == 0
  {
    if y % 400 == 0 {
      var t := y / 400;
      assert y == 400 * t;
      assert y == 100 * (4 * t);
    }
    if y % 100 == 0 {
      var t := y / 100;
      assert y == 100 * t;
      assert y == 4 * (25 * t);
    }
  }

  lemma YearLength(y: int)
    requires y >= MinYear
    ensures DaysBeforeYear(y + 1) == DaysBeforeYear(y) + DaysInYear(y)
  {
    var p := y - 1;
    DivStep(p, 4);
    DivStep(p, 100);
    DivStep(p, 400);
    MultipleFacts(y);
    var a4, a100, a400 := y / 4 - p / 4, y / 100 - p / 100, y / 400 - p / 400;
    assert DaysBeforeYear(y + 1) - DaysBeforeYear(y) == 365 + a4 - a100 + a400;
    assert a4 == (if y % 4 == 0 then 1 else 0);
    assert a100 == (if y % 100 == 0 then 1 else 0);
    assert a400 == (if y % 400 == 0 then 1 else 0);
  }

  lemma {:induction false} YearsMonotone(y1: int, y2: int)
    requires MinYear <= y1 < y2
    ensures DaysBeforeYear(y1) + DaysInYear(y1) <= DaysBeforeYear(y2)
    decreases y2 - y1
  {
    YearLength(y1);
    if y1 + 1 < y2 {
      YearsMonotone(y1 + 1, y2);
    }
  }

  lemma MonthsFillYear(y: int)
    ensures DaysBeforeMonth(y, 12) + DaysInMonth(y, 12) == DaysInYear(y)
  {
    var leap := if IsLeap(y) then 1 else 0;
    assert DaysBeforeMonth(y, 2) == 31;
    assert DaysBeforeMonth(y, 3) == 59 + leap;
    assert DaysBeforeMonth(y, 4) == 90 + leap;
    assert DaysBeforeMonth(y, 5) == 120 + leap;
    assert DaysBeforeMonth(y, 6) == 151 + leap;
    assert DaysBeforeMonth(y, 7) == 181 + leap;
    assert DaysBeforeMonth(y, 8) == 212 + leap;
    assert DaysBeforeMonth(y, 9) == 243 + leap;
    assert DaysBeforeMonth(y, 10) == 273 + leap;
    assert DaysBeforeMonth(y, 11) == 304 + leap;
    assert DaysBeforeMonth(y, 12) == 334 + leap;
  }

  lemma {:induction false} MonthsMonotone(y: int, m1: int, m2: int)
    requires 1 <= m1 < m2 <= 12
    ensures DaysBeforeMonth(y, m1) + DaysInMonth(y, m1) <= DaysBeforeMonth(y, m2)
    decreases m2 - m1
  {
    if m1 + 1 < m2 {
      MonthsMonotone(y, m1 + 1, m2);
    }
  }

  lemma {:induction false} WithinYear(d: Date)
    requires IsValidDate(d)
    ensures DaysBeforeYear(d.year) < Ordinal(d) <= DaysBeforeYear(d.year) + DaysInYear(d.year)
  {
    MonthsFillYear(d.year);
    if 1 < d.month {
      MonthsMonotone(d.year, 1, d.month);
    }
    if d.month < 12 {
      MonthsMonotone(d.year, d.month, 12);
    }
  }

  /** Day numbers follow the calendar: one valid date comes before another exactly when its day number is smaller. */
  lemma {:induction false} OrdinalOrder(a: Date, b: Date)
    requires IsValidDate(a) && IsValidDate(b)
    ensures Before(a, b) <==> Ordinal(a) < Ordinal(b)
    ensures a == b <==> Ordinal(a) == Ordinal(b)
  {
    WithinYear(a);
    WithinYear(b);
    if a.year < b.year {
      YearsMonotone(a.year, b.year);
    } else if b.year < a.year {
      YearsMonotone(b.year, a.year);
    } else if a.month < b.month {
      MonthsMonotone(a.year, a.month, b.month);
    } else if b.month < a.month {
      MonthsMonotone(a.year, b.month, a.month);
    }
  }
}
