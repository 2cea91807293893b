/** The proleptic Gregorian calendar as Python's `datetime.date` sees it:
    leap years, month lengths, the ordering of dates, the day ordinal used by
    date subtraction (`date.toordinal`), the next day, and the inclusive run
    of days that `pandas.date_range` produces. */
module Calendar {

  /** A calendar date. Only dates satisfying `ValidDate` are ever produced by
      the parsing functions of the model. */
  datatype Date = Date(year: int, month: int, day: int)

  /** Python's `datetime.MINYEAR` and `datetime.MAXYEAR`. */
  const MinYear: int := 1
  const MaxYear: int := 9999

  predicate IsLeapYear(y: int) {
    y % 4 == 0 && (y % 100 != 0 || y % 400 == 0)
  }

  function DaysInMonth(y: int, m: int): (n: int)
    requires 1 <= m <= 12
    ensures 28 <= n <= 31
  {
    if m == 2 then (if IsLeapYear(y) then 29 else 28)
    else if m == 4 || m == 6 || m == 9 || m == 11 then 30
    else 31
  }

  function DaysInYear(y: int): int {
    if IsLeapYear(y) then 366 else 365
  }

  /** Month and day in range and a year of at least `MinYear`; no upper bound,
      so that the day after a valid date is always well formed. */
  predicate WellFormed(d: Date) {
    MinYear <= d.year && 1 <= d.month <= 12 && 1 <= d.day <= DaysInMonth(d.year, d.month)
  }

  /** A date Python's `datetime.date` constructor accepts. */
  predicate ValidDate(d: Date) {
    WellFormed(d) && d.year <= MaxYear
  }

  /** Strict chronological order: lexicographic on (year, month, day). */
  predicate Before(a: Date, b: Date) {
    a.year < b.year || (a.year == b.year && (a.month < b.month || (a.month == b.month && a.day < b.day)))
  }

  predicate AtOrBefore(a: Date, b: Date) {
    !Before(b, a)
  }

  /** Number of days in the years before `y`, counted from 1 January of year 1. */
  function DaysBeforeYear(y: int): int
    requires y >= 1
  {
    var n := y - 1;
    n * 365 + n / 4 - n / 100 + n / 400
  }

  /** Number of days in year `y` before the first day of month `m`. */
  function DaysBeforeMonth(y: int, m: int): int
    requires 1 <= m <= 12
  {
    [0, 31, 59, 90, 120, 151, 181, 212, 243, 273, 304, 334][m - 1]
      + (if m > 2 && IsLeapYear(y) then 1 else 0)
  }

  /** Python's `date.toordinal()`: 1 January of year 1 has ordinal 1. */
  function Ordinal(d: Date): int
    requires WellFormed(d)
  {
    DaysBeforeYear(d.year) + DaysBeforeMonth(d.year, d.month) + d.day
  }

  /** Counting the multiples of 4, 100 and 400 up to `y` rather than `y - 1`
      adds one exactly when `y` is such a multiple. */
  lemma MultiplesStep(y: int)
    requires y >= 1
    ensures y / 4 == (y - 1) / 4 + (if y % 4 == 0 then 1 else 0)
    ensures y / 100 == (y - 1) / 100 + (if y % 100 == 0 then 1 else 0)
    ensures y / 400 == (y - 1) / 400 + (if y % 400 == 0 then 1 else 0)
  {
    var q4, q100, q400 := (y - 1) / 4, (y - 1) / 100, (y - 1) / 400;
    assert y - 1 == 4 * q4 + (y - 1) % 4;
    assert y - 1 == 100 * q100 + (y - 1) % 100;
    assert y - 1 == 400 * q400 + (y - 1) % 400;
  }

  /** A multiple of 400 is one of 100, and a multiple of 100 is one of 4. */
  lemma MultiplesNest(y: int)
    ensures y % 400 == 0 ==> y % 100 == 0
    ensures y % 100 == 0 ==> y % 4 == 0
  {
    if y % 400 == 0 {
      var q := y / 400;
      assert y == 100 * (4 * q);
      assert y / 100 == 4 * q;
    }
    if y % 100 == 0 {
      var q := y / 100;
      assert y == 4 * (25 * q);
      assert y / 4 == 25 * q;
    }
  }

  lemma DaysBeforeYearStep(y: int)
    requires y >= 1
    ensures DaysBeforeYear(y + 1) == DaysBeforeYear(y) + DaysInYear(y)
  {
    MultiplesStep(y);
    MultiplesNest(y);
    var leap := (if y % 4 == 0 then 1 else 0) - (if y % 100 == 0 then 1 else 0) + (if y % 400 == 0 then 1 else 0);
    assert DaysInYear(y) == 365 + leap;
    assert DaysBeforeYear(y + 1) - DaysBeforeYear(y) == 365 + leap;
  }

  /** The same month and day one year later is at least 365 days later
      (366 when a 29 February lies in between). */
  lemma OneYearLater(d: Date)
    requires WellFormed(d) && WellFormed(Date(d.year + 1, d.month, d.day))
    ensures Ordinal(Date(d.year + 1, d.month, d.day)) - Ordinal(d) >= 365
  {
    DaysBeforeYearStep(d.year);
    if d.month > 2 && IsLeapYear(d.year) {
      assert DaysInYear(d.year) == 366;
    }
  }

  /** A date on or before the same day one year before `d` is at least 365
      days before `d`. */
  lemma AtLeastAYearBefore(p: Date, d: Date)
    requires WellFormed(p) && WellFormed(d) && WellFormed(Date(d.year - 1, d.month, d.day))
    requires AtOrBefore(p, Date(d.year - 1, d.month, d.day))
    ensures Ordinal(d) - Ordinal(p) >= 365
  {
    var back := Date(d.year - 1, d.month, d.day);
    OrdinalOrder(p, back);
    OneYearLater(back);
    assert Date(back.year + 1, back.month, back.day) == d;
  }

  lemma DaysBeforeMonthStep(y: int, m: int)
    requires 1 <= m < 12
    ensures DaysBeforeMonth(y, m + 1) == DaysBeforeMonth(y, m) + DaysInMonth(y, m)
  {
  }

  lemma DecemberEndsYear(y: int)
    ensures DaysBeforeMonth(y, 12) + DaysInMonth(y, 12) == DaysInYear(y)
  {
  }

  /** Every day of an earlier year precedes every day of a later year. */
  lemma {:induction false} DaysBeforeYearMonotone(a: int, b: int)
    requires 1 <= a < b
    ensures DaysBeforeYear(a) + DaysInYear(a) <= DaysBeforeYear(b)
    decreases b - a
  {
    DaysBeforeYearStep(a);
    if a + 1 < b {
      DaysBeforeYearMonotone(a + 1, b);
    }
  }

  /** Every day of an earlier month precedes every day of a later month of the same year. */
  lemma {:induction false} DaysBeforeMonthMonotone(y: int, a: int, b: int)
    requires 1 <= a < b <= 12
    ensures DaysBeforeMonth(y, a) + DaysInMonth(y, a) <= DaysBeforeMonth(y, b)
    decreases b - a
  {
    DaysBeforeMonthStep(y, a);
    if a + 1 < b {
      DaysBeforeMonthMonotone(y, a + 1, b);
    }
  }

  /** A date's ordinal lies within its year's range of ordinals. */
  lemma OrdinalWithinYear(d: Date)
    requires WellFormed(d)
    ensures DaysBeforeYear(d.year) < Ordinal(d) <= DaysBeforeYear(d.year) + DaysInYear(d.year)
  {
    if d.month < 12 {
      DaysBeforeMonthMonotone(d.year, d.month, 12);
    }
    DecemberEndsYear(d.year);
  }

  lemma OrdinalIncreasing(a: Date, b: Date)
    requires WellFormed(a) && WellFormed(b)
    requires Before(a, b)
    ensures Ordinal(a) < Ordinal(b)
  {
    if a.year < b.year {
      OrdinalWithinYear(a);
      OrdinalWithinYear(b);
      DaysBeforeYearMonotone(a.year, b.year);
    } else if a.month < b.month {
      DaysBeforeMonthMonotone(a.year, a.month, b.month);
    }
  }

  /** The ordinal is an order isomorphism: chronological order is ordinal order. */
  lemma OrdinalOrder(a: Date, b: Date)
    requires WellFormed(a) && WellFormed(b)
    ensures Before(a, b) <==> Ordinal(a) < Ordinal(b)
    ensures a == b <==> Ordinal(a) == Ordinal(b)
  {
    if Before(a, b) {
      OrdinalIncreasing(a, b);
    } else if Before(b, a) {
      OrdinalIncreasing(b, a);
    }
  }

  /** The day after `d`: `d + timedelta(days=1)`. */
  function NextDay(d: Date): (r: Date)
    requires WellFormed(d)
    ensures WellFormed(r) && Before(d, r)
  {
    if d.day < DaysInMonth(d.year, d.month) then Date(d.year, d.month, d.day + 1)
    else if d.month < 12 then Date(d.year, d.month + 1, 1)
    else Date(d.year + 1, 1, 1)
  }

  /** `NextDay` skips no day: its ordinal is exactly one more. */
  lemma NextDayOrdinal(d: Date)
    requires WellFormed(d)
    ensures Ordinal(NextDay(d)) == Ordinal(d) + 1
  {
    if d.day == DaysInMonth(d.year, d.month) {
      if d.month < 12 {
        DaysBeforeMonthStep(d.year, d.month);
      } else {
        DaysBeforeYearStep(d.year);
        DecemberEndsYear(d.year);
      }
    }
  }

  /** The days from `first` to `last`, both included, one per calendar day in
      ascending order (`pandas.date_range(start=first, end=last)`); empty when
      `first` is after `last`. */
  function DateRange(first: Date, last: Date): (r: seq<Date>)
    requires ValidDate(first) && ValidDate(last)
    ensures |r| == if AtOrBefore(first, last) then Ordinal(last) - Ordinal(first) + 1 else 0
    ensures forall i :: 0 <= i < |r| ==> ValidDate(r[i]) && Ordinal(r[i]) == Ordinal(first) + i
    decreases Ordinal(last) - Ordinal(first)
  {
    OrdinalOrder(first, last);
    if Before(last, first) then []
    else if first == last then [first]
    else
      var next := NextDay(first);
      NextDayOrdinal(first);
      OrdinalOrder(next, last);
      [first] + DateRange(next, last)
  }

  /** A valid date is in the run of days iff it lies between its ends, and the
      run is strictly ascending, so every such date occurs exactly once. */
  lemma DateRangeContents(first: Date, last: Date)
    requires ValidDate(first) && ValidDate(last)
    ensures forall x :: ValidDate(x) ==> (x in DateRange(first, last) <==> AtOrBefore(first, x) && AtOrBefore(x, last))
    ensures forall i, j :: 0 <= i < j < |DateRange(first, last)| ==> Before(DateRange(first, last)[i], DateRange(first, last)[j])
  {
    var r := DateRange(first, last);
    forall x | ValidDate(x)
      ensures x in r <==> AtOrBefore(first, x) && AtOrBefore(x, last)
    {
      OrdinalOrder(first, x);
      OrdinalOrder(x, last);
      OrdinalOrder(first, last);
      if x in r {
        var i :| 0 <= i < |r| && r[i] == x;
        assert Ordinal(x) == Ordinal(first) + i;
      } else if AtOrBefore(first, x) && AtOrBefore(x, last) {
        var i := Ordinal(x) - Ordinal(first);
        assert 0 <= i < |r|;
        OrdinalOrder(r[i], x);
        assert false;
      }
    }
    forall i, j | 0 <= i < j < |r|
      ensures Before(r[i], r[j])
    {
      OrdinalOrder(r[i], r[j]);
    }
  }
}
