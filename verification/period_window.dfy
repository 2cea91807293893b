/** The period resolution of `SolaredgeForecastData.__init__`.

    The user configures the period as a start (day, month name) and an end
    (day, month name). Each is first parsed with `%B%d`, i.e. in `strptime`'s
    default year 1900; then a year is chosen for each by comparing today's
    (month, day) with it, and the dates are printed as `YYYYMMDD`:
    - the start gets the latest year in which it falls on or before today;
    - the end gets the earliest year in which it falls after today.
    The production start date only has its separators removed. */
module PeriodWindow {
  import opened Wrappers
  import opened Calendar
  import opened MonthNames
  import opened DateText

  /** The year `strptime` assumes when the format has no `%Y`. */
  const DefaultYear: int := 1900

  /** The options the constructor reads. */
  datatype PeriodOptions = PeriodOptions(
    startDay: int, startMonth: string,
    endDay: int, endMonth: string,
    startDateProduction: string)

  /** What the constructor stores: the period as `YYYYMMDD` text and the
      normalised production start date. */
  datatype Window = Window(startdate: string, enddate: string, startDateProduction: string)

  /** The ValueError `strptime` raises, by the call that raises it. */
  datatype WindowError = InvalidStart | InvalidEnd | YearNotFourDigits

  /** `strptime(month + str(day), "%B%d")`: the month number and day, or
      `None` when the pair is not a date of year 1900. */
  function ParseMonthDay(month: string, day: int): (r: Option<(int, int)>)
    ensures r.Some? <==> month in Months && 1 <= day <= DaysInMonth(DefaultYear, MonthNumber(month).value)
    ensures r.Some? ==> r.value == (MonthNumber(month).value, day)
    ensures r.Some? ==> forall y :: MinYear <= y <= MaxYear ==> ValidDate(Date(y, r.value.0, day))
  {
    match MonthNumber(month)
    case None => None
    case Some(m) =>
      if ValidDate(Date(DefaultYear, m, day)) then
        assert forall y :: MinYear <= y <= MaxYear ==> ValidDate(Date(y, m, day)) by {
          forall y | MinYear <= y <= MaxYear
            ensures ValidDate(Date(y, m, day))
          {
            CommonYearFits(y, m, day);
          }
        }
        Some((m, day))
      else None
  }

  /** A day of a month in 1900, a common year, is a day of that month in
      every year. */
  lemma CommonYearFits(y: int, m: int, day: int)
    requires 1 <= m <= 12 && 1 <= day <= DaysInMonth(DefaultYear, m)
    ensures day <= DaysInMonth(y, m)
  {
    assert !IsLeapYear(DefaultYear);
  }

  /** The pattern of `%B%d` splits after the month name, which holds no
      digit: for a month of the form, the pair parses exactly when `str(day)`
      alone matches `%d` and the day exists in that month of 1900. */
  lemma MonthDayPieces(month: string, day: int)
    requires month in Months
    ensures ParseMonthDay(month, day).Some? <==>
      Strptime(IntText(day), [DayOfMonth]) == Some([day]) && day <= DaysInMonth(DefaultYear, MonthNumber(month).value)
  {
    DayText(day);
  }

  /** 29 February is never accepted: 1900 is not a leap year. */
  lemma February29Rejected()
    ensures ParseMonthDay("February", 29) == None
  {
    MonthNameRoundTrip(2);
    assert MonthName(2) == "February";
  }

  /** Lexicographic order on (month, day). */
  predicate MonthDayBefore(m1: int, d1: int, m2: int, d2: int) {
    m1 < m2 || (m1 == m2 && d1 < d2)
  }

  /** The year of the period start (lines 97-105). */
  function StartYear(today: Date, m: int, d: int): (y: int)
    ensures y == today.year - 1 <==> MonthDayBefore(today.month, today.day, m, d)
    ensures y == today.year || y == today.year - 1
    ensures AtOrBefore(Date(y, m, d), today) && Before(today, Date(y + 1, m, d))
  {
    if today.month < m then today.year - 1
    else if today.month == m then
      if today.day < d then today.year - 1 else today.year
    else today.year
  }

  /** The year of the period end (lines 107-115). */
  function EndYear(today: Date, m: int, d: int): (y: int)
    ensures y == today.year <==> MonthDayBefore(today.month, today.day, m, d)
    ensures y == today.year || y == today.year + 1
    ensures Before(today, Date(y, m, d)) && AtOrBefore(Date(y - 1, m, d), today)
  {
    if today.month < m then today.year
    else if today.month == m then
      if today.day < d then today.year else today.year + 1
    else today.year + 1
  }

  /** The constructor's date handling (lines 88-120). */
  function ResolveWindow(opts: PeriodOptions, today: Date): (r: Result<Window, WindowError>)
    requires ValidDate(today)
    ensures ParseMonthDay(opts.startMonth, opts.startDay).None? ==> r == Err(InvalidStart)
    ensures ParseMonthDay(opts.startMonth, opts.startDay).Some? && ParseMonthDay(opts.endMonth, opts.endDay).None?
      ==> r == Err(InvalidEnd)
    ensures 1001 <= today.year <= 9998
      && ParseMonthDay(opts.startMonth, opts.startDay).Some? && ParseMonthDay(opts.endMonth, opts.endDay).Some?
      ==> r.Ok?
    ensures r.Ok? ==> r.value.startDateProduction == StripSeparators(opts.startDateProduction)
    ensures r.Ok? ==> ParseYmd(r.value.startdate).Some? && ParseYmd(r.value.enddate).Some?
    ensures r.Ok? ==> r.value.startdate == FormatYmd(ParseYmd(r.value.startdate).value)
    ensures r.Ok? ==> r.value.enddate == FormatYmd(ParseYmd(r.value.enddate).value)
    ensures r.Ok? ==>
      var s := ParseYmd(r.value.startdate).value;
      var e := ParseYmd(r.value.enddate).value;
      && (s.month, s.day) == ParseMonthDay(opts.startMonth, opts.startDay).value
      && (e.month, e.day) == ParseMonthDay(opts.endMonth, opts.endDay).value
      && AtOrBefore(s, today) && Before(today, Date(s.year + 1, s.month, s.day))
      && Before(today, e) && AtOrBefore(Date(e.year - 1, e.month, e.day), today)
      && 0 <= e.year - s.year <= 2
  {
    var production := StripSeparators(opts.startDateProduction);
    match (ParseMonthDay(opts.startMonth, opts.startDay), ParseMonthDay(opts.endMonth, opts.endDay))
    case (None, _) => Err(InvalidStart)
    case (Some(_), None) => Err(InvalidEnd)
    case (Some((sm, sd)), Some((em, ed))) =>
      var sy := StartYear(today, sm, sd);
      var ey := EndYear(today, em, ed);
      if !FourDigitYear(sy) || !FourDigitYear(ey) then Err(YearNotFourDigits)
      else
        var s := Date(sy, sm, sd);
        var e := Date(ey, em, ed);
        YmdRoundTrip(s);
        YmdRoundTrip(e);
        Ok(Window(FormatYmd(s), FormatYmd(e), production))
  }

  /** The window spans two year boundaries exactly when today lies on or after
      the end (month, day) and before the start (month, day). */
  lemma WindowSpansTwoYears(opts: PeriodOptions, today: Date)
    requires ValidDate(today)
    requires ResolveWindow(opts, today).Ok?
    ensures
      var w := ResolveWindow(opts, today).value;
      var s := ParseYmd(w.startdate).value;
      var e := ParseYmd(w.enddate).value;
      e.year - s.year == 2 <==>
        !MonthDayBefore(today.month, today.day, e.month, e.day) && MonthDayBefore(today.month, today.day, s.month, s.day)
  {
  }

  /** When both pairs parse and both years have four digits, the window is
      the printed start and end in the years `StartYear` and `EndYear` pick. */
  lemma ResolvedWindow(opts: PeriodOptions, today: Date, sm: int, sd: int, em: int, ed: int)
    requires ValidDate(today)
    requires ParseMonthDay(opts.startMonth, opts.startDay) == Some((sm, sd))
    requires ParseMonthDay(opts.endMonth, opts.endDay) == Some((em, ed))
    requires FourDigitYear(StartYear(today, sm, sd)) && FourDigitYear(EndYear(today, em, ed))
    ensures ResolveWindow(opts, today) == Ok(Window(
      FormatYmd(Date(StartYear(today, sm, sd), sm, sd)),
      FormatYmd(Date(EndYear(today, em, ed), em, ed)),
      StripSeparators(opts.startDateProduction)))
  {
  }

  /** Start 1 December, end 31 January, today 1 June 2024: the window runs
      from 1 December 2023 to 31 January 2025. */
  lemma WrappingPeriodInTheGap()
    ensures ResolveWindow(PeriodOptions(1, "December", 31, "January", ""), Date(2024, 6, 1))
      == Ok(Window(FormatYmd(Date(2023, 12, 1)), FormatYmd(Date(2025, 1, 31)), ""))
  {
    MonthNameRoundTrip(12);
    MonthNameRoundTrip(1);
    assert MonthName(12) == "December" && MonthName(1) == "January";
    var today := Date(2024, 6, 1);
    assert ParseMonthDay("December", 1) == Some((12, 1));
    assert ParseMonthDay("January", 31) == Some((1, 31));
    assert StartYear(today, 12, 1) == 2023;
    assert EndYear(today, 1, 31) == 2025;
    assert StripSeparators("") == "";
    ResolvedWindow(PeriodOptions(1, "December", 31, "January", ""), today, 12, 1, 1, 31);
  }
}
