/** The configuration and options flows of config_flow.py: the four input
    validators, the duplicate checks and the order in which both flows run
    them.

    The wall clock is the parameter `now`; the configured entries of the
    integration are the parameter `entries`, each with its `data` and its
    `options`. The form itself (schema, defaults, translation of error keys)
    is not modelled: a step creates an entry, shows the form with an error
    map, or raises.

    The flows are modelled as written (`StepUser`, `OptionsStepUser`), next
    to a user step with the corrected validators (`StepUserFixed`). */
module ConfigFlow {
  import opened Wrappers
  import opened Calendar
  import opened MonthNames
  import opened DateText
  import PeriodWindow

  const MicrosPerDay: int := 86_400_000_000

  /** A reading of `datetime.now()` / `datetime.today()`: a date and the
      microseconds elapsed since its midnight. */
  datatype Moment = Moment(date: Date, micros: int)

  predicate ValidMoment(now: Moment) {
    ValidDate(now.date) && 0 <= now.micros < MicrosPerDay
  }

  /** The midnight that starts day `d` is strictly earlier than `now`. */
  predicate MidnightBefore(d: Date, now: Moment) {
    Before(d, now.date) || (d == now.date && now.micros > 0)
  }

  /** `now` is strictly earlier than the midnight that starts day `d`. */
  predicate BeforeMidnight(now: Moment, d: Date) {
    Before(now.date, d)
  }

  // ---------------------------------------------------------------------------
  // _date_validation

  /** `strptime(str(now.year) + month + str(day), "%Y%B%d")` succeeds. */
  function DateValidation(day: int, month: string, now: Moment): (r: bool)
    ensures r <==> (FourDigitYear(now.date.year) && month in Months
                    && 1 <= day <= DaysInMonth(now.date.year, MonthNumber(month).value))
  {
    FourDigitYear(now.date.year)
    && match MonthNumber(month)
       case None => false
       case Some(m) => ValidDate(Date(now.date.year, m, day))
  }

  /** The pattern of `%Y%B%d` splits at the month name, which holds no digit:
      for a month of the form, the text passes exactly when `str(year)` alone
      matches `%Y`, `str(day)` alone matches `%d`, and the day exists in that
      month of the current year. */
  lemma DateValidationPieces(day: int, month: string, now: Moment)
    requires month in Months
    ensures DateValidation(day, month, now) <==>
      && Strptime(IntText(now.date.year), [Year]) == Some([now.date.year])
      && Strptime(IntText(day), [DayOfMonth]) == Some([day])
      && day <= DaysInMonth(now.date.year, MonthNumber(month).value)
  {
    YearText(now.date.year);
    DayText(day);
  }

  /** 29 February passes exactly in a leap year. */
  lemma DateValidationLeapDay(now: Moment)
    requires FourDigitYear(now.date.year)
    ensures DateValidation(29, "February", now) <==> IsLeapYear(now.date.year)
  {
    MonthNameRoundTrip(2);
    assert MonthName(2) == "February";
  }

  /** The flow checks a day and month in the current year, the constructor in
      year 1900: they disagree on 29 February of a leap year only, which the
      flow accepts and the constructor then rejects. */
  lemma DateValidationVersusSetup(day: int, month: string, now: Moment, opts: PeriodWindow.PeriodOptions)
    requires ValidDate(now.date) && FourDigitYear(now.date.year)
    requires opts.startDay == day && opts.startMonth == month
    ensures DateValidation(day, month, now) <==>
      PeriodWindow.ParseMonthDay(month, day).Some? || (month == "February" && day == 29 && IsLeapYear(now.date.year))
    ensures DateValidation(day, month, now) && PeriodWindow.ParseMonthDay(month, day).None?
      ==> PeriodWindow.ResolveWindow(opts, now.date) == Err(PeriodWindow.InvalidStart)
  {
    if month in Months {
      var m := MonthNumber(month).value;
      FebruaryIsMonthTwo(month);
      LengthVersusCommonYear(now.date.year, m);
    }
  }

  /** Among the month names, "February" is exactly the one `%B` parses as 2. */
  lemma FebruaryIsMonthTwo(month: string)
    requires month in Months
    ensures month == "February" <==> MonthNumber(month).value == 2
  {
    MonthNameRoundTrip(2);
    assert MonthName(2) == "February";
    if MonthNumber(month).value == 2 {
      assert month == Months[1];
    }
  }

  /** A month is as long as in 1900 except February of a leap year, which
      has one day more. */
  lemma LengthVersusCommonYear(y: int, m: int)
    requires 1 <= m <= 12
    ensures DaysInMonth(y, m) == DaysInMonth(PeriodWindow.DefaultYear, m) + (if m == 2 && IsLeapYear(y) then 1 else 0)
  {
    assert !IsLeapYear(PeriodWindow.DefaultYear);
  }

  /** In a leap year the flow accepts 29 February as the period start, and
      the constructor then raises on it (for instance in 2024). */
  lemma LeapDayExample(now: Moment, opts: PeriodWindow.PeriodOptions)
    requires ValidMoment(now) && FourDigitYear(now.date.year) && IsLeapYear(now.date.year)
    requires opts.startDay == 29 && opts.startMonth == "February"
    ensures DateValidation(29, "February", now)
    ensures PeriodWindow.ResolveWindow(opts, now.date) == Err(PeriodWindow.InvalidStart)
  {
    DateValidationLeapDay(now);
    PeriodWindow.February29Rejected();
  }

  /** `_date_validation` checking the day and month as the constructor later
      parses them (`%B%d`, in year 1900) besides the current year's four
      digits: it refuses 29 February in every year and otherwise agrees with
      the validator as written. */
  function DateValidationFixed(day: int, month: string, now: Moment): (r: bool)
    requires ValidDate(now.date)
    ensures r <==> DateValidation(day, month, now) && !(month == "February" && day == 29)
  {
    MonthNameRoundTrip(2);
    assert MonthName(2) == "February";
    FourDigitYear(now.date.year) && PeriodWindow.ParseMonthDay(month, day).Some?
  }

  /** What the corrected validator accepts, the constructor can set up: in
      the years 1001..9998 it resolves a window. */
  lemma DateValidationFixedResolves(opts: PeriodWindow.PeriodOptions, now: Moment)
    requires ValidMoment(now) && 1001 <= now.date.year <= 9998
    requires DateValidationFixed(opts.startDay, opts.startMonth, now)
    requires DateValidationFixed(opts.endDay, opts.endMonth, now)
    ensures PeriodWindow.ResolveWindow(opts, now.date).Ok?
  {
  }

  // ---------------------------------------------------------------------------
  // _startdate_validation

  /** `(datetime.today() - parsed).days` for a `parsed` date at midnight:
      the time of day is less than one day, so the floor of the difference is
      the difference of the day ordinals. */
  function ElapsedDays(parsed: Date, now: Moment): int
    requires ValidDate(parsed) && ValidMoment(now)
  {
    Ordinal(now.date) - Ordinal(parsed)
  }

  /** The age test of a parsed production start: at least 365 whole days. */
  predicate OldEnough(p: Date, now: Moment)
    requires ValidDate(p) && ValidMoment(now)
  {
    ElapsedDays(p, now) >= 365
  }

  /** The production start date: empty, or a DDMMYYYY date (separators
      "/", "-" and " " removed first) at least 365 days back. */
  function StartdateValidation(text: string, now: Moment): (r: bool)
    requires ValidMoment(now)
    ensures text == "" ==> r
    ensures text != "" ==> (r <==> ParseDmy(StripSeparators(text)).Some? && OldEnough(ParseDmy(StripSeparators(text)).value, now))
  {
    if text == "" then true
    else
      match ParseDmy(StripSeparators(text))
      case None => false
      case Some(p) => OldEnough(p, now)
  }

  /** A production start on or after today's date is too recent. */
  lemma StartdateNotInTheFuture(p: Date, now: Moment)
    requires ValidDate(p) && ValidMoment(now)
    requires AtOrBefore(now.date, p)
    ensures !OldEnough(p, now)
  {
    OrdinalOrder(now.date, p);
  }

  /** A production start on or before the same day one year earlier is old
      enough: a calendar year is at least 365 days. */
  lemma StartdateOneYearBackAccepted(p: Date, now: Moment)
    requires ValidDate(p) && ValidMoment(now)
    requires ValidDate(Date(now.date.year - 1, now.date.month, now.date.day))
    requires AtOrBefore(p, Date(now.date.year - 1, now.date.month, now.date.day))
    ensures OldEnough(p, now)
  {
    AtLeastAYearBefore(p, now.date);
  }

  /** A date written as eight digits DDMMYYYY is accepted exactly when that
      date is old enough. */
  lemma StartdateOfFormattedDate(p: Date, now: Moment)
    requires ValidDate(p) && ValidMoment(now)
    ensures StartdateValidation(FormatDmy(p), now) <==> OldEnough(p, now)
  {
    var s := FormatDmy(p);
    DmyRoundTrip(p);
    assert '/' !in s && '-' !in s && ' ' !in s by {
      assert AllDigits(s);
    }
    assert StripSeparators(s) == s;
  }

  /** The emptiness test comes before the stripping: a lone space is not
      empty, strips to the empty string, and that does not parse. */
  lemma StartdateBlankRejected(now: Moment)
    requires ValidMoment(now)
    ensures !StartdateValidation(" ", now)
  {
    assert StripSeparators(" ") == "";
    assert Alternatives(DayOfMonth, "", 0) == [];
  }

  // ---------------------------------------------------------------------------
  // _period_validation

  /** The configured day and month in the current year. */
  function DateInYear(day: int, month: string, now: Moment): (d: Date)
    requires DateValidation(day, month, now)
    ensures ValidDate(d) && d.year == now.date.year
    ensures MonthName(d.month) == month && d.day == day
  {
    Date(now.date.year, MonthNumber(month).value, day)
  }

  /** `_period_validation` as written. With start before end it accepts
      `now` strictly between them; otherwise it accepts `now` strictly after
      the end and before the start, which for a period that wraps past the new
      year is the part of the year OUTSIDE the period. */
  function PeriodValidation(startDay: int, startMonth: string, endDay: int, endMonth: string, now: Moment): (r: bool)
    requires ValidMoment(now)
    requires DateValidation(startDay, startMonth, now) && DateValidation(endDay, endMonth, now)
    ensures
      var s, e := DateInYear(startDay, startMonth, now), DateInYear(endDay, endMonth, now);
      && (s == e ==> !r)
      && (r && Before(s, e) ==> AtOrBefore(s, now.date) && Before(now.date, e))
      && (r && Before(e, s) ==> AtOrBefore(e, now.date) && Before(now.date, s))
      && (Before(s, e) && MidnightBefore(s, now) && Before(now.date, e) ==> r)
      && (Before(e, s) && MidnightBefore(e, now) && Before(now.date, s) ==> r)
      && (r && now.micros == 0 ==> now.date != s && now.date != e)
  {
    var s, e := DateInYear(startDay, startMonth, now), DateInYear(endDay, endMonth, now);
    if Before(s, e) then MidnightBefore(s, now) && BeforeMidnight(now, e)
    else BeforeMidnight(now, s) && MidnightBefore(e, now)
  }

  /** `_period_validation` as its docstring says ("today is within time
      period"): for a period that wraps past the new year, `now` must be after
      the start or before the end. */
  function PeriodValidationFixed(startDay: int, startMonth: string, endDay: int, endMonth: string, now: Moment): (r: bool)
    requires ValidMoment(now)
    requires DateValidation(startDay, startMonth, now) && DateValidation(endDay, endMonth, now)
    ensures
      var s, e := DateInYear(startDay, startMonth, now), DateInYear(endDay, endMonth, now);
      && (s == e ==> !r)
      && (Before(s, e) ==> r == PeriodValidation(startDay, startMonth, endDay, endMonth, now))
      && (Before(e, s) && r ==> !PeriodValidation(startDay, startMonth, endDay, endMonth, now))
  {
    var s, e := DateInYear(startDay, startMonth, now), DateInYear(endDay, endMonth, now);
    if Before(s, e) then MidnightBefore(s, now) && BeforeMidnight(now, e)
    else if Before(e, s) then MidnightBefore(s, now) || BeforeMidnight(now, e)
    else false
  }

  /** The start year the constructor chooses is the only one that puts the
      start on or before today and its next anniversary after today. */
  lemma StartYearUnique(today: Date, m: int, d: int, y: int)
    requires AtOrBefore(Date(y, m, d), today) && Before(today, Date(y + 1, m, d))
    ensures y == PeriodWindow.StartYear(today, m, d)
  {
  }

  /** Likewise for the end year: the end falls after today, and its previous
      anniversary does not. */
  lemma EndYearUnique(today: Date, m: int, d: int, y: int)
    requires Before(today, Date(y, m, d)) && AtOrBefore(Date(y - 1, m, d), today)
    ensures y == PeriodWindow.EndYear(today, m, d)
  {
  }

  /** The case analysis behind `PeriodValidationFixedMatchesWindow`, on the
      dates in the current year `cs`, `ce` and the resolved dates `s`, `e`. */
  lemma FixedCycleCases(now: Moment, cs: Date, ce: Date, s: Date, e: Date)
    requires ValidMoment(now) && cs.year == now.date.year && ce.year == now.date.year
    requires s == Date(PeriodWindow.StartYear(now.date, cs.month, cs.day), cs.month, cs.day)
    requires e == Date(PeriodWindow.EndYear(now.date, ce.month, ce.day), ce.month, ce.day)
    ensures (if Before(cs, ce) then MidnightBefore(cs, now) && BeforeMidnight(now, ce)
             else if Before(ce, cs) then MidnightBefore(cs, now) || BeforeMidnight(now, ce)
             else false)
      <==> (Before(e, Date(s.year + 1, s.month, s.day)) && MidnightBefore(s, now))
  {
  }

  /** The corrected check accepts exactly when the window the constructor
      resolves is one annual cycle (the end comes before the start's next
      anniversary) whose start has already begun. */
  lemma PeriodValidationFixedMatchesWindow(startDay: int, startMonth: string, endDay: int, endMonth: string, now: Moment)
    requires ValidMoment(now) && 1001 <= now.date.year <= 9998
    requires PeriodWindow.ParseMonthDay(startMonth, startDay).Some?
    requires PeriodWindow.ParseMonthDay(endMonth, endDay).Some?
    ensures DateValidation(startDay, startMonth, now) && DateValidation(endDay, endMonth, now)
    ensures
      var w := PeriodWindow.ResolveWindow(PeriodWindow.PeriodOptions(startDay, startMonth, endDay, endMonth, ""), now.date);
      var s := ParseYmd(w.value.startdate).value;
      var e := ParseYmd(w.value.enddate).value;
      var cycle := Before(e, Date(s.year + 1, s.month, s.day)) && MidnightBefore(s, now);
      PeriodValidationFixed(startDay, startMonth, endDay, endMonth, now) <==> cycle
  {
    var w := PeriodWindow.ResolveWindow(PeriodWindow.PeriodOptions(startDay, startMonth, endDay, endMonth, ""), now.date);
    var s := ParseYmd(w.value.startdate).value;
    var e := ParseYmd(w.value.enddate).value;
    var cs := DateInYear(startDay, startMonth, now);
    var ce := DateInYear(endDay, endMonth, now);
    assert (s.month, s.day) == (cs.month, cs.day);
    assert (e.month, e.day) == (ce.month, ce.day);
    StartYearUnique(now.date, s.month, s.day, s.year);
    EndYearUnique(now.date, e.month, e.day, e.year);
    FixedCycleCases(now, cs, ce, s, e);
  }

  /** For a wrapping period the validator as written accepts only days in the
      gap, and there the constructor resolves a window spanning two year
      boundaries. */
  lemma PeriodValidationAcceptsGap(startDay: int, startMonth: string, endDay: int, endMonth: string, now: Moment)
    requires ValidMoment(now) && 1001 <= now.date.year <= 9998
    requires PeriodWindow.ParseMonthDay(startMonth, startDay).Some?
    requires PeriodWindow.ParseMonthDay(endMonth, endDay).Some?
    requires DateValidation(startDay, startMonth, now) && DateValidation(endDay, endMonth, now)
    requires Before(DateInYear(endDay, endMonth, now), DateInYear(startDay, startMonth, now))
    requires PeriodValidation(startDay, startMonth, endDay, endMonth, now)
    ensures
      var w := PeriodWindow.ResolveWindow(PeriodWindow.PeriodOptions(startDay, startMonth, endDay, endMonth, ""), now.date);
      ParseYmd(w.value.enddate).value.year - ParseYmd(w.value.startdate).value.year == 2
  {
    var sm, em := MonthNumber(startMonth).value, MonthNumber(endMonth).value;
    var w := PeriodWindow.ResolveWindow(PeriodWindow.PeriodOptions(startDay, startMonth, endDay, endMonth, ""), now.date);
    assert (ParseYmd(w.value.startdate).value.month, ParseYmd(w.value.startdate).value.day) == (sm, startDay);
    assert (ParseYmd(w.value.enddate).value.month, ParseYmd(w.value.enddate).value.day) == (em, endDay);
  }

  /** Period 1 December - 31 January: at noon on 1 June 2024 the validator as
      written accepts, at noon on 10 January 2024 it rejects; the corrected
      check does the opposite. */
  lemma PeriodValidationWrapExample()
    ensures DateValidation(1, "December", Moment(Date(2024, 6, 1), 43_200_000_000))
    ensures DateValidation(31, "January", Moment(Date(2024, 6, 1), 43_200_000_000))
    ensures PeriodValidation(1, "December", 31, "January", Moment(Date(2024, 6, 1), 43_200_000_000))
    ensures !PeriodValidationFixed(1, "December", 31, "January", Moment(Date(2024, 6, 1), 43_200_000_000))
    ensures !PeriodValidation(1, "December", 31, "January", Moment(Date(2024, 1, 10), 43_200_000_000))
    ensures PeriodValidationFixed(1, "December", 31, "January", Moment(Date(2024, 1, 10), 43_200_000_000))
  {
    MonthNameRoundTrip(12);
    MonthNameRoundTrip(1);
    assert MonthName(12) == "December" && MonthName(1) == "January";
  }

  // ---------------------------------------------------------------------------
  // Configuration entries

  /** The form fields; they are also the keys under which an entry stores
      its configuration. */
  datatype Field = SiteId | AccountKey | StartDay | StartMonth | EndDay | EndMonth | StartDateProduction

  const AllFields: set<Field> := {SiteId, AccountKey, StartDay, StartMonth, EndDay, EndMonth, StartDateProduction}

  lemma AllFieldsListed(f: Field)
    ensures f in AllFields
  {
    assert f.SiteId? || f.AccountKey? || f.StartDay? || f.StartMonth? || f.EndDay? || f.EndMonth? || f.StartDateProduction?;
  }

  /** A Python value as stored in a configuration entry; equality between an
      int and a str is always false. */
  datatype PyValue = PyInt(n: int) | PyStr(s: string)

  /** A submitted form: the user step's fields, typed as the schema coerces them. */
  datatype UserInput = UserInput(
    siteId: int, accountKey: string,
    startDay: int, startMonth: string,
    endDay: int, endMonth: string,
    startDateProduction: string)

  /** The submitted form as the dict the flows store or merge. */
  function InputValues(u: UserInput): map<Field, PyValue> {
    map[SiteId := PyInt(u.siteId), AccountKey := PyStr(u.accountKey),
        StartDay := PyInt(u.startDay), StartMonth := PyStr(u.startMonth),
        EndDay := PyInt(u.endDay), EndMonth := PyStr(u.endMonth),
        StartDateProduction := PyStr(u.startDateProduction)]
  }

  /** The form has every field, so a submission carries all of them. */
  lemma InputValuesCoverFields(u: UserInput)
    ensures InputValues(u).Keys == AllFields
    ensures forall f: Field :: f in InputValues(u)
  {
    forall f: Field ensures f in InputValues(u) {
      AllFieldsListed(f);
    }
  }

  /** A configuration entry of the integration: its `data` and its `options`. */
  datatype Entry = Entry(data: map<Field, PyValue>, options: map<Field, PyValue>)

  /** `async_create_entry(data=user_input)`: the submission as data, no options. */
  function NewEntry(u: UserInput): Entry {
    Entry(InputValues(u), map[])
  }

  /** The defaults `data.pop` falls back to during setup. The production
      start date has none in const.py; the model takes the empty text, which
      the flows treat as "no date". */
  function Default(f: Field): PyValue {
    match f
    case SiteId => PyStr("")
    case AccountKey => PyStr("")
    case StartDay => PyStr("01")
    case StartMonth => PyStr("January")
    case EndDay => PyStr("31")
    case EndMonth => PyStr("December")
    case StartDateProduction => PyStr("")
  }

  /** The first setup of an entry (`SolaredgeForecastData.__init__`): an entry
      without options has every field popped out of its data into its
      options, a missing one taking its default; an entry with options is
      left as it is. */
  function SetUpEntry(e: Entry): (r: Entry)
    ensures e.options != map[] ==> r == e
    ensures e.options == map[] ==> r.data == map[] && r.options.Keys == AllFields
    ensures e.options == map[] ==>
      forall f :: f in r.options ==> r.options[f] == (if f in e.data then e.data[f] else Default(f))
  {
    if e.options != map[] then e
    else Entry(map[], map f | f in AllFields :: if f in e.data then e.data[f] else Default(f))
  }

  /** Where the integration finds a field of an entry: in its options once
      they exist, in its data before. */
  function ConfiguredValue(e: Entry, f: Field): Option<PyValue> {
    if f in e.options then Some(e.options[f])
    else if f in e.data then Some(e.data[f])
    else None
  }

  /** The entry holds every field, in its data or in its options: true of
      every entry the flows create and every entry set up from one. */
  predicate Complete(e: Entry) {
    e.options.Keys == AllFields || (e.options == map[] && e.data.Keys == AllFields)
  }

  /** Setup moves the configuration without changing it: a complete entry
      has the same configured values before and after, and it stays complete. */
  lemma SetUpKeepsConfiguration(e: Entry, f: Field)
    requires Complete(e)
    ensures Complete(SetUpEntry(e))
    ensures ConfiguredValue(SetUpEntry(e), f) == ConfiguredValue(e, f)
    ensures ConfiguredValue(SetUpEntry(e), f).Some?
  {
    AllFieldsListed(f);
    if e.options == map[] {
      assert SiteId in SetUpEntry(e).options;
    }
  }

  // ---------------------------------------------------------------------------
  // Duplicate checks

  /** `solaredge_forecast_entries`: `entry.data[CONF_SITE_ID]` for every
      entry, or `None` where the lookup raises KeyError, i.e. as soon as one
      entry no longer holds its site ID in its data. */
  function ConfiguredSiteIds(entries: seq<Entry>): (r: Option<set<PyValue>>)
    ensures r.None? <==> exists i :: 0 <= i < |entries| && SiteId !in entries[i].data
    ensures r.Some? ==> forall v :: v in r.value <==>
      exists i :: 0 <= i < |entries| && SiteId in entries[i].data && entries[i].data[SiteId] == v
  {
    if forall i :: 0 <= i < |entries| ==> SiteId in entries[i].data
    then Some(set i | 0 <= i < |entries| :: entries[i].data[SiteId])
    else None
  }

  /** Once one entry has been set up it no longer has its site ID in its
      data, so the lookup raises whatever the other entries hold. */
  lemma SetUpEntryHidesSiteId(entries: seq<Entry>, i: int)
    requires 0 <= i < |entries| && entries[i].options == map[]
    ensures ConfiguredSiteIds(entries[i := SetUpEntry(entries[i])]).None?
  {
    assert SiteId !in entries[i := SetUpEntry(entries[i])][i].data;
  }

  /** `_installation_id_in_configuration_exists`; `None` where the lookup raises. */
  function InstallationIdExists(entries: seq<Entry>, siteId: int): (r: Option<bool>)
    ensures r.None? <==> exists i :: 0 <= i < |entries| && SiteId !in entries[i].data
    ensures r.Some? ==> (r.value <==>
      exists i :: 0 <= i < |entries| && SiteId in entries[i].data && entries[i].data[SiteId] == PyInt(siteId))
  {
    match ConfiguredSiteIds(entries)
    case None => None
    case Some(ids) => Some(PyInt(siteId) in ids)
  }

  /** The entry's data holds no site ID or an int one, as in every entry the
      flows create (the schema's `cv.positive_int`) or set up. */
  predicate IntSiteId(e: Entry) {
    SiteId in e.data ==> e.data[SiteId].PyInt?
  }

  /** `_account_key_in_configuration_exists` as written: it looks the account
      key up among the configured site IDs, which are ints, so it never finds
      it; `None` where the lookup raises. */
  function AccountKeyExistsAsWritten(entries: seq<Entry>, accountKey: string): (r: Option<bool>)
    ensures r.None? <==> exists i :: 0 <= i < |entries| && SiteId !in entries[i].data
    ensures r == Some(true) <==> (r.Some? &&
      exists i :: 0 <= i < |entries| && SiteId in entries[i].data && entries[i].data[SiteId] == PyStr(accountKey))
    ensures (forall i :: 0 <= i < |entries| ==> IntSiteId(entries[i])) ==> r != Some(true)
  {
    match ConfiguredSiteIds(entries)
    case None => None
    case Some(ids) => Some(PyStr(accountKey) in ids)
  }

  /** The configured values of field `f` over all entries. */
  function ConfiguredValues(entries: seq<Entry>, f: Field): set<PyValue> {
    set i | 0 <= i < |entries| && ConfiguredValue(entries[i], f).Some? :: ConfiguredValue(entries[i], f).value
  }

  /** `_installation_id_in_configuration_exists` reading each entry's site ID
      wherever the entry keeps it. */
  function InstallationIdExistsFixed(entries: seq<Entry>, siteId: int): (r: bool)
    ensures r <==> exists i :: 0 <= i < |entries| && ConfiguredValue(entries[i], SiteId) == Some(PyInt(siteId))
  {
    PyInt(siteId) in ConfiguredValues(entries, SiteId)
  }

  /** `_account_key_in_configuration_exists` as its docstring says: the key
      belongs to a configured entry. */
  function AccountKeyExists(entries: seq<Entry>, accountKey: string): (r: bool)
    ensures r <==> exists i :: 0 <= i < |entries| && ConfiguredValue(entries[i], AccountKey) == Some(PyStr(accountKey))
  {
    PyStr(accountKey) in ConfiguredValues(entries, AccountKey)
  }

  /** The corrected duplicate checks give the same answer before and after
      an entry is set up. */
  lemma DuplicateChecksIgnoreSetUp(entries: seq<Entry>, i: int, siteId: int, accountKey: string)
    requires 0 <= i < |entries| && Complete(entries[i])
    ensures InstallationIdExistsFixed(entries[i := SetUpEntry(entries[i])], siteId) == InstallationIdExistsFixed(entries, siteId)
    ensures AccountKeyExists(entries[i := SetUpEntry(entries[i])], accountKey) == AccountKeyExists(entries, accountKey)
  {
    SetUpKeepsConfiguration(entries[i], SiteId);
    SetUpKeepsConfiguration(entries[i], AccountKey);
    var after := entries[i := SetUpEntry(entries[i])];
    assert forall j :: 0 <= j < |entries| ==>
      ConfiguredValue(after[j], SiteId) == ConfiguredValue(entries[j], SiteId)
      && ConfiguredValue(after[j], AccountKey) == ConfiguredValue(entries[j], AccountKey);
  }

  // ---------------------------------------------------------------------------
  // The configuration flow's user step

  /** The error keys the flows report. */
  datatype ErrorKey = InvalidStartday | InvalidEndday | InvalidStartdateProduction | InvalidPeriod | AlreadyConfigured

  /** The field each period check reports on, with its error key. */
  const PeriodErrors: set<(Field, ErrorKey)> :=
    {(StartDay, InvalidStartday), (EndDay, InvalidEndday), (StartDateProduction, InvalidStartdateProduction), (EndMonth, InvalidPeriod)}

  datatype UserStep = CreateEntry(title: string, data: UserInput) | ShowForm(errors: map<Field, ErrorKey>) | RaisesKeyError

  const EntryTitle: string := "Solaredge Forecast"

  /** The first failing check of the period validations as written, in the
      order both flows run them, with the field and key it reports. */
  function FirstInvalidPeriod(u: UserInput, now: Moment): (r: Option<(Field, ErrorKey)>)
    requires ValidMoment(now)
    ensures r.Some? ==> r.value in PeriodErrors
    ensures r.None? <==>
      && DateValidation(u.startDay, u.startMonth, now) && DateValidation(u.endDay, u.endMonth, now)
      && StartdateValidation(u.startDateProduction, now)
      && PeriodValidation(u.startDay, u.startMonth, u.endDay, u.endMonth, now)
  {
    if !DateValidation(u.startDay, u.startMonth, now) then Some((StartDay, InvalidStartday))
    else if !DateValidation(u.endDay, u.endMonth, now) then Some((EndDay, InvalidEndday))
    else if !StartdateValidation(u.startDateProduction, now) then Some((StartDateProduction, InvalidStartdateProduction))
    else if !PeriodValidation(u.startDay, u.startMonth, u.endDay, u.endMonth, now) then Some((EndMonth, InvalidPeriod))
    else None
  }

  /** The same chain with the corrected date and period validators. */
  function FirstInvalidPeriodFixed(u: UserInput, now: Moment): (r: Option<(Field, ErrorKey)>)
    requires ValidMoment(now)
    ensures r.Some? ==> r.value in PeriodErrors
    ensures r.None? <==>
      && DateValidationFixed(u.startDay, u.startMonth, now) && DateValidationFixed(u.endDay, u.endMonth, now)
      && StartdateValidation(u.startDateProduction, now)
      && PeriodValidationFixed(u.startDay, u.startMonth, u.endDay, u.endMonth, now)
  {
    if !DateValidationFixed(u.startDay, u.startMonth, now) then Some((StartDay, InvalidStartday))
    else if !DateValidationFixed(u.endDay, u.endMonth, now) then Some((EndDay, InvalidEndday))
    else if !StartdateValidation(u.startDateProduction, now) then Some((StartDateProduction, InvalidStartdateProduction))
    else if !PeriodValidationFixed(u.startDay, u.startMonth, u.endDay, u.endMonth, now) then Some((EndMonth, InvalidPeriod))
    else None
  }

  /** The step shows the form with error `e` on field `f`. */
  predicate Reports(r: UserStep, f: Field, e: ErrorKey) {
    r.ShowForm? && f in r.errors && r.errors[f] == e
  }

  /** `SolaredgeForecastConfigFlow.async_step_user` as written: the errors
      start empty; without input the form is shown; with input the checks run
      in the order start day, end day, production start, period, site ID,
      account key, the first failure is the only error reported, and an entry
      is created when none fails. The site ID lookup raises KeyError once an
      entry has been set up, and the account key is looked up among the site
      IDs. */
  function StepUser(input: Option<UserInput>, now: Moment, entries: seq<Entry>): (r: UserStep)
    requires ValidMoment(now)
    ensures input.None? ==> r == ShowForm(map[])
    ensures r.CreateEntry? ==> r == CreateEntry(EntryTitle, input.value)
    ensures r.ShowForm? && input.Some? ==> |r.errors| == 1
    ensures r.RaisesKeyError? <==> (input.Some? && FirstInvalidPeriod(input.value, now).None?
      && exists i :: 0 <= i < |entries| && SiteId !in entries[i].data)
    ensures r.CreateEntry? <==> (input.Some? && FirstInvalidPeriod(input.value, now).None?
      && (forall i :: 0 <= i < |entries| ==> SiteId in entries[i].data)
      && (forall i :: 0 <= i < |entries| ==>
            entries[i].data[SiteId] != PyInt(input.value.siteId) && entries[i].data[SiteId] != PyStr(input.value.accountKey)))
    ensures input.Some? ==>
      var u := input.value;
      var startOk := DateValidation(u.startDay, u.startMonth, now);
      var endOk := startOk && DateValidation(u.endDay, u.endMonth, now);
      var productionOk := endOk && StartdateValidation(u.startDateProduction, now);
      var periodOk := productionOk && PeriodValidation(u.startDay, u.startMonth, u.endDay, u.endMonth, now);
      && (Reports(r, StartDay, InvalidStartday) <==> !startOk)
      && (Reports(r, EndDay, InvalidEndday) <==> startOk && !endOk)
      && (Reports(r, StartDateProduction, InvalidStartdateProduction) <==> endOk && !productionOk)
      && (Reports(r, EndMonth, InvalidPeriod) <==> productionOk && !periodOk)
      && (Reports(r, SiteId, AlreadyConfigured) <==> periodOk && InstallationIdExists(entries, u.siteId) == Some(true))
      && (Reports(r, AccountKey, AlreadyConfigured) <==>
            periodOk && InstallationIdExists(entries, u.siteId) == Some(false)
            && AccountKeyExistsAsWritten(entries, u.accountKey) == Some(true))
    ensures (forall i :: 0 <= i < |entries| ==> IntSiteId(entries[i])) ==> !Reports(r, AccountKey, AlreadyConfigured)
  {
    match input
    case None => ShowForm(map[])
    case Some(u) =>
      match FirstInvalidPeriod(u, now)
      case Some((f, e)) => ShowForm(map[f := e])
      case None =>
        match InstallationIdExists(entries, u.siteId)
        case None => RaisesKeyError
        case Some(true) => ShowForm(map[SiteId := AlreadyConfigured])
        case Some(false) =>
          match AccountKeyExistsAsWritten(entries, u.accountKey)
          case None => RaisesKeyError
          case Some(true) => ShowForm(map[AccountKey := AlreadyConfigured])
          case Some(false) => CreateEntry(EntryTitle, u)
  }

  /** The user step with the corrected validators and duplicate checks: it
      never raises. */
  function StepUserFixed(input: Option<UserInput>, now: Moment, entries: seq<Entry>): (r: UserStep)
    requires ValidMoment(now)
    ensures !r.RaisesKeyError?
    ensures input.None? ==> r == ShowForm(map[])
    ensures r.CreateEntry? ==> r == CreateEntry(EntryTitle, input.value)
    ensures r.ShowForm? && input.Some? ==> |r.errors| == 1
    ensures r.CreateEntry? <==> (input.Some? && FirstInvalidPeriodFixed(input.value, now).None?
      && !InstallationIdExistsFixed(entries, input.value.siteId) && !AccountKeyExists(entries, input.value.accountKey))
    ensures input.Some? && FirstInvalidPeriodFixed(input.value, now).Some? ==>
      var (f, e) := FirstInvalidPeriodFixed(input.value, now).value;
      r == ShowForm(map[f := e])
    ensures input.Some? && FirstInvalidPeriodFixed(input.value, now).None? ==>
      && (Reports(r, SiteId, AlreadyConfigured) <==> InstallationIdExistsFixed(entries, input.value.siteId))
      && (Reports(r, AccountKey, AlreadyConfigured) <==>
            !InstallationIdExistsFixed(entries, input.value.siteId) && AccountKeyExists(entries, input.value.accountKey))
  {
    match input
    case None => ShowForm(map[])
    case Some(u) =>
      match FirstInvalidPeriodFixed(u, now)
      case Some((f, e)) => ShowForm(map[f := e])
      case None =>
        if InstallationIdExistsFixed(entries, u.siteId) then ShowForm(map[SiteId := AlreadyConfigured])
        else if AccountKeyExists(entries, u.accountKey) then ShowForm(map[AccountKey := AlreadyConfigured])
        else CreateEntry(EntryTitle, u)
  }

  /** What the corrected user step accepts, the integration can set up: in
      the years 1001..9998 the constructor resolves a window, and it is the
      annual cycle that contains today. */
  lemma StepUserFixedEntryResolves(u: UserInput, now: Moment, entries: seq<Entry>)
    requires ValidMoment(now) && 1001 <= now.date.year <= 9998
    requires StepUserFixed(Some(u), now, entries).CreateEntry?
    ensures
      var w := PeriodWindow.ResolveWindow(PeriodWindow.PeriodOptions(u.startDay, u.startMonth, u.endDay, u.endMonth, u.startDateProduction), now.date);
      && w.Ok?
      && var s := ParseYmd(w.value.startdate).value;
         var e := ParseYmd(w.value.enddate).value;
         Before(e, Date(s.year + 1, s.month, s.day)) && MidnightBefore(s, now)
  {
    var opts := PeriodWindow.PeriodOptions(u.startDay, u.startMonth, u.endDay, u.endMonth, u.startDateProduction);
    DateValidationFixedResolves(opts, now);
    PeriodValidationFixedMatchesWindow(u.startDay, u.startMonth, u.endDay, u.endMonth, now);
    assert PeriodWindow.ResolveWindow(opts, now.date).value.startdate
      == PeriodWindow.ResolveWindow(PeriodWindow.PeriodOptions(u.startDay, u.startMonth, u.endDay, u.endMonth, ""), now.date).value.startdate;
    assert PeriodWindow.ResolveWindow(opts, now.date).value.enddate
      == PeriodWindow.ResolveWindow(PeriodWindow.PeriodOptions(u.startDay, u.startMonth, u.endDay, u.endMonth, ""), now.date).value.enddate;
  }

  /** A second site after the first has been set up: as written, the step
      raises KeyError once the period checks pass; the corrected step
      reports a repeated site ID. */
  lemma SecondSiteAfterSetUp(first: UserInput, u: UserInput, now: Moment)
    requires ValidMoment(now)
    ensures FirstInvalidPeriod(u, now).None? ==> StepUser(Some(u), now, [SetUpEntry(NewEntry(first))]) == RaisesKeyError
    ensures FirstInvalidPeriodFixed(u, now).None? && u.siteId == first.siteId ==>
      Reports(StepUserFixed(Some(u), now, [SetUpEntry(NewEntry(first))]), SiteId, AlreadyConfigured)
  {
    var e := SetUpEntry(NewEntry(first));
    SetUpEntryHidesSiteId([NewEntry(first)], 0);
    assert [NewEntry(first)][0 := e] == [e];
    InputValuesCoverFields(first);
    SetUpKeepsConfiguration(NewEntry(first), SiteId);
    assert ConfiguredValue([e][0], SiteId) == Some(PyInt(first.siteId));
    if FirstInvalidPeriodFixed(u, now).None? && u.siteId == first.siteId {
      assert InstallationIdExistsFixed([e], u.siteId);
    }
  }

  /** Period 1 December - 31 January submitted at noon on 1 June 2024: the
      step as written creates the entry, the corrected step reports the
      period. */
  lemma WrapPeriodFlowExample()
    ensures StepUser(Some(UserInput(7, "KEY", 1, "December", 31, "January", "")), Moment(Date(2024, 6, 1), 43_200_000_000), [])
      == CreateEntry(EntryTitle, UserInput(7, "KEY", 1, "December", 31, "January", ""))
    ensures StepUserFixed(Some(UserInput(7, "KEY", 1, "December", 31, "January", "")), Moment(Date(2024, 6, 1), 43_200_000_000), [])
      == ShowForm(map[EndMonth := InvalidPeriod])
  {
    PeriodValidationWrapExample();
    assert PeriodWindow.ParseMonthDay("December", 1).Some? && PeriodWindow.ParseMonthDay("January", 31).Some?;
  }

  /** A second entry with the account key, but not the site ID, of a first
      one that has not been set up yet: once the period checks pass, the step
      as written creates it, and the corrected step reports the key. */
  lemma AccountKeyDuplicateExample(first: UserInput, u: UserInput, now: Moment)
    requires ValidMoment(now)
    requires u.accountKey == first.accountKey && u.siteId != first.siteId
    ensures FirstInvalidPeriod(u, now).None? ==> StepUser(Some(u), now, [NewEntry(first)]) == CreateEntry(EntryTitle, u)
    ensures FirstInvalidPeriodFixed(u, now).None? ==>
      StepUserFixed(Some(u), now, [NewEntry(first)]) == ShowForm(map[AccountKey := AlreadyConfigured])
  {
    var entries := [NewEntry(first)];
    assert entries[0].data[SiteId] == PyInt(first.siteId);
    assert ConfiguredValue(entries[0], SiteId) == Some(PyInt(first.siteId));
    assert ConfiguredValue(entries[0], AccountKey) == Some(PyStr(u.accountKey));
  }

  /** 1 January and 31 December pass the date checks of 2024. */
  lemma CalendarYearDates(now: Moment)
    requires now.date.year == 2024
    ensures DateValidation(1, "January", now) && DateValidation(31, "December", now)
    ensures PeriodWindow.ParseMonthDay("January", 1).Some? && PeriodWindow.ParseMonthDay("December", 31).Some?
    ensures DateInYear(1, "January", now) == Date(2024, 1, 1)
    ensures DateInYear(31, "December", now) == Date(2024, 12, 31)
  {
    MonthNameRoundTrip(12);
    MonthNameRoundTrip(1);
    assert MonthName(12) == "December" && MonthName(1) == "January";
  }

  /** The period 1 January - 31 December at noon on 1 June 2024 passes every
      period check, as written and corrected: with it, a second entry that
      repeats a first entry's account key shows `AccountKeyDuplicateExample`. */
  lemma CalendarYearPasses(u: UserInput, now: Moment)
    requires u.startDay == 1 && u.startMonth == "January" && u.endDay == 31 && u.endMonth == "December"
    requires u.startDateProduction == "" && now == Moment(Date(2024, 6, 1), 43_200_000_000)
    ensures FirstInvalidPeriod(u, now).None? && FirstInvalidPeriodFixed(u, now).None?
  {
    CalendarYearDates(now);
    assert PeriodValidation(1, "January", 31, "December", now);
    assert PeriodValidationFixed(1, "January", 31, "December", now);
  }

  // ---------------------------------------------------------------------------
  // The options flow

  /** The options flow handler's state: the options being edited and the
      errors of earlier submissions (never reset). */
  datatype OptionsFlow = OptionsFlow(options: map<Field, PyValue>, errors: map<Field, ErrorKey>)

  datatype OptionsStep = UpdateOptions(title: string, data: map<Field, PyValue>) | ShowOptionsForm(errors: map<Field, ErrorKey>)

  /** `SolaredgeForecastOptionsFlowHandler.__init__`: a copy of the entry's options, no errors. */
  function StartOptionsFlow(options: map<Field, PyValue>): (flow: OptionsFlow)
    ensures flow.options == options && flow.errors == map[]
  {
    OptionsFlow(options, map[])
  }

  /** `SolaredgeForecastOptionsFlowHandler.async_step_user`: the submission
      is merged into the options BEFORE the checks, and as the form has every
      field it replaces them, even when the submission is rejected; the
      errors of earlier submissions are kept; the four period checks as
      written run in the user step's order (no duplicate checks); when all
      pass, an entry with the merged options is created. */
  function OptionsStepUser(flow: OptionsFlow, input: Option<UserInput>, now: Moment): (r: (OptionsFlow, OptionsStep))
    requires ValidMoment(now)
    ensures input.None? ==> r == (flow, ShowOptionsForm(flow.errors))
    ensures input.Some? ==> r.0.options == InputValues(input.value)
    ensures forall f :: f in flow.errors ==> f in r.0.errors
    ensures |r.0.errors.Keys - flow.errors.Keys| <= 1
    ensures r.1.UpdateOptions? <==> input.Some? && FirstInvalidPeriod(input.value, now).None?
    ensures r.1.UpdateOptions? ==> r.1 == UpdateOptions(EntryTitle, r.0.options) && r.0.errors == flow.errors
    ensures r.1.ShowOptionsForm? ==> r.1.errors == r.0.errors
    ensures input.Some? && FirstInvalidPeriod(input.value, now).Some? ==>
      var (f, e) := FirstInvalidPeriod(input.value, now).value;
      r.0.errors == flow.errors[f := e]
  {
    match input
    case None => (flow, ShowOptionsForm(flow.errors))
    case Some(u) =>
      var options := flow.options + InputValues(u);
      InputValuesCoverFields(u);
      assert options == InputValues(u);
      match FirstInvalidPeriod(u, now)
      case None => (OptionsFlow(options, flow.errors), UpdateOptions(EntryTitle, options))
      case Some((f, e)) =>
        var errors := flow.errors[f := e];
        assert errors.Keys - flow.errors.Keys <= {f};
        (OptionsFlow(options, errors), ShowOptionsForm(errors))
  }

  /** `async_step_init`: shows the form of `async_step_user` without input. */
  function OptionsStepInit(flow: OptionsFlow, now: Moment): (r: (OptionsFlow, OptionsStep))
    requires ValidMoment(now)
    ensures r == (flow, ShowOptionsForm(flow.errors))
  {
    OptionsStepUser(flow, None, now)
  }

  /** The handler after the submissions `inputs`, one after another. The
      program's flow ends at the first submission that passes; the fold goes
      on past it, so what is proved of every fold holds of those runs. */
  function RunOptions(flow: OptionsFlow, inputs: seq<UserInput>, now: Moment): OptionsFlow
    requires ValidMoment(now)
    decreases |inputs|
  {
    if inputs == [] then flow
    else RunOptions(OptionsStepUser(flow, Some(inputs[0]), now).0, inputs[1..], now)
  }

  /** The field on which submission `u` is rejected, if any. */
  function RejectedField(u: UserInput, now: Moment): set<Field>
    requires ValidMoment(now)
  {
    match FirstInvalidPeriod(u, now)
    case None => {}
    case Some((f, _)) => {f}
  }

  /** The union of the sets `sets`. */
  function UnionAll(sets: seq<set<Field>>): set<Field>
    decreases |sets|
  {
    if sets == [] then {} else sets[0] + UnionAll(sets[1..])
  }

  /** A field is in the union exactly when it is in one of the sets. */
  lemma {:induction false} UnionAllSpec(sets: seq<set<Field>>, f: Field)
    ensures f in UnionAll(sets) <==> exists i :: 0 <= i < |sets| && f in sets[i]
    decreases |sets|
  {
    if sets != [] {
      UnionAllSpec(sets[1..], f);
      if exists i :: 0 <= i < |sets| && f in sets[i] {
        var i :| 0 <= i < |sets| && f in sets[i];
        if i > 0 {
          assert sets[1..][i - 1] == sets[i];
        }
      }
      if f in UnionAll(sets[1..]) {
        var i :| 0 <= i < |sets[1..]| && f in sets[1..][i];
        assert sets[i + 1] == sets[1..][i];
      }
    }
  }

  /** The fields on which the submissions `inputs` are rejected. */
  function RejectedFields(inputs: seq<UserInput>, now: Moment): set<Field>
    requires ValidMoment(now)
  {
    UnionAll(seq(|inputs|, i requires 0 <= i < |inputs| => RejectedField(inputs[i], now)))
  }

  /** A field is among the rejected ones exactly when some submission was
      rejected on it. */
  lemma RejectedFieldsSpec(inputs: seq<UserInput>, now: Moment, f: Field)
    requires ValidMoment(now)
    ensures f in RejectedFields(inputs, now) <==> exists i :: 0 <= i < |inputs| && f in RejectedField(inputs[i], now)
  {
    var sets := seq(|inputs|, i requires 0 <= i < |inputs| => RejectedField(inputs[i], now));
    UnionAllSpec(sets, f);
    if f in RejectedFields(inputs, now) {
      var i :| 0 <= i < |sets| && f in sets[i];
      assert f in RejectedField(inputs[i], now);
    }
    if exists i :: 0 <= i < |inputs| && f in RejectedField(inputs[i], now) {
      var i :| 0 <= i < |inputs| && f in RejectedField(inputs[i], now);
      assert f in sets[i];
    }
  }

  /** The rejected fields of a run are those of its first submission and
      those of the rest. */
  lemma RejectedFieldsCons(inputs: seq<UserInput>, now: Moment)
    requires ValidMoment(now) && inputs != []
    ensures RejectedFields(inputs, now) == RejectedField(inputs[0], now) + RejectedFields(inputs[1..], now)
  {
    var sets := seq(|inputs|, i requires 0 <= i < |inputs| => RejectedField(inputs[i], now));
    var rest := seq(|inputs[1..]|, i requires 0 <= i < |inputs[1..]| => RejectedField(inputs[1..][i], now));
    assert |sets[1..]| == |rest|;
    forall i | 0 <= i < |rest|
      ensures sets[1..][i] == rest[i]
    {
      assert inputs[1..][i] == inputs[i + 1];
    }
    assert sets[1..] == rest;
    assert UnionAll(sets) == sets[0] + UnionAll(sets[1..]);
  }

  /** Errors only accumulate over a run: after it the fields with an error
      are those that had one before and those some submission was rejected on. */
  lemma {:induction false} RunOptionsErrors(flow: OptionsFlow, inputs: seq<UserInput>, now: Moment)
    requires ValidMoment(now)
    ensures RunOptions(flow, inputs, now).errors.Keys == flow.errors.Keys + RejectedFields(inputs, now)
    decreases |inputs|
  {
    if inputs != [] {
      var next := OptionsStepUser(flow, Some(inputs[0]), now).0;
      OptionsStepErrorKeys(flow, inputs[0], now);
      RunOptionsErrors(next, inputs[1..], now);
      RejectedFieldsCons(inputs, now);
    }
  }

  /** One submission adds to the error keys exactly its rejected field. */
  lemma OptionsStepErrorKeys(flow: OptionsFlow, u: UserInput, now: Moment)
    requires ValidMoment(now)
    ensures OptionsStepUser(flow, Some(u), now).0.errors.Keys == flow.errors.Keys + RejectedField(u, now)
  {
    var next := OptionsStepUser(flow, Some(u), now).0;
    match FirstInvalidPeriod(u, now)
    case None =>
      assert next.errors == flow.errors;
    case Some((f, e)) =>
      assert next.errors == flow.errors[f := e];
  }

  /** Over a run every error keeps the key of its field's validator. */
  lemma {:induction false} RunOptionsErrorKeys(flow: OptionsFlow, inputs: seq<UserInput>, now: Moment)
    requires ValidMoment(now)
    requires forall f :: f in flow.errors ==> (f, flow.errors[f]) in PeriodErrors
    ensures forall f :: f in RunOptions(flow, inputs, now).errors ==> (f, RunOptions(flow, inputs, now).errors[f]) in PeriodErrors
    decreases |inputs|
  {
    if inputs != [] {
      var next := OptionsStepUser(flow, Some(inputs[0]), now).0;
      assert forall f :: f in next.errors ==> (f, next.errors[f]) in PeriodErrors;
      RunOptionsErrorKeys(next, inputs[1..], now);
    }
  }

  /** After a run the options are those of the last submission. */
  lemma {:induction false} RunOptionsLast(flow: OptionsFlow, inputs: seq<UserInput>, now: Moment)
    requires ValidMoment(now) && inputs != []
    ensures RunOptions(flow, inputs, now).options == InputValues(inputs[|inputs| - 1])
    decreases |inputs|
  {
    var next := OptionsStepUser(flow, Some(inputs[0]), now).0;
    if |inputs| > 1 {
      RunOptionsLast(next, inputs[1..], now);
      assert inputs[1..][|inputs[1..]| - 1] == inputs[|inputs| - 1];
    }
  }

  /** A fresh options flow over a run of submissions on one form: the form
      shows an error on exactly the fields on which some submission was
      rejected, each with that field's key, even after later submissions
      pass; the options are those of the last submission. */
  lemma OptionsErrorsAccumulate(options: map<Field, PyValue>, inputs: seq<UserInput>, now: Moment)
    requires ValidMoment(now)
    ensures
      var r := RunOptions(StartOptionsFlow(options), inputs, now);
      && (forall f :: f in r.errors <==> exists i :: 0 <= i < |inputs| && f in RejectedField(inputs[i], now))
      && (forall f :: f in r.errors ==> (f, r.errors[f]) in PeriodErrors)
      && (inputs != [] ==> r.options == InputValues(inputs[|inputs| - 1]))
      && (inputs == [] ==> r.options == options)
  {
    RunOptionsErrors(StartOptionsFlow(options), inputs, now);
    RunOptionsErrorKeys(StartOptionsFlow(options), inputs, now);
    if inputs != [] {
      RunOptionsLast(StartOptionsFlow(options), inputs, now);
    }
    forall f ensures f in RejectedFields(inputs, now) <==> exists i :: 0 <= i < |inputs| && f in RejectedField(inputs[i], now) {
      RejectedFieldsSpec(inputs, now, f);
    }
  }
}
