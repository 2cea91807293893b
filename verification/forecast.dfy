/** The forecast computation of `SolaredgeForecast.get_solar_forecast`.

    The monitoring service's answers are parameters: `monthly` is the list of
    monthly energy values (date of the month, energy in Wh) from production
    start to the period end, and `windowWh` is the energy the service reports
    for the configured period. `today` is the date part of the wall clock.

    The computation:
    1. drops monthly values that are exactly zero, converts Wh to kWh;
    2. for every calendar month 1..12 takes the mean over all years of that
       month's values and divides it by a fixed month length (February is
       always 28 days) - a month without values gets no average (NaN);
    3. sums the average of the day's month over every day from today to the
       period end, skipping months without an average, and rounds the sum;
    4. rounds the period's produced energy and adds the two rounded figures. */
module Forecast {
  import opened Wrappers
  import opened Calendar
  import opened DateText

  /** One monthly value of the energy query. */
  datatype Sample = Sample(date: Date, wh: real)

  /** One row of the frame after conversion: year, month and energy in kWh. */
  datatype Row = Row(year: int, month: int, kwh: real)

  /** Per calendar month 1..12, the average daily energy in kWh, or `None`
      where pandas computes NaN (the month has no retained values). */
  type MonthTable = map<int, Option<real>>

  ghost predicate IsMonthTable(avg: MonthTable) {
    forall m :: m in avg <==> 1 <= m <= 12
  }

  predicate NonNegativeSamples(samples: seq<Sample>) {
    forall i :: 0 <= i < |samples| ==> samples[i].wh >= 0.0
  }

  predicate NonNegativeTable(avg: MonthTable) {
    forall m :: m in avg && avg[m].Some? ==> avg[m].value >= 0.0
  }

  // ---------------------------------------------------------------------------
  // Step 1: filtering and unit conversion

  /** `df[df.energy != 0]`: the samples whose energy is not exactly zero. */
  function DropZeroSamples(samples: seq<Sample>): (r: seq<Sample>)
    ensures forall s :: multiset(r)[s] == if s.wh == 0.0 then 0 else multiset(samples)[s]
  {
    if samples == [] then []
    else
      assert samples == [samples[0]] + samples[1..];
      (if samples[0].wh == 0.0 then [] else [samples[0]]) + DropZeroSamples(samples[1..])
  }

  /** Wh to kWh, and the year and month of each sample's date. */
  function ToRows(samples: seq<Sample>): (r: seq<Row>)
    ensures |r| == |samples|
    ensures forall i :: 0 <= i < |r| ==>
      r[i].year == samples[i].date.year && r[i].month == samples[i].date.month && r[i].kwh * 1000.0 == samples[i].wh
  {
    seq(|samples|, i requires 0 <= i < |samples| => Row(samples[i].date.year, samples[i].date.month, samples[i].wh / 1000.0))
  }

  // ---------------------------------------------------------------------------
  // Step 2: per-month averages

  function Sum(xs: seq<real>): real {
    if xs == [] then 0.0 else xs[0] + Sum(xs[1..])
  }

  /** `df.loc[df['month'] == m, 'energy']`: the kWh values of month `m`, in order. */
  function MonthEnergies(rows: seq<Row>, m: int): (r: seq<real>)
    ensures |r| <= |rows|
    ensures r == [] <==> forall i :: 0 <= i < |rows| ==> rows[i].month != m
    ensures (forall i :: 0 <= i < |rows| ==> rows[i].kwh >= 0.0) ==> forall j :: 0 <= j < |r| ==> r[j] >= 0.0
  {
    if rows == [] then []
    else (if rows[0].month == m then [rows[0].kwh] else []) + MonthEnergies(rows[1..], m)
  }

  /** The arithmetic mean; `None` (NaN) for no values. */
  function Mean(xs: seq<real>): (r: Option<real>)
    ensures r.None? <==> xs == []
    ensures r.Some? ==> r.value * |xs| as real == Sum(xs)
  {
    if xs == [] then None else Some(Sum(xs) / |xs| as real)
  }

  lemma {:induction false} SumBounds(xs: seq<real>, lo: real, hi: real)
    requires forall j :: 0 <= j < |xs| ==> lo <= xs[j] <= hi
    ensures |xs| as real * lo <= Sum(xs) <= |xs| as real * hi
  {
    if xs != [] {
      SumBounds(xs[1..], lo, hi);
    }
  }

  /** The mean lies between the smallest and the largest value. */
  lemma MeanBounds(xs: seq<real>, lo: real, hi: real)
    requires xs != []
    requires forall j :: 0 <= j < |xs| ==> lo <= xs[j] <= hi
    ensures lo <= Mean(xs).value <= hi
  {
    SumBounds(xs, lo, hi);
    var n := |xs| as real;
    var v := Mean(xs).value;
    if v < lo {
      MulPositive(lo - v, n);
    }
    if v > hi {
      MulPositive(v - hi, n);
    }
  }

  lemma MulPositive(x: real, y: real)
    requires x > 0.0 && y > 0.0
    ensures x * y > 0.0
  {
  }

  /** The fixed month lengths of the source; February is never 29. */
  const NumberOfDays: seq<int> := [31, 28, 31, 30, 31, 30, 31, 31, 30, 31, 30, 31]

  /** The fixed table is the calendar's month length except for February of a leap year. */
  lemma NumberOfDaysIgnoresLeapYears(y: int, m: int)
    requires 1 <= m <= 12
    ensures NumberOfDays[m - 1] == DaysInMonth(y, m) - (if m == 2 && IsLeapYear(y) then 1 else 0)
  {
  }

  /** Entry `m` of `average_production`: the mean kWh of month `m`'s rows
      over all years, divided by the fixed month length; `None` (NaN) when no
      row falls in month `m`. */
  function MonthAverage(rows: seq<Row>, m: int): (r: Option<real>)
    requires 1 <= m <= 12
    ensures r.None? <==> forall i :: 0 <= i < |rows| ==> rows[i].month != m
    ensures r.Some? ==> r.value * NumberOfDays[m - 1] as real == Mean(MonthEnergies(rows, m)).value
  {
    var xs := MonthEnergies(rows, m);
    match Mean(xs)
    case None => None
    case Some(v) => Some(v / NumberOfDays[m - 1] as real)
  }

  /** `average_production`: one entry per month 1..12. */
  function AverageProduction(rows: seq<Row>): (avg: MonthTable)
    ensures IsMonthTable(avg)
    ensures forall m :: 1 <= m <= 12 ==> avg[m] == MonthAverage(rows, m)
  {
    map m | 1 <= m <= 12 :: MonthAverage(rows, m)
  }

  /** Non-negative energies give a non-negative average. */
  lemma MonthAverageNonNegative(rows: seq<Row>, m: int)
    requires 1 <= m <= 12
    requires forall i :: 0 <= i < |rows| ==> rows[i].kwh >= 0.0
    ensures MonthAverage(rows, m).Some? ==> MonthAverage(rows, m).value >= 0.0
  {
    var r := MonthAverage(rows, m);
    if r.Some? {
      var xs := MonthEnergies(rows, m);
      MeanBounds(xs, 0.0, MaxOf(xs));
    }
  }

  lemma AverageProductionNonNegative(rows: seq<Row>)
    requires forall i :: 0 <= i < |rows| ==> rows[i].kwh >= 0.0
    ensures NonNegativeTable(AverageProduction(rows))
  {
    forall m | 1 <= m <= 12
      ensures MonthAverage(rows, m).Some? ==> MonthAverage(rows, m).value >= 0.0
    {
      MonthAverageNonNegative(rows, m);
    }
  }

  function MaxOf(xs: seq<real>): (r: real)
    ensures forall j :: 0 <= j < |xs| ==> xs[j] <= r
  {
    if xs == [] then 0.0
    else
      var t := MaxOf(xs[1..]);
      if xs[0] > t then xs[0] else t
  }

  // ---------------------------------------------------------------------------
  // Step 3: the expected energy of the remaining days

  /** The value `df2['month'].map(average_production)` gives a day; NaN days
      count as zero because the pandas sum skips them. */
  function DayValue(avg: MonthTable, d: Date): real
    requires IsMonthTable(avg) && 1 <= d.month <= 12
  {
    avg[d.month].GetOr(0.0)
  }

  predicate MonthsInRange(days: seq<Date>) {
    forall i :: 0 <= i < |days| ==> 1 <= days[i].month <= 12
  }

  /** `df2['energy'].sum()`: the total of the day values. */
  function EstimateSum(avg: MonthTable, days: seq<Date>): (r: real)
    requires IsMonthTable(avg) && MonthsInRange(days)
    ensures days == [] ==> r == 0.0
    ensures NonNegativeTable(avg) ==> r >= 0.0
  {
    if days == [] then 0.0 else DayValue(avg, days[0]) + EstimateSum(avg, days[1..])
  }

  /** Number of days of `days` in month `m`. */
  function CountInMonth(days: seq<Date>, m: int): nat {
    if days == [] then 0 else (if days[0].month == m then 1 else 0) + CountInMonth(days[1..], m)
  }

  /** The estimate computed month by month: for months 1..k, the number of
      days in that month times its average (zero for a month without one). */
  function ByMonth(avg: MonthTable, days: seq<Date>, k: int): real
    requires IsMonthTable(avg) && 0 <= k <= 12
  {
    if k == 0 then 0.0
    else ByMonth(avg, days, k - 1) + CountInMonth(days, k) as real * avg[k].GetOr(0.0)
  }

  lemma {:induction false} ByMonthCons(avg: MonthTable, d: Date, days: seq<Date>, k: int)
    requires IsMonthTable(avg) && 0 <= k <= 12 && 1 <= d.month <= 12
    ensures ByMonth(avg, [d] + days, k) == ByMonth(avg, days, k) + (if d.month <= k then DayValue(avg, d) else 0.0)
  {
    assert ([d] + days)[1..] == days;
    if k > 0 {
      ByMonthCons(avg, d, days, k - 1);
    }
  }

  /** Summing day by day equals summing month by month: every day contributes
      its month's average once, and a month without an average contributes nothing. */
  lemma {:induction false} EstimateByMonth(avg: MonthTable, days: seq<Date>)
    requires IsMonthTable(avg) && MonthsInRange(days)
    ensures EstimateSum(avg, days) == ByMonth(avg, days, 12)
  {
    if days == [] {
      ByMonthEmpty(avg, 12);
    } else {
      EstimateByMonth(avg, days[1..]);
      assert days == [days[0]] + days[1..];
      ByMonthCons(avg, days[0], days[1..], 12);
    }
  }

  lemma {:induction false} ByMonthEmpty(avg: MonthTable, k: int)
    requires IsMonthTable(avg) && 0 <= k <= 12
    ensures ByMonth(avg, [], k) == 0.0
  {
    if k > 0 {
      ByMonthEmpty(avg, k - 1);
    }
  }

  // ---------------------------------------------------------------------------
  // Rounding and the result

  /** Python's `round(x)` on a number: the nearest integer, ties to the even one. */
  function RoundHalfEven(x: real): (r: int)
    ensures -0.5 <= r as real - x <= 0.5
    ensures (r as real - x == 0.5 || x - r as real == 0.5) ==> r % 2 == 0
  {
    var f := x.Floor;
    var frac := x - f as real;
    if frac < 0.5 then f
    else if frac > 0.5 then f + 1
    else if f % 2 == 0 then f else f + 1
  }

  /** The two properties of `RoundHalfEven` single out one integer. */
  lemma RoundHalfEvenUnique(x: real, n: int)
    requires -0.5 <= n as real - x <= 0.5
    requires (n as real - x == 0.5 || x - n as real == 0.5) ==> n % 2 == 0
    ensures n == RoundHalfEven(x)
  {
  }

  datatype ForecastData = ForecastData(produced: int, estimated: int, forecast: int)

  /** Why the engine raises instead of returning a forecast:
      - `UnparsableDate`: a period date is not `YYYYMMDD` (ValueError, lines 9-10);
      - `NoEnergyValues`: the service returned no monthly values, so the frame
        has no `energy` column (AttributeError, line 39);
      - `OutOfPandasRange`: a date pandas must turn into a nanosecond timestamp
        lies outside the range pandas can hold (OutOfBoundsDatetime, lines 45-46
        for the kept samples, line 64 for today and the end). */
  datatype ForecastError = UnparsableDate | NoEnergyValues | OutOfPandasRange

  /** The days whose midnight pandas' nanosecond timestamps can hold: the
      earliest timestamp is shortly after midnight on 21 September 1677, the
      latest is late on 11 April 2262. */
  const PandasFirstDay: Date := Date(1677, 9, 22)
  const PandasLastDay: Date := Date(2262, 4, 11)

  predicate InPandasRange(d: Date) {
    AtOrBefore(PandasFirstDay, d) && AtOrBefore(d, PandasLastDay)
  }

  /** The dates of the samples that survive the zero filter fit pandas' range. */
  predicate KeptDatesInPandasRange(monthly: seq<Sample>) {
    forall i :: 0 <= i < |monthly| && monthly[i].wh != 0.0 ==> InPandasRange(monthly[i].date)
  }

  /** The unrounded energy expected from `today` to `end`, both included:
      month by month, the number of those days in the month times the
      month's daily average, a month without samples contributing nothing;
      nothing once the end has passed. */
  function ExpectedEnergy(monthly: seq<Sample>, today: Date, end: Date): (r: real)
    requires ValidDate(today) && ValidDate(end)
    requires forall i :: 0 <= i < |monthly| ==> ValidDate(monthly[i].date)
    ensures r == ByMonth(AverageProduction(ToRows(DropZeroSamples(monthly))), DateRange(today, end), 12)
    ensures Before(end, today) ==> r == 0.0
  {
    var days := DateRange(today, end);
    var avg := AverageProduction(ToRows(DropZeroSamples(monthly)));
    EstimateByMonth(avg, days);
    EstimateSum(avg, days)
  }

  /** Non-negative monthly energies give a non-negative expectation. */
  lemma ExpectedEnergyNonNegative(monthly: seq<Sample>, today: Date, end: Date)
    requires ValidDate(today) && ValidDate(end)
    requires forall i :: 0 <= i < |monthly| ==> ValidDate(monthly[i].date)
    requires NonNegativeSamples(monthly)
    ensures ExpectedEnergy(monthly, today, end) >= 0.0
  {
    var kept := DropZeroSamples(monthly);
    forall i | 0 <= i < |kept|
      ensures kept[i].wh >= 0.0
    {
      assert multiset(kept)[kept[i]] > 0;
      assert kept[i] in multiset(monthly);
    }
    var rows := ToRows(kept);
    forall i | 0 <= i < |rows|
      ensures rows[i].kwh >= 0.0
    {
      assert rows[i].kwh * 1000.0 == kept[i].wh;
    }
    AverageProductionNonNegative(rows);
  }

  /** `SolaredgeForecast(startdate, enddate, ...)`: parse the period's
      `YYYYMMDD` dates (lines 9-10) and compute produced, estimated and
      forecast energy (`get_solar_forecast`). */
  function SolarForecast(startText: string, endText: string, today: Date, monthly: seq<Sample>, windowWh: real)
    : (r: Result<ForecastData, ForecastError>)
    requires ValidDate(today)
    requires forall i :: 0 <= i < |monthly| ==> ValidDate(monthly[i].date)
    ensures r == Err(UnparsableDate) <==> ParseYmd(startText).None? || ParseYmd(endText).None?
    ensures r == Err(NoEnergyValues) <==> ParseYmd(startText).Some? && ParseYmd(endText).Some? && monthly == []
    ensures r.Ok? <==>
      && ParseYmd(startText).Some? && ParseYmd(endText).Some? && monthly != []
      && KeptDatesInPandasRange(monthly) && InPandasRange(today) && InPandasRange(ParseYmd(endText).value)
    ensures r.Ok? ==> r.value.produced == RoundHalfEven(windowWh / 1000.0)
    ensures r.Ok? ==> r.value.estimated == RoundHalfEven(ExpectedEnergy(monthly, today, ParseYmd(endText).value))
    ensures r.Ok? ==> r.value.forecast == r.value.produced + r.value.estimated
    ensures r.Ok? ==> -0.5 <= r.value.produced as real - windowWh / 1000.0 <= 0.5
    ensures r.Ok? ==>
      var exact := windowWh / 1000.0 + ExpectedEnergy(monthly, today, ParseYmd(endText).value);
      -1.0 <= r.value.forecast as real - exact <= 1.0
    ensures r.Ok? && Before(ParseYmd(endText).value, today) ==> r.value.estimated == 0
    ensures r.Ok? && NonNegativeSamples(monthly) ==> r.value.estimated >= 0
  {
    match (ParseYmd(startText), ParseYmd(endText))
    case (Some(_), Some(end)) =>
      if monthly == [] then Err(NoEnergyValues)
      else if !KeptDatesInPandasRange(monthly) || !InPandasRange(today) || !InPandasRange(end) then Err(OutOfPandasRange)
      else
        var produced := RoundHalfEven(windowWh / 1000.0);
        var expected := ExpectedEnergy(monthly, today, end);
        var estimated := RoundHalfEven(expected);
        assert NonNegativeSamples(monthly) ==> estimated >= 0 by {
          if NonNegativeSamples(monthly) {
            ExpectedEnergyNonNegative(monthly, today, end);
          }
        }
        Ok(ForecastData(produced, estimated, produced + estimated))
    case _ => Err(UnparsableDate)
  }
}
