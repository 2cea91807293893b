# Solaredge Forecast — a Dafny model

This project models the computational core of the Solaredge Forecast Home
Assistant integration and proves properties of it. The integration predicts how
much energy a SolarEdge installation will produce over a user-configured yearly
period (for example 1 December to 31 January).

- **`Forecast`** models the forecast engine (`SolaredgeForecast.get_solar_forecast`).
  - Monthly energy values of exactly zero are dropped.
  - Wh are converted to kWh.
  - For every calendar month, the mean over all years is divided by a fixed month length. February always has 28 days.
  - That daily average is summed over every day from today to the period end. Months without data contribute nothing.
  - The energy already produced in the period is added.
  - Both figures are rounded the way Python's `round` does: ties go to the even integer.
- **`PeriodWindow`** models the constructor of `SolaredgeForecastData`. It turns the configured (day, month name) start and end into concrete `YYYYMMDD` dates.
  - The start is placed in the latest year in which it falls on or before today.
  - The end is placed in the earliest year in which it falls after today.
  - Separators are removed from the production start date.
- **`ConfigFlow`** models the configuration and options flows: the four input validators, the two duplicate checks, and the order in which the flows run them.
  - Both flows are modelled as written (`StepUser`, `OptionsStepUser`). Next to the configuration flow stands a corrected one (`StepUserFixed`) built from the corrected checks; see "## Findings".
  - A configuration entry has `data` and `options`. The first setup of an entry moves every field from its data into its options (`SetUpEntry`), which matters to the duplicate checks.
  - The options flow merges a submission into its options before validating it.
  - The options flow never clears errors from earlier submissions.
- **`Calendar`, `MonthNames` and `DateText`** are supporting modules:
  - Python's proleptic Gregorian calendar, including `toordinal` and `pandas.date_range`;
  - the month names of the form;
  - a model of `strptime`'s regular-expression matching for `%Y`, `%m`, `%d` and `%B`, with `strftime("%Y%m%d")` and the separator stripping.

The monitoring service's answers and the wall clock are parameters:

- `monthly` holds the monthly energy values;
- `windowWh` is the energy reported for the period;
- `today` / `now` stand for the wall clock.

Every `ValueError` the source can raise is an `Option`/`Result` error case.

## Model

| member | source | states |
|---|---|---|
| MonthNames.MonthNumber | custom_components/solaredge_forecast/const.py:32-45 | `%B` accepts exactly the twelve month names of the form, and the number it yields indexes back to the same name |
| MonthNames.MonthNameRoundTrip | custom_components/solaredge_forecast/const.py:32-45 | month names and month numbers correspond one to one |
| DateText.DecimalText | custom_components/solaredge_forecast/config_flow.py:126 | `str(n)` of a natural number is a digit string without leading zero that denotes n, and it has at most k digits exactly when n < 10^k (k = 1..4) |
| DateText.SingleDirective | custom_components/solaredge_forecast/config_flow.py:125-127 | a format of one directive parses a text exactly when the directive's preferred alternative at the start consumes the whole text, and yields that alternative's number |
| DateText.DayText | custom_components/solaredge_forecast/config_flow.py:126 | `str(day)` matches `%d` exactly for the days 1..31, yielding the day |
| DateText.YearText | custom_components/solaredge_forecast/config_flow.py:126 | `str(year)` matches `%Y` exactly for the years 1000..9999, yielding the year |
| DateText.ParseYmd | custom_components/solaredge_forecast/solaredgeforecast/__init__.py:9-10 | `strptime(s, "%Y%m%d")` succeeds only with a date Python's `date` accepts |
| DateText.YmdRoundTrip | custom_components/solaredge_forecast/__init__.py:117-120 | the text `strftime("%Y%m%d")` prints for any valid date is parsed back by `%Y%m%d` to the same date, so the engine's parse at solaredgeforecast/__init__.py lines 9-10 recovers the constructor's dates |
| DateText.ParseDmy | custom_components/solaredge_forecast/config_flow.py:137-138 | `strptime(s, "%d%m%Y")` succeeds only with a date Python's `date` accepts; `DateText.DmyRoundTrip` states which date the printed form yields |
| DateText.DmyRoundTrip | custom_components/solaredge_forecast/config_flow.py:137-138 | a zero-padded DDMMYYYY date is parsed by `%d%m%Y` to that date |
| DateText.StripSeparators | custom_components/solaredge_forecast/__init__.py:88-89 | the result contains no `/`, `-` or space, and every other character of the input |
| DateText.StripSeparatorsKeepsOrder | custom_components/solaredge_forecast/__init__.py:88-89 | the three chained `replace` calls equal a single left-to-right filter that keeps the non-separators in order |
| DateText.StripSeparatorsIdempotent | custom_components/solaredge_forecast/__init__.py:88-89 | stripping an already stripped date changes nothing |
| Calendar.OrdinalOrder | custom_components/solaredge_forecast/config_flow.py:137-138 | the day ordinal used for date subtraction orders dates chronologically and identifies equal dates |
| Calendar.OneYearLater | custom_components/solaredge_forecast/config_flow.py:137-138 | the same month and day one year later is at least 365 days later |
| Calendar.DateRange | custom_components/solaredge_forecast/solaredgeforecast/__init__.py:64 | `date_range(today, end)` has one date per day from today to end inclusive, consecutive ordinals, and is empty when end is before today |
| Calendar.DateRangeContents | custom_components/solaredge_forecast/solaredgeforecast/__init__.py:64 | a valid date is in the range exactly when it lies between the ends, and the range is strictly ascending |
| Forecast.DropZeroSamples | custom_components/solaredge_forecast/solaredgeforecast/__init__.py:39 | the kept samples are, with multiplicity, exactly the samples whose energy is not zero |
| Forecast.ToRows | custom_components/solaredge_forecast/solaredgeforecast/__init__.py:41-48 | row by row, same year and month as the sample's date, and one kWh per 1000 Wh of the sample |
| Forecast.Mean | custom_components/solaredge_forecast/solaredgeforecast/__init__.py:54 | no mean (NaN) exactly for an empty column; otherwise mean times count equals the sum |
| Forecast.MeanBounds | custom_components/solaredge_forecast/solaredgeforecast/__init__.py:54 | the mean lies between any lower and upper bound of the values |
| Forecast.NumberOfDaysIgnoresLeapYears | custom_components/solaredge_forecast/solaredgeforecast/__init__.py:53 | the fixed month lengths are the calendar's, except February of a leap year, which is one day short |
| Forecast.MonthAverage | custom_components/solaredge_forecast/solaredgeforecast/__init__.py:52-54 | a month has no average exactly when no row falls in it; otherwise average times the fixed month length is the mean of that month's values |
| Forecast.AverageProduction | custom_components/solaredge_forecast/solaredgeforecast/__init__.py:51-54 | the table has exactly the keys 1..12, each holding that month's average |
| Forecast.AverageProductionNonNegative | custom_components/solaredge_forecast/solaredgeforecast/__init__.py:50-54 | non-negative energies give non-negative daily averages |
| Forecast.EstimateSum | custom_components/solaredge_forecast/solaredgeforecast/__init__.py:72-74 | no days give zero, and a non-negative table gives a non-negative estimate |
| Forecast.EstimateByMonth | custom_components/solaredge_forecast/solaredgeforecast/__init__.py:72-74 | the day-by-day sum equals, month by month, the average times the number of days in that month, NaN months contributing nothing |
| Forecast.RoundHalfEven | custom_components/solaredge_forecast/solaredgeforecast/__init__.py:74 | `round` returns an integer within one half of its argument, and the even one on a tie |
| Forecast.RoundHalfEvenUnique | custom_components/solaredge_forecast/solaredgeforecast/__init__.py:74 | those two properties determine the rounded value |
| Forecast.ExpectedEnergy | custom_components/solaredge_forecast/solaredgeforecast/__init__.py:64-74 | the unrounded sum over the days from today to the end equals, month by month, the number of those days in the month times the month's daily average, months without samples contributing nothing; it is zero once the end has passed |
| Forecast.ExpectedEnergyNonNegative | custom_components/solaredge_forecast/solaredgeforecast/__init__.py:63-74 | non-negative monthly energies give a non-negative unrounded estimate |
| Forecast.SolarForecast | custom_components/solaredge_forecast/solaredgeforecast/__init__.py:9-84 | an error exactly when a period date does not parse (lines 9-10); otherwise an error exactly when the API returns no monthly values (line 39 then has no `energy` column) or when a kept sample's date, today or the end lies outside pandas' timestamp range (lines 45-46, 64); otherwise produced is the half-even rounding of the reported Wh over 1000, estimated the half-even rounding of the day-by-day expected energy, and forecast their sum; produced is within 0.5 kWh of the reported energy and forecast within 1 kWh of reported plus expected energy; no estimate when the end has passed; a non-negative estimate for non-negative data |
| PeriodWindow.ParseMonthDay | custom_components/solaredge_forecast/__init__.py:93-94 | `%B%d` succeeds exactly for a month name and a day that exists in 1900; such a pair is then a date in every year |
| PeriodWindow.MonthDayPieces | custom_components/solaredge_forecast/__init__.py:93-94 | for a month of the form, the pair parses exactly when `str(day)` alone matches `%d` and the day exists in that month of 1900 |
| PeriodWindow.February29Rejected | custom_components/solaredge_forecast/__init__.py:93 | 29 February never parses, because 1900 is not a leap year |
| PeriodWindow.StartYear | custom_components/solaredge_forecast/__init__.py:96-105 | the start falls on or before today, and its next anniversary after today; it lies in last year exactly when today's (month, day) comes before it |
| PeriodWindow.EndYear | custom_components/solaredge_forecast/__init__.py:106-115 | the end falls after today, and its previous anniversary does not; it lies in this year exactly when today's (month, day) comes before it |
| PeriodWindow.ResolveWindow | custom_components/solaredge_forecast/__init__.py:88-120 | errors for an unparsable start or end; success for parsable pairs in years 1001..9998; both texts are the eight-digit `strftime("%Y%m%d")` of a date that parses back, with the configured month and day; the start is the latest occurrence on or before today and the end the first after today; the span is at most two years; the production date is stripped |
| PeriodWindow.WindowSpansTwoYears | custom_components/solaredge_forecast/__init__.py:96-115 | the window spans two year boundaries exactly when today is on or after the end's (month, day) and before the start's |
| PeriodWindow.WrappingPeriodInTheGap | custom_components/solaredge_forecast/__init__.py:93-120 | 1 December – 31 January on 1 June 2024 resolves to 20231201 – 20250131 |
| ConfigFlow.DateValidation | custom_components/solaredge_forecast/config_flow.py:122-130 | accepts exactly when the current year has four digits, the month is a month name, and the day exists in that month of the current year |
| ConfigFlow.DateValidationPieces | custom_components/solaredge_forecast/config_flow.py:122-130 | for a month of the form, the validator accepts exactly when `str(year)` alone matches `%Y`, `str(day)` alone matches `%d`, and the day exists in that month of the current year |
| ConfigFlow.DateValidationLeapDay | custom_components/solaredge_forecast/config_flow.py:122-130 | 29 February passes exactly in a leap year |
| ConfigFlow.DateValidationVersusSetup | custom_components/solaredge_forecast/config_flow.py:122-130 | the validator agrees with the constructor's `%B%d` parse except on 29 February of a leap year, which the flow accepts and the constructor rejects |
| ConfigFlow.LeapDayExample | custom_components/solaredge_forecast/config_flow.py:122-130 | in any leap year the validator accepts 29 February as the start, and the constructor then fails with an invalid start |
| ConfigFlow.DateValidationFixed | custom_components/solaredge_forecast/config_flow.py:122-130 | corrected: accepts exactly what the validator as written accepts, except 29 February |
| ConfigFlow.DateValidationFixedResolves | custom_components/solaredge_forecast/config_flow.py:122-130 | corrected: a start and end it accepts always let the constructor resolve a window in the years 1001..9998 |
| ConfigFlow.StartdateValidation | custom_components/solaredge_forecast/config_flow.py:132-142 | the empty text passes; any other text passes exactly when, with separators removed, it parses as DDMMYYYY and that date is old enough |
| ConfigFlow.StartdateNotInTheFuture | custom_components/solaredge_forecast/config_flow.py:137-139 | a production start on or after today is never old enough |
| ConfigFlow.StartdateOneYearBackAccepted | custom_components/solaredge_forecast/config_flow.py:137-140 | a production start on or before the same day one year ago is always old enough |
| ConfigFlow.StartdateOfFormattedDate | custom_components/solaredge_forecast/config_flow.py:132-142 | the eight-digit DDMMYYYY text of a date passes exactly when that date is old enough |
| ConfigFlow.StartdateBlankRejected | custom_components/solaredge_forecast/config_flow.py:134-138 | a lone space is not empty, strips to nothing, and is rejected |
| ConfigFlow.PeriodValidation | custom_components/solaredge_forecast/config_flow.py:144-155 | as written: equal start and end are rejected; when accepted, today lies between the earlier and the later of the two dates of this year; conversely, any moment after the earlier date's midnight and on a day before the later date is accepted, so the earlier date itself passes after midnight; at midnight the ends themselves are refused |
| ConfigFlow.PeriodValidationFixed | custom_components/solaredge_forecast/config_flow.py:144-155 | corrected: equal dates are rejected; it agrees with the code when start < end; for a wrapping period it never accepts where the code does |
| ConfigFlow.PeriodValidationFixedMatchesWindow | custom_components/solaredge_forecast/config_flow.py:144-155 | the corrected check accepts exactly when the window the constructor resolves is a single annual cycle that has already begun |
| ConfigFlow.PeriodValidationAcceptsGap | custom_components/solaredge_forecast/config_flow.py:152-155 | whenever the code accepts a wrapping period, the constructor's window spans two years, so today is outside the period |
| ConfigFlow.PeriodValidationWrapExample | custom_components/solaredge_forecast/config_flow.py:149-155 | 1 December – 31 January: the code accepts at noon on 1 June 2024 and rejects at noon on 10 January 2024; the corrected check does the opposite |
| ConfigFlow.InputValuesCoverFields | custom_components/solaredge_forecast/config_flow.py:94-117 | a submitted form carries every field |
| ConfigFlow.SetUpEntry | custom_components/solaredge_forecast/__init__.py:63-80 | an entry with options is untouched; an entry without options ends with empty data and options holding every field, each with its value from the data or, where missing, its default |
| ConfigFlow.SetUpKeepsConfiguration | custom_components/solaredge_forecast/__init__.py:63-80 | a complete entry stays complete through setup, and every field keeps its configured value |
| ConfigFlow.ConfiguredSiteIds | custom_components/solaredge_forecast/config_flow.py:33-38 | the lookup raises KeyError exactly when some entry has no site ID in its data; otherwise the set holds exactly the data site IDs of the entries |
| ConfigFlow.SetUpEntryHidesSiteId | custom_components/solaredge_forecast/config_flow.py:33-38 | once any entry has been set up, the lookup raises KeyError |
| ConfigFlow.InstallationIdExists | custom_components/solaredge_forecast/config_flow.py:157-161 | raises exactly when the lookup does; otherwise true exactly when some entry's data holds that site ID |
| ConfigFlow.InstallationIdExistsFixed | custom_components/solaredge_forecast/config_flow.py:157-161 | corrected: true exactly when some entry has that site ID configured, in its options or its data |
| ConfigFlow.AccountKeyExistsAsWritten | custom_components/solaredge_forecast/config_flow.py:163-167 | as written: raises exactly when the lookup does; true exactly when the key equals some entry's site ID as a string, so never when the site IDs are integers |
| ConfigFlow.AccountKeyExists | custom_components/solaredge_forecast/config_flow.py:163-167 | corrected: true exactly when some entry has that account key configured |
| ConfigFlow.DuplicateChecksIgnoreSetUp | custom_components/solaredge_forecast/config_flow.py:157-167 | corrected: the two duplicate checks give the same answer before and after any complete entry is set up |
| ConfigFlow.FirstInvalidPeriod | custom_components/solaredge_forecast/config_flow.py:55-63 | no failure exactly when the two date checks, the production start check and the period check all pass; a failure names one of the four field and error key pairs |
| ConfigFlow.FirstInvalidPeriodFixed | custom_components/solaredge_forecast/config_flow.py:55-63 | the same with the corrected date and period checks |
| ConfigFlow.StepUser | custom_components/solaredge_forecast/config_flow.py:50-71 | as written: no input shows an empty form; an entry titled "Solaredge Forecast" holding the input is created exactly when every check passes and no entry's data repeats the site ID or, as a string, the account key; the step raises KeyError exactly when the period checks pass and some entry has been set up; otherwise exactly one error is shown, on the field of the first failing check in order start day, end day, production start, period, site ID, account key; integer site IDs never yield an account key error |
| ConfigFlow.StepUserFixed | custom_components/solaredge_forecast/config_flow.py:50-71 | corrected: never raises; an entry is created exactly when the corrected checks pass and neither the site ID nor the account key is configured in any entry; otherwise one error, the first failing check's |
| ConfigFlow.StepUserFixedEntryResolves | custom_components/solaredge_forecast/config_flow.py:50-71 | corrected: every entry the step creates in the years 1001..9998 lets the constructor resolve a window, which is one annual cycle that has already begun |
| ConfigFlow.SecondSiteAfterSetUp | custom_components/solaredge_forecast/config_flow.py:33-38 | with one entry set up, the step as written raises KeyError once the period checks pass; the corrected step reports a repeated site ID |
| ConfigFlow.WrapPeriodFlowExample | custom_components/solaredge_forecast/config_flow.py:61-71 | 1 December – 31 January at noon on 1 June 2024: the step as written creates the entry, the corrected step reports the period |
| ConfigFlow.AccountKeyDuplicateExample | custom_components/solaredge_forecast/config_flow.py:163-167 | a second entry repeating the account key of an entry not yet set up: once the period checks pass, the step as written creates it and the corrected step reports the key |
| ConfigFlow.CalendarYearPasses | custom_components/solaredge_forecast/config_flow.py:55-63 | 1 January – 31 December with no production start passes every period check at noon on 1 June 2024, as written and corrected |
| ConfigFlow.OptionsStepUser | custom_components/solaredge_forecast/config_flow.py:182-196 | as written: a submission replaces the options even when rejected; earlier errors are never removed and at most one is added; the options are stored exactly when the four period checks pass, with the merged options; otherwise the first failing check's error is added |
| ConfigFlow.OptionsStepInit | custom_components/solaredge_forecast/config_flow.py:178-180 | the init step shows the form without changing state |
| ConfigFlow.RunOptionsErrors | custom_components/solaredge_forecast/config_flow.py:184-194 | after a run of submissions the fields with an error are those that had one before and those some submission was rejected on |
| ConfigFlow.RunOptionsLast | custom_components/solaredge_forecast/config_flow.py:184-185 | after a run of submissions the options are those of the last one |
| ConfigFlow.OptionsErrorsAccumulate | custom_components/solaredge_forecast/config_flow.py:172-196 | a fresh handler over a run of submissions shows an error on exactly the fields some submission was rejected on, each with its check's key, so a later submission that fails on another field shows the earlier errors too; the options are the last submission's, or the entry's when there was none. The program ends the flow at the first submission that passes (line 196), so its runs are those in which every submission but the last is rejected; the lemma covers them and any other sequence |

## Left out

- The SolarEdge API calls, the Home Assistant coordinator, sensors and setup glue are left out. They are I/O; their results are parameters.
- The coordinator calls the engine with five arguments (`__init__.py` lines 126-133), but its constructor takes four (solaredgeforecast/__init__.py line 8), so that call raises TypeError and the engine is never built from the integration. The model takes the engine on its own, with the period dates as parameters. `get_time_frame_energy` is also passed the account key as site ID; that only changes what the service returns, which is a parameter here.
- `OptionsFlowHandler.async_end` is left out: it reads an attribute that is never set.
- The API's sample date strings (`%Y-%m-%d %H:%M:%S`) are left out. Samples carry a `Date`; null or missing API values are not modelled.
- Floating point is modelled as exact reals, so IEEE rounding of the kWh values and of the sums is left out.
- `round` is half-even on the exact real value.
- `%B` is case-insensitive in Python. The form restricts the month to the exact names, and the model accepts only those.
- ConfigFlow.DateValidation: a month text other than the form's names is always refused. Python would accept some, such as "January1" with day 5 (read as 15 January); the form (`vol.In(MONTHS)`) never submits them.
- `\d` in Python also matches non-ASCII digits; the model accepts ASCII digits only.
- The regular expression built for `%Y%B%d` / `%B%d` is matched as separate directives. `DateText.YearText` and `DateText.DayText` prove what `str(year)` and `str(day)` match on their own; that the whole pattern splits at the month name (which holds no digit) is argued, not proved.
- const.py defines neither `CONF_STARTDATE_PRODUCTION` nor `DEFAULT_STARTDATE_PRODUCTION`, which config_flow.py and `__init__.py` import. The model takes the field as present, with the empty text as its default.
- The form schema, its defaults (strings such as "01"), the `cv.positive_int` coercion and the translated error texts are left out. Inputs are typed values.
- The validators read the clock several times; the model reads it once. A run straddling midnight or new year is not modelled.
- The options flow is modelled as written only. A corrected options flow would run `ConfigFlow.FirstInvalidPeriodFixed` in place of `ConfigFlow.FirstInvalidPeriod`; it is not modelled separately.
- PeriodWindow.ResolveWindow: success is promised only for years 1001..9998. In other years `str(year)` does not have four digits and the model returns `YearNotFourDigits`, as the source raises.
- Forecast.SolarForecast: the start date is parsed but unused by the computation, as in the source, where it only reaches the API query.

## Findings

| source | as written | input that shows it | evidently intended | confidence | as-written member | corrected member |
|---|---|---|---|---|---|---|
| custom_components/solaredge_forecast/config_flow.py:152-155 | when start is not before end, it accepts `start > today > end`, i.e. today strictly in the gap outside a period that wraps past new year | period 1 December – 31 January: accepted at noon on 1 June 2024, rejected at noon on 10 January 2024 | accept today after the start or before the end ("today is within time period") | high (not executed) | ConfigFlow.PeriodValidation, ConfigFlow.PeriodValidationWrapExample, ConfigFlow.WrapPeriodFlowExample | ConfigFlow.PeriodValidationFixed, ConfigFlow.PeriodValidationFixedMatchesWindow, ConfigFlow.StepUserFixedEntryResolves |
| custom_components/solaredge_forecast/config_flow.py:163-167 | looks the account key up among the configured site IDs (integers), so it never reports a duplicate | one entry with account key "KEY" that has not been set up yet (once it has, the lookup at line 37 raises first), a new entry with account key "KEY" and another site ID | report an account key already used by a configured entry | high (not executed) | ConfigFlow.AccountKeyExistsAsWritten, ConfigFlow.AccountKeyDuplicateExample, ConfigFlow.CalendarYearPasses | ConfigFlow.AccountKeyExists, ConfigFlow.StepUserFixed |
| custom_components/solaredge_forecast/config_flow.py:37 | reads `entry.data[CONF_SITE_ID]`, but setting an entry up (`__init__.py` lines 63-80) pops every field out of its data into its options, so once one entry has been set up, adding another raises KeyError | one entry set up, a second submission whose period checks pass | look each entry's site ID up where it is kept (options, else data) and report a repeated site ID | high (not executed) | ConfigFlow.ConfiguredSiteIds, ConfigFlow.SetUpEntryHidesSiteId, ConfigFlow.SecondSiteAfterSetUp | ConfigFlow.InstallationIdExistsFixed, ConfigFlow.DuplicateChecksIgnoreSetUp, ConfigFlow.StepUserFixed |
| custom_components/solaredge_forecast/config_flow.py:122-130 | checks the day in the current year, while the constructor (`__init__.py` line 93) parses it in 1900, so in a leap year 29 February passes the flow and the constructor then raises ValueError | start 29 February submitted in 2024 | refuse a day the constructor cannot parse | high (not executed) | ConfigFlow.DateValidationVersusSetup, ConfigFlow.LeapDayExample | ConfigFlow.DateValidationFixed, ConfigFlow.DateValidationFixedResolves |
