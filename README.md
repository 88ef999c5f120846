# Sunrise/Sunset Calculator: monthly medians

This project models the logic of the Sunrise/Sunset Calculator web service in
Dafny. The `calculate` endpoint receives a year, a place and a timezone name.
When the call succeeds, it answers with one record for each month that collected
a day: the month's name, its median sunrise and its median sunset, each written
as local `HH:MM:SS`. A month that collected no day is skipped. The work is done by
`calculate_monthly_medians`:

- It walks the twelve months in calendar order.
- For each month it collects the sunrise and sunset of days 1, 2, ….
- It stops a month at the first day where `date(year, month, day)` or the solar
  computation raises `ValueError`.
- It takes `statistics.median` of the collected sunrises and of the collected
  sunsets, and formats each median with `strftime("%H:%M:%S")`.

The endpoint turns any exception into status 400.

Modules:

- `Basics`: `Option`, and `Result` for "returns a value or raises".
- `Calendar`: CPython's `date(year, month, day)` constructor and the Gregorian
  month lengths.
- `Events`: a timezone-aware datetime, reduced to its UTC instant and its local
  time of day, both in microseconds.
- `Statistics`: `statistics.median` over datetimes.
  - Python's stable `sorted` becomes an insertion sort by instant. It is proved
    sorted, a permutation, stable, and the only sorted sequence that keeps the
    order within each instant.
  - An odd count returns the middle element.
  - An even count evaluates `(a + b) / 2` on two datetimes, which raises `TypeError`.
  - No data raises `StatisticsError`.
- `TimeFormat`: `%H:%M:%S` formatting, and a parser that reads such a string back.
- `SunriseSunset`:
  - the day loop (`CollectMonth`) and the month loop (`CalculateMonthlyMedians`)
    as methods with loops and sequence accumulators;
  - the functions that specify them: `ScanDays`, `RecordFor`, `MonthRecord`,
    `MonthsFrom` and `MonthlyMedians`;
  - the endpoint wrapper `Calculate`.
- `SunriseSunsetFacts`: what the answer promises, proved about those functions.
  - The month loop is shown to equal a fold (`Accumulate`) of the twelve month
    outcomes (`Entries`).
  - Facts about the fold give the order, count, membership and failure results.

The solar computation is a parameter `sun: Date -> Option<SolarDay>`. `None`
stands for the `ValueError` it raises on a day when the sun never reaches the
horizon. Whether `pytz` knows the timezone name is a boolean parameter `tzKnown`.

Behaviour that follows from the code and is made explicit here:

- The timezone is looked up before the month loop, so an unknown timezone name
  fails the call whatever the year. The points below assume a known timezone.
- `date()` reads its arguments as C ints.
  - A C-int year outside 1..9999 raises `ValueError`. The loop breaks at day 1
    of every month, so the answer is the empty list.
  - A year that does not fit a C int raises `OverflowError`. That is not a
    `ValueError`, so it escapes the loop and the endpoint answers 400.
- Any month that collects an even, non-zero number of days makes
  `statistics.median` raise `TypeError`. That also escapes and gives 400.
  - So a full 30-day month, or a full 28-day February (a non-leap year), fails
    the whole call (`FullEvenMonthFails`).
  - For a year that fits a C int and a known timezone, the call succeeds exactly
    when every month collects zero or an odd number of days
    (`SucceedsIffCountsUsable`).

## Model

| member | source | states |
|---|---|---|
| Calendar.MakeDate | main.py:44 | `date(year, month, day)` succeeds exactly for a valid proleptic-Gregorian date and then holds those fields; it raises OverflowError exactly when an argument is not a C int (ValueError otherwise) |
| Calendar.DaysInMonth | main.py:42-44 | every month has 28 to 31 days |
| Calendar.IsLeapYear | main.py:44 | the Gregorian leap rule behind `date()`: every fourth year, except centuries not divisible by 400; YearLength states its consequence for the length of the year |
| Calendar.YearLength | main.py:42-44 | the twelve month lengths add up to 366 in a leap year (divisible by 4, centuries only when divisible by 400) and 365 otherwise |
| Calendar.YearOutOfRange | main.py:44 | a C-int year outside 1..9999 makes `date()` raise ValueError for any month and day |
| Statistics.InsertSorted | main.py:52-53 | inserting into a sorted sequence keeps it sorted by instant |
| Statistics.InsertPermutes | main.py:52-53 | insertion adds exactly the new event to the multiset |
| Statistics.SortSorted | main.py:52-53 | the sort used by the median returns a sequence sorted by instant |
| Statistics.SortPermutes | main.py:52-53 | the sorted sequence is a permutation of the data |
| Statistics.SortSelect | main.py:52-53 | sorting keeps how many events meet any bound on the instant, and keeps the order of the events that share an instant (stability) |
| Statistics.StableSortIsUnique | main.py:52-53 | two sorted sequences that agree at every instant are equal, so any stable sort by instant yields the same sequence |
| Statistics.SortByInstant | main.py:52-53 | the `sorted(data)` inside `statistics.median` keeps the length; SortSorted, SortPermutes and SortSelect prove it sorted, a permutation and stable |
| Statistics.Median | main.py:52-53 | `statistics.median` succeeds exactly for an odd count; no data raises StatisticsError; an even non-zero count raises TypeError |
| Statistics.MedianIsMiddleOfSorted | main.py:52-53 | with an odd count n, the median is element n/2 of any stable sort of the data by instant |
| Statistics.MedianRank | main.py:52-53 | the median is one of the collected values; at least (n+1)/2 values are not later than it and at least (n+1)/2 are not earlier |
| TimeFormat.FormatClock | main.py:57-58 | `%H:%M:%S` gives 8 characters `HH:MM:SS`, zero-padded, HH at most 23, MM and SS at most 59 |
| TimeFormat.ParseClock | main.py:57-58 | a string parses exactly when it has the `HH:MM:SS` form, to a second of the day below 86400 |
| TimeFormat.ParseFormat | main.py:57-58 | parsing the formatted time gives back the local time of day truncated to whole seconds |
| TimeFormat.FormatParse | main.py:57-58 | formatting the parsed seconds gives back the same `HH:MM:SS` string |
| SunriseSunset.MonthNumber | main.py:31-38 | every month has a position 1..12 in the month list, and the list holds it at that position |
| SunriseSunset.MonthsDistinct | main.py:31-34 | the twelve months are pairwise distinct, and so are their names |
| SunriseSunset.NumberOfMonth | main.py:38 | the i-th month of the list is month number i + 1 |
| SunriseSunset.ScanDays | main.py:42-49 | the scan of a month collects at most 31 days; it raises only when the year is not a C int, and then with OverflowError |
| SunriseSunset.RecordFor | main.py:51-59 | a record carries the month of the list and two `HH:MM:SS` times |
| SunriseSunset.MonthRecord | main.py:39-59 | one iteration of the month loop raises OverflowError exactly when the year is not a C int, and a record it gives names its own month; RecordOutcome and ReadableMonthRecord decide the rest by the count |
| SunriseSunset.Extend | main.py:51-59 | after a month the list is unchanged or has grown by one record at its end, and an exception raised earlier stays the outcome |
| SunriseSunset.MonthsFrom | main.py:38-61 | the month loop from `month` on keeps the records it already holds as a prefix and adds at most one per remaining month; MonthsFromAccumulates proves it equal to the fold of the month outcomes |
| SunriseSunset.CollectMonth | main.py:39-49 | the day loop appends the sunrise and the sunset of each collected day, in day order, to two lists of equal length; it reports OverflowError exactly when the scan raises |
| SunriseSunset.MonthEntry | main.py:51-59 | with a non-empty list the month's record holds the two formatted medians, or the median's exception; with an empty list there is no record |
| SunriseSunset.CalculateMonthlyMedians | main.py:27-61 | the month loop returns what the month-by-month specification gives: the records of the months in order, or the first exception raised |
| SunriseSunset.MonthlyMedians | main.py:29 | an unknown timezone name fails the call before any month |
| SunriseSunset.Calculate | main.py:160-171 | the endpoint returns the list exactly when the computation succeeds, and otherwise a 400 whose detail is the exception raised |
| SunriseSunsetFacts.ScannedDay | main.py:42-47 | the k-th day a scan from `day` collects is the solar day of the valid date `day + k` |
| SunriseSunsetFacts.ScanStops | main.py:42-49 | a scan ends at day 32 or at a day that `date()` or the solar computation refuses |
| SunriseSunsetFacts.CollectedDay | main.py:42-47 | the days of a month are collected consecutively from day 1: the k-th collected day is the solar day of date k + 1 |
| SunriseSunsetFacts.CollectionStops | main.py:42-49 | the day after the last one collected fails, unless all 31 were collected, so no later day of the month is collected |
| SunriseSunsetFacts.CollectedWithinMonth | main.py:42-44 | a month never collects more days than it has |
| SunriseSunsetFacts.FullMonthCollected | main.py:42-47 | when the sun rises and sets on every day, a month of a year in 1..9999 collects exactly its Gregorian length |
| SunriseSunsetFacts.RecordOutcome | main.py:51-53 | a month gives no record exactly when it collected no day; its medians succeed exactly for an odd count; an even count raises TypeError |
| SunriseSunsetFacts.OverflowYearFails | main.py:44-48 | with a known timezone, a year that is not a C int makes the whole call fail with OverflowError |
| SunriseSunsetFacts.NoMonthsFrom | main.py:44-51 | for a C-int year outside 1..9999, no month from any point on adds a record |
| SunriseSunsetFacts.OutOfRangeYearGivesNoMonths | main.py:44-51 | with a known timezone, a C-int year outside 1..9999 gives the empty list |
| SunriseSunsetFacts.Present | main.py:51-59 | the positions of the months that hold a record are in range, hold a record, and are strictly increasing |
| SunriseSunsetFacts.PresentComplete | main.py:51-59 | every month that holds a record has its position listed |
| SunriseSunsetFacts.AccumulateOk | main.py:36-61 | the loop returns a list exactly when no month raises |
| SunriseSunsetFacts.AccumulateFirstError | main.py:36-61 | the exception the loop ends with is that of the first month that raises, and every earlier month succeeded |
| SunriseSunsetFacts.AccumulateErrorStands | main.py:36-61 | once a month has raised, no later month changes the outcome |
| SunriseSunsetFacts.AccumulateRecords | main.py:55-59 | the list holds one record per month that has one, in month order |
| SunriseSunsetFacts.MonthsFromAccumulates | main.py:38-61 | the month loop, from any month on, completes the fold of the twelve month outcomes |
| SunriseSunsetFacts.AnswerIsFold | main.py:36-61 | with a known timezone, the answer is the fold of the twelve month outcomes |
| SunriseSunsetFacts.EntryDecided | main.py:51-53 | for a C-int year, a month's outcome is no record for no day, a record for an odd count, and TypeError for an even count |
| SunriseSunsetFacts.SucceedsIffCountsUsable | main.py:51-53 | for a C-int year and a known timezone, the call succeeds exactly when every month collects no day or an odd number of days; otherwise it fails with TypeError |
| SunriseSunsetFacts.FullEvenMonthFails | main.py:42-53 | with a known timezone, a full 30-day month, or a full 28-day February (a non-leap year), with a sunrise every day makes the whole call fail with TypeError, with no partial list |
| SunriseSunsetFacts.RecordForReports | main.py:51-59 | a record names its month; its times parse back to the medians' local times truncated to seconds; the count was odd |
| SunriseSunsetFacts.RecordReportsMedians | main.py:51-59 | the record of month i + 1 names that month and holds the medians of its collected sunrises and sunsets |
| SunriseSunsetFacts.RecordAt | main.py:51-59 | the k-th record is that of the k-th month holding one; its times parse back to that month's median sunrise and sunset, truncated to seconds |
| SunriseSunsetFacts.AnswerInCalendarOrder | main.py:31-59 | the answer has at most 12 records, each with two `HH:MM:SS` times, and the months strictly increase, so none appears twice |
| SunriseSunsetFacts.CollectedMonthReported | main.py:39-59 | a month that collected a day has a record in a successful answer |
| SunriseSunsetFacts.ReportedMonthCollected | main.py:39-59 | a month with a record in the answer collected at least one day |
| SunriseSunsetFacts.MonthReportedIffCollected | main.py:39-51 | a month appears in a successful answer exactly when it collected at least one day |

## Left out

- The solar computation (`LocationInfo`, `astral.sun`, main.py:28, 45) is
  floating-point astronomy in a foreign library. It is the parameter `sun`, and
  `None` stands for its `ValueError`.
- The `pytz` lookup and the conversion from UTC to local time (main.py:29) use a
  foreign timezone database.
  - Whether the name is known is the parameter `tzKnown`.
  - Each event carries its own local time of day.
- The solar computation is assumed to return the day's events or raise
  `ValueError`. Any other exception from the call at main.py:45 is not modelled.
- Latitude and longitude (main.py:16-17) only flow into the solar computation.
- The FastAPI app, routes, pydantic models and the HTML/JS page (main.py:11-24,
  64-157) are I/O and UI.
- The text of `str(e)` in the 400 detail is not modelled. The detail is the
  exception itself, as a `Failure` value.
- Datetimes are compared by their UTC instant, as Python compares aware
  datetimes.
- Sub-second precision is carried in microseconds and dropped by the formatting,
  as `%H:%M:%S` does.
- A record's `month` field holds a `Month` value rather than a string.
  `MonthName` gives the English name the JSON carries.
