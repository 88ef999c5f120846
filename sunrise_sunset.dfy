/** calculate_monthly_medians and the calculate endpoint around it: for each month
    of a year, collect the solar events of days 1, 2, ... until the first failing
    day, and report the median sunrise and sunset as local "HH:MM:SS". */
module SunriseSunset {
  import opened Basics
  import opened Calendar
  import opened Events
  import opened Statistics
  import opened TimeFormat

  /** The twelve months; the `months` list the loop enumerates from 1. */
  datatype Month =
    | January | February | March | April | May | June
    | July | August | September | October | November | December

  const Months: seq<Month> := [
    January, February, March, April, May, June,
    July, August, September, October, November, December
  ]

  /** The name a record carries in its "month" field. */
  function MonthName(m: Month): string {
    match m
    case January => "January"
    case February => "February"
    case March => "March"
    case April => "April"
    case May => "May"
    case June => "June"
    case July => "July"
    case August => "August"
    case September => "September"
    case October => "October"
    case November => "November"
    case December => "December"
  }

  /** The position of a month in the calendar, 1 to 12. */
  function MonthNumber(m: Month): (n: int)
    ensures 1 <= n <= 12 && Months[n - 1] == m
  {
    match m
    case January => 1
    case February => 2
    case March => 3
    case April => 4
    case May => 5
    case June => 6
    case July => 7
    case August => 8
    case September => 9
    case October => 10
    case November => 11
    case December => 12
  }

  /** The solar computation for the requested place and timezone: the sunrise and
      sunset of a date, or None where it raises ValueError (the sun never reaches
      the horizon that day). */
  type SunFunction = Date -> Option<SolarDay>

  /** One output record: the month name and its median sunrise and sunset. */
  datatype MonthlyMedian = MonthlyMedian(month: Month, medianSunrise: string, medianSunset: string)

  /** The exceptions that leave calculate_monthly_medians: an unknown timezone name,
      a year that date() cannot even read (OverflowError), or a failing median. */
  datatype Failure = UnknownTimeZone | DateOverflow | MedianFailed(cause: MedianError)

  /** What the endpoint answers: the list as JSON, or status 400 carrying the exception. */
  datatype Response = Json(body: seq<MonthlyMedian>) | BadRequest(detail: Failure)

  /** The months are listed once each, and no two carry the same name. */
  lemma MonthsDistinct()
    ensures forall i, j :: 0 <= i < j < 12 ==> Months[i] != Months[j]
    ensures forall m1: Month, m2: Month :: m1 != m2 ==> MonthName(m1) != MonthName(m2)
  {
  }

  /** The i-th entry of the list is month i + 1. */
  lemma NumberOfMonth(i: int)
    requires 0 <= i < 12
    ensures MonthNumber(Months[i]) == i + 1
  {
    MonthsDistinct();
  }

  predicate WellFormedTimes(rs: seq<MonthlyMedian>) {
    forall i :: 0 <= i < |rs| ==> IsClockString(rs[i].medianSunrise) && IsClockString(rs[i].medianSunset)
  }

  function Sunrises(days: seq<SolarDay>): (r: seq<Event>)
    ensures |r| == |days| && forall i :: 0 <= i < |days| ==> r[i] == days[i].sunrise
  {
    seq(|days|, i requires 0 <= i < |days| => days[i].sunrise)
  }

  function Sunsets(days: seq<SolarDay>): (r: seq<Event>)
    ensures |r| == |days| && forall i :: 0 <= i < |days| ==> r[i] == days[i].sunset
  {
    seq(|days|, i requires 0 <= i < |days| => days[i].sunset)
  }

  lemma CollectOneMore(days: seq<SolarDay>, d: SolarDay)
    ensures Sunrises(days + [d]) == Sunrises(days) + [d.sunrise]
    ensures Sunsets(days + [d]) == Sunsets(days) + [d.sunset]
  {
  }

  /** The solar days of one month collected from `day` to day 31. The scan stops at
      the first day whose date() or solar computation raises ValueError; the
      OverflowError of a year that is not a C int is not caught. */
  function ScanDays(year: int, month: int, sun: SunFunction, day: int): (r: Result<seq<SolarDay>, Failure>)
    requires 1 <= month <= 12 && 1 <= day <= 32
    ensures r.Ok? ==> |r.value| <= 32 - day
    ensures r.Err? <==> day <= 31 && !FitsCInt(year)
    ensures r.Err? ==> r.error == DateOverflow
    decreases 32 - day
  {
    if day == 32 then Ok([])
    else match MakeDate(year, month, day)
      case Err(OverflowError) => Err(DateOverflow)
      case Err(ValueError) => Ok([])
      case Ok(date) =>
        match sun(date)
        case None => Ok([])
        case Some(events) => Prepend([events], ScanDays(year, month, sun, day + 1))
  }

  /** The days a month collects; empty when the scan raised. */
  function CollectedDays(year: int, month: int, sun: SunFunction): seq<SolarDay>
    requires 1 <= month <= 12
  {
    var scan := ScanDays(year, month, sun, 1);
    if scan.Ok? then scan.value else []
  }

  /** What one month contributes once its days are collected: no record when no
      day was collected, otherwise the medians of the sunrises and of the sunsets,
      each formatted as local "HH:MM:SS". */
  function RecordFor(month: int, days: seq<SolarDay>): (r: Result<Option<MonthlyMedian>, Failure>)
    requires 1 <= month <= 12
    ensures r.Ok? && r.value.Some? ==>
      && r.value.value.month == Months[month - 1]
      && IsClockString(r.value.value.medianSunrise)
      && IsClockString(r.value.value.medianSunset)
  {
    if |days| == 0 then Ok(None)
    else match Median(Sunrises(days))
      case Err(e) => Err(MedianFailed(e))
      case Ok(rise) =>
        match Median(Sunsets(days))
        case Err(e) => Err(MedianFailed(e))
        case Ok(fall) =>
          Ok(Some(MonthlyMedian(Months[month - 1], FormatClock(rise.local), FormatClock(fall.local))))
  }

  /** What one month contributes to the loop: a record, nothing, or an exception. */
  type Entry = Result<Option<MonthlyMedian>, Failure>

  /** One iteration of the month loop: the day scan, then the record. */
  function MonthRecord(year: int, month: int, sun: SunFunction): (r: Entry)
    requires 1 <= month <= 12
    ensures r == Err(DateOverflow) <==> !FitsCInt(year)
    ensures r.Ok? && r.value.Some? ==> r.value.value.month == Months[month - 1]
  {
    match ScanDays(year, month, sun, 1)
    case Err(e) => Err(e)
    case Ok(days) => RecordFor(month, days)
  }

  /** The list after one more month: the month's record is appended, a month
      without one is skipped, and an exception, once raised, is what remains. */
  function Extend(before: Result<seq<MonthlyMedian>, Failure>, entry: Entry): (after: Result<seq<MonthlyMedian>, Failure>)
    ensures before.Err? ==> after == before
    ensures after.Ok? ==> before.Ok? && entry.Ok?
    ensures after.Ok? ==> |before.value| <= |after.value| <= |before.value| + 1 && after.value[..|before.value|] == before.value
  {
    match before
    case Err(e) => Err(e)
    case Ok(records) =>
      match entry
      case Err(e) => Err(e)
      case Ok(None) => Ok(records)
      case Ok(Some(record)) => Ok(records + [record])
  }

  /** What the month loop ends with when it reaches `month` holding `records`:
      each later month's record is appended, a month without one is skipped, and
      the first exception raised ends the loop. */
  function MonthsFrom(year: int, sun: SunFunction, month: int, records: seq<MonthlyMedian>): (r: Result<seq<MonthlyMedian>, Failure>)
    requires 1 <= month <= 13
    ensures r.Ok? ==> |records| <= |r.value| <= |records| + 13 - month && r.value[..|records|] == records
    decreases 13 - month
  {
    if month == 13 then Ok(records)
    else match Extend(Ok(records), MonthRecord(year, month, sun))
      case Err(e) => Err(e)
      case Ok(after) =>
        var r := MonthsFrom(year, sun, month + 1, after);
        assert r.Ok? ==> r.value[..|records|] == r.value[..|after|][..|records|];
        r
  }

  /** calculate_monthly_medians as a function of the year, of whether the timezone
      name is known and of the solar computation. */
  function MonthlyMedians(year: int, tzKnown: bool, sun: SunFunction): (r: Result<seq<MonthlyMedian>, Failure>)
    ensures !tzKnown ==> r == Err(UnknownTimeZone)
  {
    if !tzKnown then Err(UnknownTimeZone) else MonthsFrom(year, sun, 1, [])
  }

  /** The day loop of calculate_monthly_medians for one month: appends the sunrise
      and sunset of days 1, 2, ... to two lists and leaves at the first ValueError.
      An OverflowError from date() is handed back in `raised`. */
  method CollectMonth(year: int, month: int, sun: SunFunction)
    returns (sunriseTimes: seq<Event>, sunsetTimes: seq<Event>, raised: Option<Failure>)
    requires 1 <= month <= 12
    ensures raised.Some? <==> ScanDays(year, month, sun, 1).Err?
    ensures raised.Some? ==> raised.value == DateOverflow
    ensures raised.None? ==>
      sunriseTimes == Sunrises(CollectedDays(year, month, sun)) && sunsetTimes == Sunsets(CollectedDays(year, month, sun))
  {
    sunriseTimes, sunsetTimes := [], [];
    ghost var days: seq<SolarDay> := [];
    var day := 1;
    while day < 32
      invariant 1 <= day <= 32
      invariant sunriseTimes == Sunrises(days) && sunsetTimes == Sunsets(days)
      invariant ScanDays(year, month, sun, 1) == Prepend(days, ScanDays(year, month, sun, day))
    {
      var date := MakeDate(year, month, day);
      if date.Err? {
        if date.error == OverflowError {
          // OverflowError is not a ValueError: it leaves the function.
          assert ScanDays(year, month, sun, day) == Err(DateOverflow);
          return sunriseTimes, sunsetTimes, Some(DateOverflow);
        }
        assert ScanDays(year, month, sun, day) == Ok([]);
        assert days + [] == days;
        break;
      }
      var events := sun(date.value);
      if events.None? {
        assert ScanDays(year, month, sun, day) == Ok([]);
        assert days + [] == days;
        break;
      }
      assert ScanDays(year, month, sun, day) == Prepend([events.value], ScanDays(year, month, sun, day + 1));
      PrependAssociates(days, [events.value], ScanDays(year, month, sun, day + 1));
      CollectOneMore(days, events.value);
      sunriseTimes := sunriseTimes + [events.value.sunrise];
      sunsetTimes := sunsetTimes + [events.value.sunset];
      days := days + [events.value];
      day := day + 1;
    }
    assert day == 32 ==> ScanDays(year, month, sun, day) == Ok([]);
    assert days + [] == days;
    return sunriseTimes, sunsetTimes, None;
  }

  /** The tail of one month's iteration: with a sunrise collected, take both medians
      and format them; a median that raises ends the call. */
  method MonthEntry(month: int, sunriseTimes: seq<Event>, sunsetTimes: seq<Event>, ghost days: seq<SolarDay>)
    returns (entry: Result<Option<MonthlyMedian>, Failure>)
    requires 1 <= month <= 12
    requires sunriseTimes == Sunrises(days) && sunsetTimes == Sunsets(days)
    ensures entry == RecordFor(month, days)
  {
    if |sunriseTimes| > 0 && |sunsetTimes| > 0 {
      var medianSunrise := Median(sunriseTimes);
      if medianSunrise.Err? {
        return Err(MedianFailed(medianSunrise.error));
      }
      var medianSunset := Median(sunsetTimes);
      match medianSunset
      case Err(e) =>
        // Unreachable: both lists have the same length as the sunrise list.
        return Err(MedianFailed(e));
      case Ok(fall) =>
        return Ok(Some(MonthlyMedian(
          Months[month - 1], FormatClock(medianSunrise.value.local), FormatClock(fall.local))));
    }
    return Ok(None);
  }

  /** calculate_monthly_medians: the month loop appends a record for every month
      that collected a day; an exception leaves with no list at all. */
  method CalculateMonthlyMedians(year: int, tzKnown: bool, sun: SunFunction)
    returns (r: Result<seq<MonthlyMedian>, Failure>)
    ensures r == MonthlyMedians(year, tzKnown, sun)
  {
    if !tzKnown {
      return Err(UnknownTimeZone);
    }
    var results: seq<MonthlyMedian> := [];
    for month := 1 to 13
      invariant MonthsFrom(year, sun, month, results) == MonthsFrom(year, sun, 1, [])
    {
      var sunriseTimes, sunsetTimes, raised := CollectMonth(year, month, sun);
      if raised.Some? {
        return Err(raised.value);
      }
      var entry := MonthEntry(month, sunriseTimes, sunsetTimes, CollectedDays(year, month, sun));
      assert MonthRecord(year, month, sun) == entry;
      if entry.Err? {
        return Err(entry.error);
      }
      if entry.value.Some? {
        results := results + [entry.value.value];
      }
    }
    return Ok(results);
  }

  /** The endpoint: the list when calculate_monthly_medians returns; any exception
      becomes status 400 with the exception as its detail, never a partial list. */
  method Calculate(year: int, tzKnown: bool, sun: SunFunction) returns (resp: Response)
    ensures resp.Json? <==> MonthlyMedians(year, tzKnown, sun).Ok?
    ensures resp.Json? ==> resp.body == MonthlyMedians(year, tzKnown, sun).value
    ensures resp.BadRequest? ==> resp.detail == MonthlyMedians(year, tzKnown, sun).error
  {
    var r := CalculateMonthlyMedians(year, tzKnown, sun);
    match r
    case Ok(results) => resp := Json(results);
    case Err(e) => resp := BadRequest(e);
  }
}
