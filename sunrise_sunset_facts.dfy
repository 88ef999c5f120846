/** What calculate_monthly_medians promises about its output, proved about the
    functions that specify it. */
module SunriseSunsetFacts {
  import opened Basics
  import opened Calendar
  import opened Events
  import opened Statistics
  import opened TimeFormat
  import opened SunriseSunset

  /** Day `d` of the month stops the day loop: date() refuses it, or the sun never
      reaches the horizon that day. */
  predicate DayFails(year: int, month: int, sun: SunFunction, d: int) {
    !IsValidDate(year, month, d) || sun(Date(year, month, d)).None?
  }

  /** The k-th day a scan from `day` collects is the solar day of date `day + k`. */
  lemma {:induction false} ScannedDay(year: int, month: int, sun: SunFunction, day: int, k: nat)
    requires 1 <= month <= 12 && 1 <= day <= 32 && ScanDays(year, month, sun, day).Ok?
    requires k < |ScanDays(year, month, sun, day).value|
    ensures IsValidDate(year, month, day + k)
    ensures sun(Date(year, month, day + k)) == Some(ScanDays(year, month, sun, day).value[k])
    decreases k
  {
    var date := MakeDate(year, month, day);
    assert date.Ok? && sun(date.value).Some?;
    var rest := ScanDays(year, month, sun, day + 1);
    assert ScanDays(year, month, sun, day).value == [sun(date.value).value] + rest.value;
    if k > 0 {
      ScannedDay(year, month, sun, day + 1, k - 1);
    }
  }

  /** A scan that returns stops at day 32 or at a day that fails. */
  lemma {:induction false} ScanStops(year: int, month: int, sun: SunFunction, day: int)
    requires 1 <= month <= 12 && 1 <= day <= 32 && ScanDays(year, month, sun, day).Ok?
    ensures day + |ScanDays(year, month, sun, day).value| <= 31 ==>
      DayFails(year, month, sun, day + |ScanDays(year, month, sun, day).value|)
    decreases 32 - day
  {
    if day < 32 {
      var date := MakeDate(year, month, day);
      if date.Ok? && sun(date.value).Some? {
        ScanStops(year, month, sun, day + 1);
      }
    }
  }

  /** The days of a month are collected consecutively from day 1: the k-th collected
      day is the solar day of date k + 1. */
  lemma CollectedDay(year: int, month: int, sun: SunFunction, k: nat)
    requires 1 <= month <= 12 && k < |CollectedDays(year, month, sun)|
    ensures IsValidDate(year, month, k + 1)
    ensures sun(Date(year, month, k + 1)) == Some(CollectedDays(year, month, sun)[k])
  {
    ScannedDay(year, month, sun, 1, k);
  }

  /** The loop leaves a month at its first failing day: the day after the last one
      collected fails, unless all 31 were collected. */
  lemma CollectionStops(year: int, month: int, sun: SunFunction)
    requires 1 <= month <= 12
    ensures |CollectedDays(year, month, sun)| <= 30 ==>
      DayFails(year, month, sun, |CollectedDays(year, month, sun)| + 1)
  {
    if FitsCInt(year) {
      ScanStops(year, month, sun, 1);
    } else {
      // date() raises OverflowError on day 1: nothing is collected, and day 1 is no date.
      assert CollectedDays(year, month, sun) == [];
    }
  }

  /** A month never collects more days than it has. */
  lemma CollectedWithinMonth(year: int, month: int, sun: SunFunction)
    requires 1 <= month <= 12
    ensures |CollectedDays(year, month, sun)| <= DaysInMonth(year, month)
  {
    var n := |CollectedDays(year, month, sun)|;
    if n > 0 {
      CollectedDay(year, month, sun, n - 1);
    }
  }

  /** Where the sun rises and sets on every day of a month of a year date() accepts,
      the month collects all its days: 28 to 31 by the Gregorian rule. */
  lemma FullMonthCollected(year: int, month: int, sun: SunFunction)
    requires MinYear <= year <= MaxYear && 1 <= month <= 12
    requires forall d :: 1 <= d <= DaysInMonth(year, month) ==> sun(Date(year, month, d)).Some?
    ensures |CollectedDays(year, month, sun)| == DaysInMonth(year, month)
  {
    var n := |CollectedDays(year, month, sun)|;
    CollectedWithinMonth(year, month, sun);
    CollectionStops(year, month, sun);
  }

  /** A month count the medians accept: no day (no record), or an odd number. */
  predicate CountUsable(n: nat) {
    n == 0 || n % 2 == 1
  }

  /** A month's record: none without a collected day; otherwise the medians succeed
      exactly for an odd count, and an even count raises TypeError. */
  lemma RecordOutcome(month: int, days: seq<SolarDay>)
    requires 1 <= month <= 12
    ensures RecordFor(month, days) == Ok(None) <==> |days| == 0
    ensures RecordFor(month, days).Ok? <==> CountUsable(|days|)
    ensures RecordFor(month, days).Err? ==> RecordFor(month, days).error == MedianFailed(TypeError)
  {
    if |days| > 0 {
      assert |Sunrises(days)| == |Sunsets(days)| == |days|;
    }
  }

  /** A year that is not a C int makes date() raise OverflowError in January; it is
      not caught, so the whole call fails. */
  lemma OverflowYearFails(year: int, sun: SunFunction)
    requires !FitsCInt(year)
    ensures MonthlyMedians(year, true, sun) == Err(DateOverflow)
  {
    assert MonthRecord(year, 1, sun) == Err(DateOverflow);
  }

  lemma {:induction false} NoMonthsFrom(year: int, sun: SunFunction, month: int)
    requires FitsCInt(year) && !(MinYear <= year <= MaxYear) && 1 <= month <= 13
    ensures MonthsFrom(year, sun, month, []) == Ok([])
    decreases 13 - month
  {
    if month < 13 {
      NoMonthsFrom(year, sun, month + 1);
      YearOutOfRange(year, month, 1);
      assert ScanDays(year, month, sun, 1) == Ok([]);
      assert MonthRecord(year, month, sun) == Ok(None);
    }
  }

  /** A year date() refuses with ValueError (a C int outside 1..9999) breaks every
      month at day 1, so the answer is the empty list. */
  lemma OutOfRangeYearGivesNoMonths(year: int, sun: SunFunction)
    requires FitsCInt(year) && !(MinYear <= year <= MaxYear)
    ensures MonthlyMedians(year, true, sun) == Ok([])
  {
    NoMonthsFrom(year, sun, 1);
  }

  /** The month loop over the entries of months 1, 2, ... in order: appends each
      record, skips a month without one, and stops at the first exception. */
  function Accumulate(entries: seq<Entry>): Result<seq<MonthlyMedian>, Failure>
  {
    if entries == [] then Ok([])
    else Extend(Accumulate(entries[..|entries| - 1]), entries[|entries| - 1])
  }

  /** The positions of the entries that hold a record, in increasing order. */
  function Present(entries: seq<Entry>): (ps: seq<int>)
    ensures |ps| <= |entries|
    ensures forall k :: 0 <= k < |ps| ==> 0 <= ps[k] < |entries| && entries[ps[k]].Ok? && entries[ps[k]].value.Some?
    ensures forall k, l :: 0 <= k < l < |ps| ==> ps[k] < ps[l]
  {
    if entries == [] then []
    else
      var init := entries[..|entries| - 1];
      var last := entries[|entries| - 1];
      Present(init) + (if last.Ok? && last.value.Some? then [|entries| - 1] else [])
  }

  /** Every entry that holds a record has its position listed. */
  lemma {:induction false} PresentComplete(entries: seq<Entry>, i: int)
    requires 0 <= i < |entries| && entries[i].Ok? && entries[i].value.Some?
    ensures i in Present(entries)
  {
    var init := entries[..|entries| - 1];
    if i < |entries| - 1 {
      assert init[i] == entries[i];
      PresentComplete(init, i);
    }
  }

  /** The loop returns a list exactly when no month raises. */
  lemma {:induction false} AccumulateOk(entries: seq<Entry>)
    ensures Accumulate(entries).Ok? <==> forall i :: 0 <= i < |entries| ==> entries[i].Ok?
  {
    if entries != [] {
      var init := entries[..|entries| - 1];
      AccumulateOk(init);
      assert forall i :: 0 <= i < |init| ==> init[i] == entries[i];
    }
  }

  /** The exception the loop ends with is the one of the first month that raises. */
  lemma {:induction false} AccumulateFirstError(entries: seq<Entry>)
    requires Accumulate(entries).Err?
    ensures exists i :: 0 <= i < |entries| && entries[i] == Err(Accumulate(entries).error) &&
                        (forall j :: 0 <= j < i ==> entries[j].Ok?)
  {
    var init := entries[..|entries| - 1];
    assert forall i :: 0 <= i < |init| ==> init[i] == entries[i];
    if Accumulate(init).Err? {
      AccumulateFirstError(init);
      var i :| 0 <= i < |init| && init[i] == Err(Accumulate(init).error) && forall j :: 0 <= j < i ==> init[j].Ok?;
      assert entries[i] == Err(Accumulate(entries).error);
    } else {
      AccumulateOk(init);
      assert entries[|init|] == Err(Accumulate(entries).error);
    }
  }

  /** Once the loop has raised, the exception is what it ends with. */
  lemma {:induction false} AccumulateErrorStands(entries: seq<Entry>, n: int)
    requires 0 <= n <= |entries| && Accumulate(entries[..n]).Err?
    ensures Accumulate(entries) == Accumulate(entries[..n])
  {
    if n < |entries| {
      var init := entries[..|entries| - 1];
      assert init[..n] == entries[..n];
      AccumulateErrorStands(init, n);
    } else {
      assert entries[..n] == entries;
    }
  }

  /** The list holds one record per entry that has one, in the entries' order. */
  lemma {:induction false} AccumulateRecords(entries: seq<Entry>, k: nat)
    requires Accumulate(entries).Ok?
    ensures |Accumulate(entries).value| == |Present(entries)|
    ensures k < |Present(entries)| ==> entries[Present(entries)[k]] == Ok(Some(Accumulate(entries).value[k]))
  {
    if entries != [] {
      var init := entries[..|entries| - 1];
      var last := entries[|entries| - 1];
      AccumulateRecords(init, k);
      if k < |Present(init)| {
        assert init[Present(init)[k]] == entries[Present(init)[k]];
      }
    }
  }

  /** The outcome of month i + 1; no record outside 0..11. */
  function EntryOf(year: int, sun: SunFunction, i: int): Entry {
    if 0 <= i < 12 then MonthRecord(year, i + 1, sun) else Ok(None)
  }

  /** The entries of months 1 to month - 1. */
  function Entries(year: int, sun: SunFunction, month: int): (es: seq<Entry>)
    requires 1 <= month <= 13
    ensures |es| == month - 1
  {
    seq(month - 1, i => EntryOf(year, sun, i))
  }

  /** The first n entries of the year are the entries of months 1 to n. */
  lemma EntriesPrefix(year: int, sun: SunFunction, n: int)
    requires 0 <= n <= 12
    ensures Entries(year, sun, 13)[..n] == Entries(year, sun, n + 1)
  {
    var es, ps := Entries(year, sun, 13), Entries(year, sun, n + 1);
    assert forall i :: 0 <= i < n ==> es[..n][i] == ps[i];
  }

  /** The loop, at month `month` holding the fold of the earlier entries, ends with
      the fold of all twelve. */
  lemma {:induction false} MonthsFromAccumulates(year: int, sun: SunFunction, month: int, records: seq<MonthlyMedian>)
    requires 1 <= month <= 13 && Accumulate(Entries(year, sun, month)) == Ok(records)
    ensures MonthsFrom(year, sun, month, records) == Accumulate(Entries(year, sun, 13))
    decreases 13 - month
  {
    if month < 13 {
      var es := Entries(year, sun, 13);
      EntriesPrefix(year, sun, month - 1);
      EntriesPrefix(year, sun, month);
      EntryIsMonthRecord(year, sun, month - 1);
      assert es[..month][..month - 1] == es[..month - 1];
      var after := Accumulate(es[..month]);
      assert after == Extend(Ok(records), MonthRecord(year, month, sun));
      if after.Err? {
        AccumulateErrorStands(es, month);
      } else {
        MonthsFromAccumulates(year, sun, month + 1, after.value);
      }
    }
  }

  /** The entry at index i is the outcome of month i + 1. */
  lemma EntryIsMonthRecord(year: int, sun: SunFunction, i: int)
    requires 0 <= i < 12
    ensures Entries(year, sun, 13)[i] == MonthRecord(year, i + 1, sun)
  {
  }

  /** For a year date() can read, the scan of a month returns, so the month's
      outcome is the record of the days it collected. */
  lemma ReadableMonthRecord(year: int, month: int, sun: SunFunction)
    requires FitsCInt(year) && 1 <= month <= 12
    ensures MonthRecord(year, month, sun) == RecordFor(month, CollectedDays(year, month, sun))
  {
    assert ScanDays(year, month, sun, 1).Ok?;
  }

  /** For a year date() can read, the entry of month i + 1 is decided by its count. */
  lemma EntryDecided(year: int, sun: SunFunction, i: int)
    requires FitsCInt(year) && 0 <= i < 12
    ensures Entries(year, sun, 13)[i] == Ok(None) <==> |CollectedDays(year, i + 1, sun)| == 0
    ensures Entries(year, sun, 13)[i].Ok? <==> CountUsable(|CollectedDays(year, i + 1, sun)|)
    ensures Entries(year, sun, 13)[i].Err? ==> Entries(year, sun, 13)[i].error == MedianFailed(TypeError)
  {
    EntryIsMonthRecord(year, sun, i);
    ReadableMonthRecord(year, i + 1, sun);
    RecordOutcome(i + 1, CollectedDays(year, i + 1, sun));
  }

  /** Every month collects no day or an odd number of days. */
  predicate AllCountsUsable(year: int, sun: SunFunction) {
    forall m :: 1 <= m <= 12 ==> CountUsable(|CollectedDays(year, m, sun)|)
  }

  /** For a year date() can read, the call returns a list exactly when every month
      collects no day or an odd number of days; otherwise the medians of an even
      count raise TypeError and the endpoint answers 400. */
  lemma SucceedsIffCountsUsable(year: int, sun: SunFunction)
    requires FitsCInt(year)
    ensures MonthlyMedians(year, true, sun).Ok? <==> AllCountsUsable(year, sun)
    ensures MonthlyMedians(year, true, sun).Err? ==> MonthlyMedians(year, true, sun).error == MedianFailed(TypeError)
  {
    var es := Entries(year, sun, 13);
    AnswerIsFold(year, sun);
    AccumulateOk(es);
    forall i | 0 <= i < 12
      ensures es[i].Ok? <==> CountUsable(|CollectedDays(year, i + 1, sun)|)
      ensures es[i].Err? ==> es[i].error == MedianFailed(TypeError)
    {
      EntryDecided(year, sun, i);
    }
    if Accumulate(es).Err? {
      AccumulateFirstError(es);
    }
    if AllCountsUsable(year, sun) {
      forall i | 0 <= i < 12
        ensures es[i].Ok?
      {
        assert CountUsable(|CollectedDays(year, i + 1, sun)|);
      }
    } else {
      var m :| 1 <= m <= 12 && !CountUsable(|CollectedDays(year, m, sun)|);
      assert !es[m - 1].Ok?;
    }
  }

  /** In particular a full 30-day month, or a full 28-day February (a non-leap
      year), with a sunrise on every day makes the whole call fail with TypeError. */
  lemma FullEvenMonthFails(year: int, month: int, sun: SunFunction)
    requires MinYear <= year <= MaxYear && 1 <= month <= 12 && DaysInMonth(year, month) % 2 == 0
    requires forall d :: 1 <= d <= DaysInMonth(year, month) ==> sun(Date(year, month, d)).Some?
    ensures MonthlyMedians(year, true, sun) == Err(MedianFailed(TypeError))
  {
    FullMonthCollected(year, month, sun);
    assert !AllCountsUsable(year, sun);
    SucceedsIffCountsUsable(year, sun);
  }

  /** The answer is the fold of the twelve month entries. */
  lemma AnswerIsFold(year: int, sun: SunFunction)
    ensures MonthlyMedians(year, true, sun) == Accumulate(Entries(year, sun, 13))
  {
    assert Entries(year, sun, 1) == [];
    MonthsFromAccumulates(year, sun, 1, []);
  }

  /** A month's record names the month, and its two times are the medians of the
      month's sunrises and sunsets, truncated to the second; the count was odd. */
  lemma RecordForReports(month: int, days: seq<SolarDay>)
    requires 1 <= month <= 12 && RecordFor(month, days).Ok? && RecordFor(month, days).value.Some?
    ensures var record := RecordFor(month, days).value.value;
      && |days| % 2 == 1
      && record.month == Months[month - 1]
      && ParseClock(record.medianSunrise) == Some(Median(Sunrises(days)).value.local / MicrosPerSecond)
      && ParseClock(record.medianSunset) == Some(Median(Sunsets(days)).value.local / MicrosPerSecond)
  {
    var rise, fall := Median(Sunrises(days)).value, Median(Sunsets(days)).value;
    ParseFormat(rise.local);
    ParseFormat(fall.local);
  }

  /** The entry of month i + 1, when the month's scan returns, is its record. */
  lemma EntryIsRecord(year: int, sun: SunFunction, i: int)
    requires 0 <= i < 12 && Entries(year, sun, 13)[i].Ok?
    ensures Entries(year, sun, 13)[i] == RecordFor(i + 1, CollectedDays(year, i + 1, sun))
  {
    EntryIsMonthRecord(year, sun, i);
    assert ScanDays(year, i + 1, sun, 1).Ok?;
  }

  /** The record of month i + 1 names the month, and its two times are the medians
      of the month's sunrises and sunsets; the month collected an odd number of days. */
  lemma RecordReportsMedians(year: int, sun: SunFunction, i: int)
    requires 0 <= i < 12
    requires Entries(year, sun, 13)[i].Ok? && Entries(year, sun, 13)[i].value.Some?
    ensures var record := Entries(year, sun, 13)[i].value.value;
      var days := CollectedDays(year, i + 1, sun);
      && |days| % 2 == 1
      && record.month == Months[i]
      && ParseClock(record.medianSunrise) == Some(Median(Sunrises(days)).value.local / MicrosPerSecond)
      && ParseClock(record.medianSunset) == Some(Median(Sunsets(days)).value.local / MicrosPerSecond)
  {
    EntryIsRecord(year, sun, i);
    RecordForReports(i + 1, CollectedDays(year, i + 1, sun));
  }

  /** The k-th record of the answer: it is the record of the k-th month that holds
      one, that month collected an odd number of days, and the record's times are
      the month's medians. */
  lemma RecordAt(year: int, sun: SunFunction, k: nat)
    requires MonthlyMedians(year, true, sun).Ok? && k < |MonthlyMedians(year, true, sun).value|
    ensures |MonthlyMedians(year, true, sun).value| == |Present(Entries(year, sun, 13))|
    ensures var record := MonthlyMedians(year, true, sun).value[k];
      var days := CollectedDays(year, MonthNumber(record.month), sun);
      && MonthNumber(record.month) == Present(Entries(year, sun, 13))[k] + 1
      && |days| % 2 == 1
      && ParseClock(record.medianSunrise) == Some(Median(Sunrises(days)).value.local / MicrosPerSecond)
      && ParseClock(record.medianSunset) == Some(Median(Sunsets(days)).value.local / MicrosPerSecond)
  {
    var es := Entries(year, sun, 13);
    AnswerIsFold(year, sun);
    AccumulateRecords(es, k);
    var i := Present(es)[k];
    RecordReportsMedians(year, sun, i);
    NumberOfMonth(i);
  }

  /** The answer has at most twelve records, in calendar order (so no month twice),
      each with two "HH:MM:SS" times. */
  lemma AnswerInCalendarOrder(year: int, sun: SunFunction)
    requires MonthlyMedians(year, true, sun).Ok?
    ensures var records := MonthlyMedians(year, true, sun).value;
      && |records| <= 12
      && WellFormedTimes(records)
      && forall k, l :: 0 <= k < l < |records| ==> MonthNumber(records[k].month) < MonthNumber(records[l].month)
  {
    var records := MonthlyMedians(year, true, sun).value;
    var ps := Present(Entries(year, sun, 13));
    AnswerIsFold(year, sun);
    AccumulateRecords(Entries(year, sun, 13), 0);
    forall k | 0 <= k < |records|
      ensures MonthNumber(records[k].month) == ps[k] + 1
      ensures IsClockString(records[k].medianSunrise) && IsClockString(records[k].medianSunset)
    {
      RecordAt(year, sun, k);
    }
  }

  /** A month that collected a day has a record in a successful answer. */
  lemma CollectedMonthReported(year: int, sun: SunFunction, i: int)
    requires MonthlyMedians(year, true, sun).Ok? && 0 <= i < 12
    requires |CollectedDays(year, i + 1, sun)| > 0
    ensures exists k :: 0 <= k < |MonthlyMedians(year, true, sun).value| &&
                        MonthlyMedians(year, true, sun).value[k].month == Months[i]
  {
    var es := Entries(year, sun, 13);
    if !FitsCInt(year) {
      OverflowYearFails(year, sun);
    }
    NumberOfMonth(i);
    AnswerIsFold(year, sun);
    EntryDecided(year, sun, i);
    AccumulateOk(es);
    PresentComplete(es, i);
    var k :| 0 <= k < |Present(es)| && Present(es)[k] == i;
    AccumulateRecords(es, k);
    RecordAt(year, sun, k);
  }

  /** A month with a record in the answer collected at least one day. */
  lemma ReportedMonthCollected(year: int, sun: SunFunction, i: int, k: int)
    requires MonthlyMedians(year, true, sun).Ok? && 0 <= i < 12
    requires 0 <= k < |MonthlyMedians(year, true, sun).value| && MonthlyMedians(year, true, sun).value[k].month == Months[i]
    ensures |CollectedDays(year, i + 1, sun)| > 0
  {
    NumberOfMonth(i);
    RecordAt(year, sun, k);
  }

  /** Month i + 1 appears in the answer exactly when it collected at least one day. */
  lemma MonthReportedIffCollected(year: int, sun: SunFunction, i: int)
    requires MonthlyMedians(year, true, sun).Ok? && 0 <= i < 12
    ensures (exists k :: 0 <= k < |MonthlyMedians(year, true, sun).value| &&
                         MonthlyMedians(year, true, sun).value[k].month == Months[i])
      <==> |CollectedDays(year, i + 1, sun)| > 0
  {
    var records := MonthlyMedians(year, true, sun).value;
    if |CollectedDays(year, i + 1, sun)| > 0 {
      CollectedMonthReported(year, sun, i);
    }
    if exists k :: 0 <= k < |records| && records[k].month == Months[i] {
      var k :| 0 <= k < |records| && records[k].month == Months[i];
      ReportedMonthCollected(year, sun, i, k);
    }
  }
}
