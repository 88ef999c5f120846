/** The part of Python's datetime.date the aggregator relies on: the constructor
    date(year, month, day) of the proleptic Gregorian calendar, as CPython's C
    implementation checks its arguments. */
module Calendar {
  import opened Basics

  const MinYear := 1
  const MaxYear := 9999

  /** The constructor reads its three arguments as C ints. */
  const CIntMin := -0x8000_0000
  const CIntMax := 0x7FFF_FFFF

  datatype Date = Date(year: int, month: int, day: int)

  /** The exceptions date(year, month, day) can raise. */
  datatype DateError = ValueError | OverflowError

  predicate FitsCInt(v: int) {
    CIntMin <= v <= CIntMax
  }

  /** Gregorian rule: every fourth year, except centuries not divisible by 400. */
  predicate IsLeapYear(year: int) {
    year % 4 == 0 && (year % 100 != 0 || year % 400 == 0)
  }

  function DaysInMonth(year: int, month: int): (n: int)
    requires 1 <= month <= 12
    ensures 28 <= n <= 31
  {
    if month == 2 then (if IsLeapYear(year) then 29 else 28)
    else if month == 4 || month == 6 || month == 9 || month == 11 then 30
    else 31
  }

  predicate IsValidDate(year: int, month: int, day: int) {
    MinYear <= year <= MaxYear && 1 <= month <= 12 && 1 <= day <= DaysInMonth(year, month)
  }

  /** date(year, month, day): an argument that is not a C int raises OverflowError;
      otherwise a year outside 1..9999, a month outside 1..12 or a day past the
      end of its month raises ValueError. */
  function MakeDate(year: int, month: int, day: int): (r: Result<Date, DateError>)
    ensures r.Ok? <==> IsValidDate(year, month, day)
    ensures r.Ok? ==> r.value == Date(year, month, day)
    ensures r == Err(OverflowError) <==> !(FitsCInt(year) && FitsCInt(month) && FitsCInt(day))
  {
    if !(FitsCInt(year) && FitsCInt(month) && FitsCInt(day)) then Err(OverflowError)
    else if !(MinYear <= year <= MaxYear) then Err(ValueError)
    else if !(1 <= month <= 12) then Err(ValueError)
    else if !(1 <= day <= DaysInMonth(year, month)) then Err(ValueError)
    else Ok(Date(year, month, day))
  }

  function DaysInYearFrom(year: int, month: int): (n: int)
    requires 1 <= month <= 13
    decreases 13 - month
  {
    if month == 13 then 0 else DaysInMonth(year, month) + DaysInYearFrom(year, month + 1)
  }

  /** The twelve month lengths add up to the length of a Gregorian year. */
  lemma YearLength(year: int)
    ensures DaysInYearFrom(year, 1) == if IsLeapYear(year) then 366 else 365
  {
  }

  /** A year outside 1..9999 that is still a C int is refused with ValueError
      whatever the month and day. */
  lemma YearOutOfRange(year: int, month: int, day: int)
    requires FitsCInt(year) && !(MinYear <= year <= MaxYear)
    requires FitsCInt(month) && FitsCInt(day)
    ensures MakeDate(year, month, day) == Err(ValueError)
  {
  }
}
