/** strftime("%H:%M:%S") of a local time of day, and the parse that reads such a
    string back. */
module TimeFormat {
  import opened Basics
  import opened Events

  const MicrosPerSecond := 1_000_000
  const SecondsPerDay := 86_400

  predicate IsDigit(c: char) {
    '0' <= c <= '9'
  }

  function Digit(d: int): (c: char)
    requires 0 <= d <= 9
    ensures IsDigit(c)
  {
    ('0' as int + d) as char
  }

  function DigitValue(c: char): int {
    c as int - '0' as int
  }

  /** A number below 100 written as two digits, zero-padded. */
  function TwoDigits(v: int): (s: string)
    requires 0 <= v <= 99
    ensures |s| == 2 && IsDigit(s[0]) && IsDigit(s[1])
    ensures 10 * DigitValue(s[0]) + DigitValue(s[1]) == v
  {
    [Digit(v / 10), Digit(v % 10)]
  }

  /** The two-digit field of r that starts at index i. */
  function Field(r: string, i: int): int
    requires 0 <= i && i + 1 < |r|
  {
    10 * DigitValue(r[i]) + DigitValue(r[i + 1])
  }

  /** "HH:MM:SS" with every field two digits, HH at most 23, MM and SS at most 59. */
  predicate IsClockString(r: string) {
    && |r| == 8
    && r[2] == ':' && r[5] == ':'
    && IsDigit(r[0]) && IsDigit(r[1]) && IsDigit(r[3]) && IsDigit(r[4]) && IsDigit(r[6]) && IsDigit(r[7])
    && Field(r, 0) <= 23 && Field(r, 3) <= 59 && Field(r, 6) <= 59
  }

  /** The wall-clock time as %H:%M:%S prints it; the microseconds are dropped. */
  function FormatClock(t: TimeOfDay): (r: string)
    ensures IsClockString(r)
  {
    var seconds := t / MicrosPerSecond;
    TwoDigits(seconds / 3600) + ":" + TwoDigits(seconds / 60 % 60) + ":" + TwoDigits(seconds % 60)
  }

  /** Reads "HH:MM:SS" back as the number of seconds after midnight. */
  function ParseClock(r: string): (o: Option<int>)
    ensures o.Some? <==> IsClockString(r)
    ensures o.Some? ==> 0 <= o.value < SecondsPerDay
  {
    if IsClockString(r) then Some(Field(r, 0) * 3600 + Field(r, 3) * 60 + Field(r, 6)) else None
  }

  /** Reading the formatted time back recovers the time of day truncated to whole seconds. */
  lemma ParseFormat(t: TimeOfDay)
    ensures ParseClock(FormatClock(t)) == Some(t / MicrosPerSecond)
  {
    var r := FormatClock(t);
    var s := t / MicrosPerSecond;
    assert Field(r, 0) == s / 3600;
    assert Field(r, 3) == s / 60 % 60;
    assert Field(r, 6) == s % 60;
    assert s / 60 == (s / 60 / 60) * 60 + s / 60 % 60;
    assert s / 60 / 60 == s / 3600;
    assert s == (s / 60) * 60 + s % 60;
  }

  /** A two-digit field is printed back as the same two characters. */
  lemma FieldRoundTrip(r: string, i: int)
    requires 0 <= i && i + 1 < |r| && IsDigit(r[i]) && IsDigit(r[i + 1])
    ensures TwoDigits(Field(r, i)) == r[i..i + 2]
  {
    var v := Field(r, i);
    assert v / 10 == DigitValue(r[i]) && v % 10 == DigitValue(r[i + 1]);
  }

  /** Every well-formed clock string is what formatting its own value prints, so
      formatting is a bijection between seconds of the day and clock strings. */
  lemma FormatParse(r: string)
    requires ParseClock(r).Some?
    ensures FormatClock(ParseClock(r).value * MicrosPerSecond) == r
  {
    var h, m, sec := Field(r, 0), Field(r, 3), Field(r, 6);
    var s := h * 3600 + m * 60 + sec;
    assert s * MicrosPerSecond / MicrosPerSecond == s;
    assert s / 60 == h * 60 + m;
    assert s / 3600 == h;
    assert s / 60 % 60 == m;
    assert s % 60 == sec;
    FieldRoundTrip(r, 0);
    FieldRoundTrip(r, 3);
    FieldRoundTrip(r, 6);
    assert r == r[0..2] + ":" + r[3..5] + ":" + r[6..8];
  }
}
