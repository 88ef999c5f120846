/** The timezone-aware datetimes that the solar computation hands back. */
module Events {

  /** Microseconds in a day: a local time of day lies in [0, DayMicros). */
  const DayMicros := 86_400_000_000

  type TimeOfDay = t: int | 0 <= t < DayMicros

  /** A datetime reduced to what the aggregator uses: its UTC instant in
      microseconds, which orders datetimes, and its wall-clock time of day
      in the requested timezone, in microseconds after local midnight. */
  datatype Event = Event(instant: int, local: TimeOfDay)

  /** The "sunrise" and "sunset" entries the solar computation returns for one date. */
  datatype SolarDay = SolarDay(sunrise: Event, sunset: Event)
}
