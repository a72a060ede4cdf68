/** Instants are whole seconds since the Unix epoch (UTC); calendar dates are
    whole days since the epoch. A time zone is a fixed offset in seconds, so a
    local wall-clock instant `l` is the UTC instant `l - offset`. */
module Clock {

  /** `timedelta(days=1)` and `timedelta(hours=24)`, in seconds. */
  const Day: int := 86400

  /** A `datetime.time` value: seconds after local midnight. */
  type TimeOfDay = t: int | 0 <= t < 86400

  /** The calendar date (`.date()`) of an instant, as a day number. */
  function DateOf(t: int): (d: int)
    ensures d * 86400 <= t < d * 86400 + 86400
  {
    t / 86400
  }

  /** Midnight at the start of day number `d`. */
  function DayStart(d: int): (t: int)
    ensures DateOf(t) == d
  {
    d * 86400
  }

  /** `date.weekday()`: Monday is 0 and Sunday is 6; day 0 (1 January 1970)
      was a Thursday. */
  function Weekday(d: int): (w: int)
    ensures 0 <= w < 7
  {
    (d + 3) % 7
  }

  /** `datetime.combine(date, time)`: a wall-clock instant on day `d`. */
  function Combine(d: int, t: TimeOfDay): (l: int)
    ensures DateOf(l) == d
    ensures l % Day == t
  {
    DayStart(d) + t
  }

  /** Localising a wall-clock instant in a zone `offset` seconds ahead of
      UTC and converting the result to UTC: reading the result back in that
      zone gives the wall-clock instant again. */
  function ToUtc(local: int, offset: int): (u: int)
    ensures u + offset == local
  {
    local - offset
  }

  /** `max` and `min` on instants and durations. */
  function Max(a: int, b: int): int { if a >= b then a else b }

  function Min(a: int, b: int): int { if a <= b then a else b }

  /** Day 0 (1 January 1970) was a Thursday, and each day's weekday follows
      the previous day's, Sunday wrapping round to Monday. */
  lemma WeekdaySuccession(d: int)
    ensures Weekday(0) == 3
    ensures Weekday(d + 1) == (Weekday(d) + 1) % 7
  {
  }

  /** Dates are monotone in the instant. */
  lemma DateOfMonotone(a: int, b: int)
    requires a <= b
    ensures DateOf(a) <= DateOf(b)
  {
  }

  /** An instant between the starts of two dates has a date between them. */
  lemma DateWithin(t: int, lo: int, hi: int)
    requires DayStart(lo) <= t <= DayStart(hi)
    ensures lo <= DateOf(t) <= hi
  {
    DateOfMonotone(DayStart(lo), t);
    DateOfMonotone(t, DayStart(hi));
  }
}
