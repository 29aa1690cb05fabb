/** Time-of-day values and the three small helpers of the shuttle controller:
    `get_str_time`, `get_time_diff` and `is_running`.

    A time of day is a whole number of seconds since midnight.  Combining a
    time with today's date (`get_datetime`) is then the identity, so every
    comparison of the source between datetimes of the same day is a
    comparison of these integers; an instant 30 minutes before 00:10 is the
    negative number -1200, exactly as the source's datetime arithmetic
    crosses into the previous day. */
module Clock {
  import opened Text

  const SecondsPerMinute: int := 60
  const SecondsPerDay: int := 86400

  /** A `datetime.time` value with whole seconds. */
  type TimeOfDay = s: int | 0 <= s < SecondsPerDay

  /** `AVG_TIME`: minutes a departed bus still counts as on the road. */
  const AvgMinutes: int := 20
  const RunningWindow: int := AvgMinutes * SecondsPerMinute

  /** The 30 minutes hard-coded in the suspension and pre-service thresholds
      (independent of `AVG_TIME`). */
  const HalfHour: int := 30 * SecondsPerMinute

  /** `time(23, 59, 59)`, the end-of-day bound of the suspension check. */
  const DayEnd: int := 23 * 3600 + 59 * 60 + 59

  /** `is_running(d)`: the bus that left at `d` is on the road at `q`.
      Both comparisons are strict. */
  predicate IsRunning(d: TimeOfDay, q: TimeOfDay) {
    d < q < d + RunningWindow
  }

  /** The running window is open at both ends: a bus is not running at the
      instant it leaves nor exactly 20 minutes later, and is running at
      every instant in between. */
  lemma RunningWindowIsOpen(d: TimeOfDay, q: TimeOfDay)
    ensures IsRunning(d, q) <==> 0 < q - d < 20 * 60
    ensures q == d ==> !IsRunning(d, q)
    ensures q == d + 20 * 60 ==> !IsRunning(d, q)
  {
  }

  /** Of two departures that have both left, the later one is still running
      whenever the earlier one is. */
  lemma RunningIsMonotone(d1: TimeOfDay, d2: TimeOfDay, q: TimeOfDay)
    requires d1 <= d2 < q
    requires IsRunning(d1, q)
    ensures IsRunning(d2, q)
  {
  }

  function Abs(x: int): (a: nat)
    ensures a == x || a == -x
  {
    if x < 0 then -x else x
  }

  /** `get_time_diff(x, y)`: the distance between two times of the same day
      in whole minutes, truncated; the sign is dropped. */
  function MinutesBetween(x: TimeOfDay, y: TimeOfDay): (m: nat)
    ensures m * 60 <= Abs(x - y) < (m + 1) * 60
    ensures m < 24 * 60
  {
    Abs(x - y) / 60
  }

  /** The distance does not depend on the order of its arguments, and a
      departure k seconds ahead of the query is reported exactly like one
      k seconds behind it. */
  lemma MinutesBetweenSymmetric(x: TimeOfDay, y: TimeOfDay, q: TimeOfDay)
    ensures MinutesBetween(x, y) == MinutesBetween(y, x)
    ensures x - q == q - y ==> MinutesBetween(x, q) == MinutesBetween(y, q)
  {
  }

  /** `get_str_time`: `%H:%M`, both fields zero-padded to two digits. */
  function FormatClock(s: TimeOfDay): (r: string)
    ensures |r| == 5 && r[2] == ':'
    ensures IsDigit(r[0]) && IsDigit(r[1]) && IsDigit(r[3]) && IsDigit(r[4])
    ensures ClockHour(r) == s / 3600 < 24
    ensures ClockMinute(r) == s % 3600 / 60 < 60
    ensures ClockHour(r) * 60 + ClockMinute(r) == s / 60
  {
    var h, m := s / 3600, s % 3600 / 60;
    [Digit(h / 10), Digit(h % 10), ':', Digit(m / 10), Digit(m % 10)]
  }

  function ClockHour(r: string): nat
    requires |r| == 5 && IsDigit(r[0]) && IsDigit(r[1])
  {
    DigitValue(r[0]) * 10 + DigitValue(r[1])
  }

  function ClockMinute(r: string): nat
    requires |r| == 5 && IsDigit(r[3]) && IsDigit(r[4])
  {
    DigitValue(r[3]) * 10 + DigitValue(r[4])
  }

  /** Two times print the same exactly when they fall in the same minute:
      the seconds are dropped and nothing else is. */
  lemma FormatClockSameMinute(a: TimeOfDay, b: TimeOfDay)
    ensures FormatClock(a) == FormatClock(b) <==> a / 60 == b / 60
  {
    var ra, rb := FormatClock(a), FormatClock(b);
    if a / 60 == b / 60 {
      assert a / 3600 == (a / 60) / 60 && b / 3600 == (b / 60) / 60;
      assert a % 3600 / 60 == (a / 60) % 60 && b % 3600 / 60 == (b / 60) % 60;
    }
  }
}
