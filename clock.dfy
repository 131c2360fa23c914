/**
 * `DateTime` as its tick count: 100-nanosecond intervals since 0001-01-01 00:00, between 0 and
 * `DateTime.MaxValue.Ticks`. Readings of the current time are passed in by the caller.
 */
module Clock {

  const TICKS_PER_MINUTE: int := 600_000_000
  const TICKS_PER_HOUR: int := 60 * TICKS_PER_MINUTE
  const TICKS_PER_DAY: int := 24 * TICKS_PER_HOUR
  /** `DateTime.MaxValue.Ticks` (9999-12-31 23:59:59.9999999). */
  const MAX_TICKS: int := 3155378975999999999

  type DateTime = t: int | 0 <= t <= 3155378975999999999

  /** A `TimeSpan`, in ticks; it may be negative. */
  type TimeSpan = int

  /** `DateTime.Date`: midnight of the same day. */
  function Date(t: DateTime): (d: DateTime)
    ensures d <= t < d + TICKS_PER_DAY && d % TICKS_PER_DAY == 0
  {
    t - t % TICKS_PER_DAY
  }

  /** `DateTime.Hour`, 0..23. */
  function Hour(t: DateTime): (h: int)
    ensures 0 <= h < 24
  {
    (t / TICKS_PER_HOUR) % 24
  }

  /** `DateTime.Minute`, 0..59. */
  function Minute(t: DateTime): (m: int)
    ensures 0 <= m < 60
  {
    (t / TICKS_PER_MINUTE) % 60
  }

  /** The minute of the day, 0..1439, is the hour and the minute together. */
  function MinuteOfDay(t: DateTime): (m: int)
    ensures 0 <= m < 24 * 60
    ensures m == Hour(t) * 60 + Minute(t)
  {
    HoursFromMinutes(t);
    MinuteOfDayParts(t / TICKS_PER_MINUTE);
    (t / TICKS_PER_MINUTE) % (24 * 60)
  }

  /** Whole hours are whole minutes divided by 60. */
  lemma HoursFromMinutes(t: DateTime)
    ensures t / TICKS_PER_HOUR == (t / TICKS_PER_MINUTE) / 60
  {
    var minutes := t / TICKS_PER_MINUTE;
    var rest := t % TICKS_PER_MINUTE;
    var h := minutes / 60;
    var k := minutes % 60;
    assert t == TICKS_PER_HOUR * h + (TICKS_PER_MINUTE * k + rest);
    assert 0 <= TICKS_PER_MINUTE * k + rest < TICKS_PER_HOUR;
  }

  /** A count of minutes, reduced to a day, splits into hour of the day and minute of the hour. */
  lemma MinuteOfDayParts(minutes: nat)
    ensures minutes % (24 * 60) == ((minutes / 60) % 24) * 60 + minutes % 60
  {
    var h := minutes / 60;
    var k := minutes % 60;
    var i := h % 24;
    assert minutes == (24 * 60) * (h / 24) + (60 * i + k);
    assert 0 <= 60 * i + k < 24 * 60;
  }
}
