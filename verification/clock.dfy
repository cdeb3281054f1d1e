/**
 Wall-clock instants as the collector sees them through Python's `datetime`.

 An instant is a count of microseconds since 0001-01-01 00:00:00, the origin of
 Python's proleptic Gregorian calendar. That day is a Monday, so the weekday of
 an instant is its day number modulo 7, numbered as `datetime.weekday()` does
 (0 = Monday … 5 = Saturday, 6 = Sunday).
 */
module Clock {
  import opened Maybe

  const SECOND: nat := 1_000_000
  const MINUTE: nat := 60 * SECOND
  const HOUR: nat := 60 * MINUTE
  const DAY: nat := 24 * HOUR

  type Instant = nat

  function DayOf(t: Instant): nat { t / DAY }

  function TimeOfDay(t: Instant): (r: nat)
    ensures r < DAY
  {
    t % DAY
  }

  function Weekday(t: Instant): (w: nat)
    ensures w < 7
  {
    DayOf(t) % 7
  }

  function Hour(t: Instant): nat { TimeOfDay(t) / HOUR }
  function Minute(t: Instant): nat { (TimeOfDay(t) % HOUR) / MINUTE }
  function Second(t: Instant): nat { (t % MINUTE) / SECOND }
  function Microsecond(t: Instant): nat { t % SECOND }

  /** The instant `tod` microseconds into day `d`. */
  function At(d: nat, tod: nat): Instant
    requires tod < DAY
  {
    d * DAY + tod
  }

  /** Quotient and remainder are determined by any decomposition with a small remainder. */
  lemma DivModUnique(t: int, n: int, q: int, r: int)
    requires n > 0 && 0 <= r < n && t == q * n + r
    ensures t / n == q && t % n == r
  {
    var q0, r0 := t / n, t % n;
    assert q0 * n + r0 == q * n + r;
    if q0 < q {
      var k := q - q0;
      assert q * n == q0 * n + k * n;
      MulAtLeast(k, n);
    } else if q0 > q {
      var k := q0 - q;
      assert q0 * n == q * n + k * n;
      MulAtLeast(k, n);
    }
  }

  lemma MulAtLeast(k: int, n: int)
    requires k >= 1 && n > 0
    ensures k * n >= n
  {
  }

  /** The instant at day `d`, `h`:`m`:`s` and `us` microseconds. */
  function Compose(d: nat, h: nat, m: nat, s: nat, us: nat): Instant
  {
    d * DAY + h * HOUR + m * MINUTE + s * SECOND + us
  }

  /** The fields of a composed instant are the ones it was composed from. */
  lemma ComposeFields(d: nat, h: nat, m: nat, s: nat, us: nat)
    requires h < 24 && m < 60 && s < 60 && us < SECOND
    ensures var t := Compose(d, h, m, s, us);
      DayOf(t) == d && TimeOfDay(t) == h * HOUR + m * MINUTE + s * SECOND + us
      && Hour(t) == h && Minute(t) == m && Second(t) == s && Microsecond(t) == us
  {
    var t := Compose(d, h, m, s, us);
    var inDay := h * HOUR + m * MINUTE + s * SECOND + us;
    var inHour := m * MINUTE + s * SECOND + us;
    var inMinute := s * SECOND + us;
    DivModUnique(t, DAY, d, inDay);
    DivModUnique(inDay, HOUR, h, inHour);
    DivModUnique(inHour, MINUTE, m, inMinute);
    DivModUnique(t, MINUTE, d * 1440 + h * 60 + m, inMinute);
    DivModUnique(inMinute, SECOND, s, us);
    DivModUnique(t, SECOND, d * 86400 + h * 3600 + m * 60 + s, us);
  }

  /** Every instant is composed from its own fields. */
  lemma Decompose(t: Instant)
    ensures Hour(t) < 24 && Minute(t) < 60 && Second(t) < 60 && Microsecond(t) < SECOND
    ensures t == Compose(DayOf(t), Hour(t), Minute(t), Second(t), Microsecond(t))
  {
    var tod := TimeOfDay(t);
    var inHour := tod % HOUR;
    var inMinute := inHour % MINUTE;
    assert tod == Hour(t) * HOUR + inHour;
    assert inHour == Minute(t) * MINUTE + inMinute;
    DivModUnique(t, MINUTE, DayOf(t) * 1440 + Hour(t) * 60 + Minute(t), inMinute);
    assert inMinute == Second(t) * SECOND + inMinute % SECOND;
    DivModUnique(t, SECOND, DayOf(t) * 86400 + Hour(t) * 3600 + Minute(t) * 60 + Second(t), inMinute % SECOND);
  }

  /** An instant built with `At` gives back its day and its time of day. */
  lemma AtParts(d: nat, tod: nat)
    requires tod < DAY
    ensures DayOf(At(d, tod)) == d
    ensures TimeOfDay(At(d, tod)) == tod
    ensures Weekday(At(d, tod)) == d % 7
  {
    DivModUnique(At(d, tod), DAY, d, tod);
  }

  /**
   `round_to_minute` (utils.py): `dt.replace(second=0, microsecond=0)`. Despite
   its docstring it truncates: the result never lies after the input.
   */
  function RoundToMinute(t: Instant): (r: Instant)
    ensures Second(r) == 0 && Microsecond(r) == 0
    ensures DayOf(r) == DayOf(t) && Hour(r) == Hour(t) && Minute(r) == Minute(t)
    ensures r <= t < r + MINUTE
  {
    Decompose(t);
    var r := Compose(DayOf(t), Hour(t), Minute(t), 0, 0);
    ComposeFields(DayOf(t), Hour(t), Minute(t), 0, 0);
    r
  }

  /** Truncation to the minute is rounding down to a whole multiple of MINUTE since the origin. */
  lemma RoundToMinuteIsFloor(t: Instant)
    ensures RoundToMinute(t) == (t / MINUTE) * MINUTE
  {
    var r := RoundToMinute(t);
    Decompose(t);
    var q := DayOf(t) * 1440 + Hour(t) * 60 + Minute(t);
    assert r == q * MINUTE;
    DivModUnique(t, MINUTE, q, t - r);
  }

  /** Truncating twice is truncating once. */
  lemma RoundToMinuteIdempotent(t: Instant)
    ensures RoundToMinute(RoundToMinute(t)) == RoundToMinute(t)
  {
    var r := RoundToMinute(t);
    Decompose(r);
  }

  /** Two decimal digits of `n`, zero-padded as `%H` and `%M` print them. */
  function TwoDigits(n: nat): (s: string)
    requires n < 100
    ensures |s| == 2 && '0' <= s[0] <= '9' && '0' <= s[1] <= '9'
  {
    [(48 + n / 10) as char, (48 + n % 10) as char]
  }

  /** The value of a two-character decimal field, as `int(s[a:b])` reads it. */
  function TwoDigitValue(s: string): (r: Option<nat>)
    requires |s| == 2
    ensures r.Some? ==> r.value < 100
  {
    if '0' <= s[0] <= '9' && '0' <= s[1] <= '9'
    then Some((s[0] as int - 48) * 10 + (s[1] as int - 48))
    else None
  }

  /**
   The row `timestamp` column: `round_to_minute(now).strftime('%H:%M:00')`
   (main.py:49 and main.py:191).
   */
  function MinuteStamp(t: Instant): (s: string)
    ensures |s| == 8 && s[2] == ':' && s[5] == ':' && s[6..] == "00"
  {
    var m := RoundToMinute(t);
    assert Hour(m) < 24 && Minute(m) < 60;
    TwoDigits(Hour(m)) + ":" + TwoDigits(Minute(m)) + ":00"
  }

  /**
   Reads an `HH:MM:SS` clock text as a time of day, the way the market times
   are read: `strptime(…, "%H:%M:%S")` rejects out-of-range fields, and the
   slices `[:2]`, `[3:5]`, `[6:8]` give the hour, minute and second.
   */
  function ParseClock(s: string): (r: Option<nat>)
    ensures r.Some? ==> r.value < DAY
  {
    if |s| != 8 || s[2] != ':' || s[5] != ':' then None
    else
      match (TwoDigitValue(s[..2]), TwoDigitValue(s[3..5]), TwoDigitValue(s[6..8]))
      case (Some(h), Some(m), Some(sec)) =>
        if h < 24 && m < 60 && sec < 60 then Some(h * HOUR + m * MINUTE + sec * SECOND) else None
      case _ => None
  }

  lemma TwoDigitsRoundTrip(n: nat)
    requires n < 100
    ensures TwoDigitValue(TwoDigits(n)) == Some(n)
  {
  }

  /**
   The minute stamp reads back as the time of day of the truncated instant:
   the column records exactly the hour and minute of the clock reading.
   */
  lemma MinuteStampRoundTrip(t: Instant)
    ensures ParseClock(MinuteStamp(t)) == Some(TimeOfDay(RoundToMinute(t)))
  {
    var m := RoundToMinute(t);
    var s := MinuteStamp(t);
    TwoDigitsRoundTrip(Hour(m));
    TwoDigitsRoundTrip(Minute(m));
    assert s[..2] == TwoDigits(Hour(m));
    assert s[3..5] == TwoDigits(Minute(m));
    assert s[6..8] == "00";
    Decompose(m);
    ComposeFields(DayOf(m), Hour(m), Minute(m), 0, 0);
  }
}
