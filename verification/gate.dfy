/**
 The market-hours gate of the collection loop (main.py:262-340): whether to
 collect now or how long to sleep, and when the next cycle starts.
 */
module TimeGate {
  import opened Maybe
  import opened Clock
  import opened Config

  /** A trading instant: a weekday, with the time of day between open and close, both inclusive. */
  predicate InSession(t: Instant)
  {
    Weekday(t) < 5 && MARKET_START <= TimeOfDay(t) <= MARKET_END
  }

  /** No instant of the half-open interval [from, to) is a trading instant. */
  ghost predicate ClosedThroughout(from: Instant, to: Instant)
  {
    forall u: Instant :: from <= u < to ==> !InSession(u)
  }

  /** What one evaluation of the gate decides. The three waits name the branch taken. */
  datatype Decision =
    | WeekendWait(until: Instant)
    | PreOpenWait(until: Instant)
    | AfterCloseWait(until: Instant)
    | Collect

  /**
   One pass of the loop's checks, in the source's order: weekend, before open,
   after close, otherwise collect. Every wait ends at MARKET_START of today or
   of the next calendar day, never later, and skips no trading instant.
   */
  function Gate(t: Instant): (d: Decision)
    ensures d.Collect? <==> InSession(t)
    ensures !d.Collect? ==> t < d.until && TimeOfDay(d.until) == MARKET_START && ClosedThroughout(t, d.until)
    ensures d.WeekendWait? <==> Weekday(t) >= 5
    ensures d.WeekendWait? || d.AfterCloseWait? ==> DayOf(d.until) == DayOf(t) + 1
    ensures d.PreOpenWait? ==> DayOf(d.until) == DayOf(t)
  {
    var day := DayOf(t);
    Decompose(t);
    AtParts(day, MARKET_START);
    AtParts(day + 1, MARKET_START);
    if Weekday(t) >= 5 then
      GateWaitIsClosed(t, At(day + 1, MARKET_START));
      WeekendWait(At(day + 1, MARKET_START))
    else if TimeOfDay(t) < MARKET_START then
      GateWaitIsClosed(t, At(day, MARKET_START));
      PreOpenWait(At(day, MARKET_START))
    else if TimeOfDay(t) > MARKET_END then
      GateWaitIsClosed(t, At(day + 1, MARKET_START));
      AfterCloseWait(At(day + 1, MARKET_START))
    else
      Collect
  }

  /** An instant inside day `d` has that day and its offset into it. */
  lemma WithinDay(u: Instant, d: nat)
    requires d * DAY <= u < d * DAY + DAY
    ensures DayOf(u) == d && TimeOfDay(u) == u - d * DAY
  {
    DivModUnique(u, DAY, d, u - d * DAY);
  }

  /** The waits the gate chooses cross no trading instant. */
  lemma GateWaitIsClosed(t: Instant, until: Instant)
    requires
      || (Weekday(t) >= 5 && until == At(DayOf(t) + 1, MARKET_START))
      || (TimeOfDay(t) < MARKET_START && until == At(DayOf(t), MARKET_START))
      || (TimeOfDay(t) > MARKET_END && until == At(DayOf(t) + 1, MARKET_START))
    ensures ClosedThroughout(t, until)
  {
    var d := DayOf(t);
    Decompose(t);
    forall u: Instant | t <= u < until
      ensures !InSession(u)
    {
      if u < d * DAY + DAY {
        WithinDay(u, d);
      } else {
        WithinDay(u, d + 1);
      }
    }
  }

  /** Closed stretches that meet form one closed stretch. */
  lemma ClosedJoin(a: Instant, b: Instant, c: Instant)
    requires a <= b <= c && ClosedThroughout(a, b) && ClosedThroughout(b, c)
    ensures ClosedThroughout(a, c)
  {
  }

  /** At the opening instant of a day the gate collects on a weekday and waits for the next day otherwise. */
  lemma GateAtOpening(d: nat)
    ensures Gate(At(d, MARKET_START)) ==
      if d % 7 < 5 then Collect else WeekendWait(At(d + 1, MARKET_START))
  {
    AtParts(d, MARKET_START);
  }

  /**
   A Saturday evaluation sleeps until Sunday's opening time, not Monday's; only
   the next evaluation, on Sunday, sleeps on to Monday, where the gate collects.
   */
  lemma SaturdayGoesToSunday(t: Instant)
    requires Weekday(t) == 5
    ensures Gate(t) == WeekendWait(At(DayOf(t) + 1, MARKET_START))
    ensures Weekday(Gate(t).until) == 6
    ensures Gate(Gate(t).until) == WeekendWait(At(DayOf(t) + 2, MARKET_START))
    ensures Weekday(At(DayOf(t) + 2, MARKET_START)) == 0
    ensures Gate(At(DayOf(t) + 2, MARKET_START)) == Collect
  {
    var d := DayOf(t);
    AtParts(d + 1, MARKET_START);
    AtParts(d + 2, MARKET_START);
    GateAtOpening(d + 1);
    GateAtOpening(d + 2);
  }

  /**
   The loop re-evaluating the gate after each sleep, with every sleep waking
   exactly at its target: the instant the next cycle starts, if that takes at
   most `waits` sleeps.
   */
  function Settle(t: Instant, waits: nat): (r: Option<Instant>)
    ensures r.Some? ==> t <= r.value && InSession(r.value) && ClosedThroughout(t, r.value)
    decreases waits
  {
    var d := Gate(t);
    if d.Collect? then Some(t)
    else if waits == 0 then None
    else
      var r := Settle(d.until, waits - 1);
      if r.Some? then ClosedJoin(t, d.until, r.value); r else r
  }

  /**
   Three sleeps always suffice: from any instant the loop reaches the first
   trading instant at or after it, and that instant is a weekday's opening
   unless the loop was already inside a session.
   */
  lemma {:induction false} SettleWithinThreeWaits(t: Instant)
    ensures Settle(t, 3).Some?
    ensures Settle(t, 3).value == t || TimeOfDay(Settle(t, 3).value) == MARKET_START
  {
    var d := Gate(t);
    if !d.Collect? {
      var u1 := d.until;
      assert u1 == At(DayOf(u1), MARKET_START);
      SettleFromOpening(DayOf(u1), 2);
      assert Settle(t, 3) == Settle(u1, 2);
    }
  }

  /**
   From a day's opening the loop collects at once on a weekday, and otherwise
   reaches Monday's opening with one sleep per weekend day left.
   */
  lemma {:induction false} SettleFromOpening(d: nat, waits: nat)
    requires d % 7 < 5 || waits >= 7 - d % 7
    ensures Settle(At(d, MARKET_START), waits).Some?
    ensures TimeOfDay(Settle(At(d, MARKET_START), waits).value) == MARKET_START
    decreases waits
  {
    GateAtOpening(d);
    AtParts(d, MARKET_START);
    if d % 7 >= 5 {
      SettleFromOpening(d + 1, waits - 1);
    }
  }

  /** Friday after the close takes all three sleeps: Saturday, Sunday, then Monday's opening. */
  lemma FridayEveningToMonday(t: Instant)
    requires Weekday(t) == 4 && TimeOfDay(t) > MARKET_END
    ensures Settle(t, 2) == None
    ensures Settle(t, 3) == Some(At(DayOf(t) + 3, MARKET_START))
    ensures Weekday(At(DayOf(t) + 3, MARKET_START)) == 0
  {
    var d := DayOf(t);
    var u1, u2, u3 := At(d + 1, MARKET_START), At(d + 2, MARKET_START), At(d + 3, MARKET_START);
    assert Gate(t).until == u1;
    DivModUnique(d + 1, 7, d / 7, 5);
    DivModUnique(d + 2, 7, d / 7, 6);
    DivModUnique(d + 3, 7, d / 7 + 1, 0);
    GateAtOpening(d + 1);
    GateAtOpening(d + 2);
    GateAtOpening(d + 3);
    assert Settle(u2, 0) == None;
    assert Settle(u3, 0) == Some(u3);
    assert Settle(u2, 1) == Settle(u3, 0);
    assert Settle(u1, 1) == Settle(u2, 0);
    assert Settle(u1, 2) == Settle(u2, 1);
    AtParts(d + 3, MARKET_START);
  }

  /**
   `datetime.replace(second=START_TIME_OFFSET, microsecond=0)` applied to
   `base + advance`: the wake falls on second START_TIME_OFFSET of the minute
   that `base + advance` lies in.
   */
  function AlignedWake(base: Instant, advance: nat): (w: Instant)
    ensures Second(w) == START_TIME_OFFSET && Microsecond(w) == 0
    ensures DayOf(w) == DayOf(base + advance) && Hour(w) == Hour(base + advance)
    ensures Minute(w) == Minute(base + advance)
    ensures w <= base + advance + START_TIME_OFFSET * SECOND < w + MINUTE
  {
    var m := RoundToMinute(base + advance);
    Decompose(m);
    ComposeFields(DayOf(m), Hour(m), Minute(m), START_TIME_OFFSET, 0);
    m + START_TIME_OFFSET * SECOND
  }

  /** The first cycle's start (main.py:262-264): the offset second of the minute after start-up. */
  function InitialWake(now: Instant): (w: Instant)
    ensures Second(w) == START_TIME_OFFSET && Microsecond(w) == 0
    ensures now < w && RoundToMinute(w) == RoundToMinute(now + MINUTE)
  {
    AlignedWake(now, MINUTE)
  }

  /** The next cycle's start (main.py:334-335): the offset second of the minute COLLECTION_INTERVAL after the cycle ended. */
  function NextCycleWake(cycleEnd: Instant): (w: Instant)
    ensures Second(w) == START_TIME_OFFSET && Microsecond(w) == 0
    ensures cycleEnd < w && RoundToMinute(w) == RoundToMinute(cycleEnd + COLLECTION_INTERVAL * SECOND)
  {
    AlignedWake(cycleEnd, COLLECTION_INTERVAL * SECOND)
  }

  /** The loop sleeps from `from` to `wake` only when the wait is positive (main.py:265 and main.py:338). */
  function PauseUntil(from: Instant, wake: Instant): (p: Option<nat>)
    ensures p.Some? <==> from < wake
    ensures p.Some? ==> p.value > 0 && from + p.value == wake
  {
    if wake > from then Some(wake - from) else None
  }

  /** With a one-minute interval the start-up alignment and the between-cycle alignment coincide. */
  lemma InitialWakeMatchesCycle(t: Instant)
    ensures InitialWake(t) == NextCycleWake(t)
  {
  }

  /**
   After a cycle the loop always sleeps, for more than START_TIME_OFFSET
   seconds and at most a minute more than that, however long the cycle ran:
   the wait is measured from the cycle's end, so an overrun cannot make it
   non-positive. The next cycle starts in the minute after the one the cycle
   ended in.
   */
  lemma CycleAlwaysPauses(cycleEnd: Instant)
    ensures PauseUntil(cycleEnd, NextCycleWake(cycleEnd)).Some?
    ensures START_TIME_OFFSET * SECOND < PauseUntil(cycleEnd, NextCycleWake(cycleEnd)).value
    ensures PauseUntil(cycleEnd, NextCycleWake(cycleEnd)).value <= MINUTE + START_TIME_OFFSET * SECOND
    ensures RoundToMinute(NextCycleWake(cycleEnd)) == RoundToMinute(cycleEnd) + MINUTE
  {
    var q := cycleEnd / MINUTE;
    var w := NextCycleWake(cycleEnd);
    RoundToMinuteIsFloor(cycleEnd);
    RoundToMinuteIsFloor(cycleEnd + MINUTE);
    DivModUnique(cycleEnd + MINUTE, MINUTE, q + 1, cycleEnd % MINUTE);
    assert w == (q + 1) * MINUTE + START_TIME_OFFSET * SECOND;
    RoundToMinuteIsFloor(w);
    DivModUnique(w, MINUTE, q + 1, START_TIME_OFFSET * SECOND);
  }
}
