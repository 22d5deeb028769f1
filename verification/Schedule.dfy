/** When a routine is due: the eight-day searches of `Due` in agentwatch/src/state.rs. */
module Schedule {
  import opened Wrappers

  /**
   * A time zone, as the searches use one: the local day of an instant, and the (earliest) instant of a local time on
   * a day, if the clocks do not skip it. Days are numbered, day 0 being a Sunday; instants and times are in minutes.
   */
  datatype Zone = Zone(localDay: int -> int, instant: (int, nat) -> Option<int>)

  /** Local days come in order, and a time on a day falls on that day. */
  ghost predicate IsZone(z: Zone) {
    && (forall t, u :: t <= u ==> z.localDay(t) <= z.localDay(u))
    && (forall day, time :: z.instant(day, time).Some? ==> z.localDay(z.instant(day, time).value) == day)
  }

  /** A scheduled time, daily or on one weekday. */
  datatype Due = Due(weekday: Option<nat>, time: nat)

  predicate Runs(due: Due, day: int) {
    due.weekday.None? || day % 7 == due.weekday.value
  }

  /** The scheduled instant on a local day, if it runs that day and the day has that time. */
  function OnDay(due: Due, z: Zone, day: int): (at: Option<int>) {
    if Runs(due, day) then z.instant(day, due.time) else None
  }

  /** The first hit, from `back` days before today on to seven. */
  function SearchBack(due: Due, z: Zone, now: int, back: nat): (at: Option<int>)
    requires back <= 8
    decreases 8 - back
  {
    if back == 8 then None
    else
      var at := OnDay(due, z, z.localDay(now) - back);
      if at.Some? && at.value <= now then at else SearchBack(due, z, now, back + 1)
  }

  function SearchAhead(due: Due, z: Zone, now: int, ahead: nat): (at: Option<int>)
    requires ahead <= 8
    decreases 8 - ahead
  {
    if ahead == 8 then None
    else
      var at := OnDay(due, z, z.localDay(now) + ahead);
      if at.Some? && at.value > now then at else SearchAhead(due, z, now, ahead + 1)
  }

  function LastBefore(due: Due, z: Zone, now: int): (at: Option<int>) {
    SearchBack(due, z, now, 0)
  }

  function NextAfter(due: Due, z: Zone, now: int): (at: Option<int>) {
    SearchAhead(due, z, now, 0)
  }

  // ---------- what the searches stand for, over all days ----------

  predicate IsPast(due: Due, z: Zone, now: int, day: int) {
    OnDay(due, z, day).Some? && OnDay(due, z, day).value <= now
  }

  predicate IsComing(due: Due, z: Zone, now: int, day: int) {
    OnDay(due, z, day).Some? && OnDay(due, z, day).value > now
  }

  /** The latest scheduled instant at or before `now`, however long ago. */
  ghost predicate IsLast(due: Due, z: Zone, now: int, at: Option<int>) {
    match at
    case None => forall day :: !IsPast(due, z, now, day)
    case Some(t) =>
      && (exists day :: IsPast(due, z, now, day) && OnDay(due, z, day) == Some(t))
      && forall day :: IsPast(due, z, now, day) ==> OnDay(due, z, day).value <= t
  }

  /** The first scheduled instant after `now`, however far off. */
  ghost predicate IsNext(due: Due, z: Zone, now: int, at: Option<int>) {
    match at
    case None => forall day :: !IsComing(due, z, now, day)
    case Some(t) =>
      && (exists day :: IsComing(due, z, now, day) && OnDay(due, z, day) == Some(t))
      && forall day :: IsComing(due, z, now, day) ==> t <= OnDay(due, z, day).value
  }

  // ---------- days and instants ----------

  /** Times on earlier days are earlier, and lie on the same side of `now` as their day does. */
  lemma DaysInOrder(due: Due, z: Zone, now: int, day: int, later: int)
    requires IsZone(z) && OnDay(due, z, day).Some?
    ensures day < z.localDay(now) ==> OnDay(due, z, day).value <= now
    ensures day > z.localDay(now) ==> OnDay(due, z, day).value > now
    ensures OnDay(due, z, later).Some? && day < later ==> OnDay(due, z, day).value < OnDay(due, z, later).value
  {
  }

  /** The one day of the last seven, or of the next seven, on which a weekly routine runs. */
  function RunDayIn(due: Due, first: int): (day: int)
    ensures first <= day < first + 7
    ensures due.weekday.None? || due.weekday.value < 7 ==> Runs(due, day)
  {
    if due.weekday.None? then first else first + (due.weekday.value - first) % 7
  }

  // ---------- the searches ----------

  ghost predicate PastIn(due: Due, z: Zone, now: int, first: int, last: int) {
    exists day :: first <= day <= last && IsPast(due, z, now, day)
  }

  ghost predicate ComingIn(due: Due, z: Zone, now: int, first: int, last: int) {
    exists day :: first <= day <= last && IsComing(due, z, now, day)
  }

  lemma LatestPast(due: Due, z: Zone, now: int, day: int)
    requires IsZone(z) && IsPast(due, z, now, day)
    requires !PastIn(due, z, now, day + 1, z.localDay(now))
    ensures IsLast(due, z, now, OnDay(due, z, day))
  {
    forall other | IsPast(due, z, now, other)
      ensures OnDay(due, z, other).value <= OnDay(due, z, day).value
    {
      DaysInOrder(due, z, now, other, day);
    }
  }

  lemma EarliestComing(due: Due, z: Zone, now: int, day: int)
    requires IsZone(z) && IsComing(due, z, now, day)
    requires !ComingIn(due, z, now, z.localDay(now), day - 1)
    ensures IsNext(due, z, now, OnDay(due, z, day))
  {
    forall other | IsComing(due, z, now, other)
      ensures OnDay(due, z, day).value <= OnDay(due, z, other).value
    {
      DaysInOrder(due, z, now, other, other);
      DaysInOrder(due, z, now, day, other);
    }
  }

  lemma {:induction false} SearchBackExactly(due: Due, z: Zone, now: int, back: nat)
    requires back <= 8 && IsZone(z) && !PastIn(due, z, now, z.localDay(now) - back + 1, z.localDay(now))
    ensures var at := SearchBack(due, z, now, back);
            && (at.Some? <==> PastIn(due, z, now, z.localDay(now) - 7, z.localDay(now)))
            && (at.Some? ==> IsLast(due, z, now, at))
    decreases 8 - back
  {
    hide IsZone, IsPast, IsLast;
    var today := z.localDay(now);
    if back < 8 {
      var day := today - back;
      HitIsPast(due, z, now, day);
      if IsPast(due, z, now, day) {
        LatestPast(due, z, now, day);
      } else {
        SearchBackExactly(due, z, now, back + 1);
      }
    }
  }

  lemma HitIsPast(due: Due, z: Zone, now: int, day: int)
    ensures IsPast(due, z, now, day) <==> OnDay(due, z, day).Some? && OnDay(due, z, day).value <= now
    ensures IsComing(due, z, now, day) <==> OnDay(due, z, day).Some? && OnDay(due, z, day).value > now
  {
  }

  lemma {:induction false} SearchAheadExactly(due: Due, z: Zone, now: int, ahead: nat)
    requires ahead <= 8 && IsZone(z) && !ComingIn(due, z, now, z.localDay(now), z.localDay(now) + ahead - 1)
    ensures var at := SearchAhead(due, z, now, ahead);
            && (at.Some? <==> ComingIn(due, z, now, z.localDay(now), z.localDay(now) + 7))
            && (at.Some? ==> IsNext(due, z, now, at))
    decreases 8 - ahead
  {
    hide IsZone, IsComing, IsNext;
    var today := z.localDay(now);
    if ahead < 8 {
      var day := today + ahead;
      HitIsPast(due, z, now, day);
      if IsComing(due, z, now, day) {
        EarliestComing(due, z, now, day);
      } else {
        SearchAheadExactly(due, z, now, ahead + 1);
      }
    }
  }

  // ---------- main results ----------

  /** The routine runs on one of the seven days from `first` on, and the clocks do not skip its time there. */
  ghost predicate RunsInWeek(due: Due, z: Zone, first: int) {
    exists day :: first <= day < first + 7 && Runs(due, day) && z.instant(day, due.time).Some?
  }

  /** A weekly routine runs on one day of any seven. */
  lemma WeeklyRunsOnce(due: Due, z: Zone, first: int)
    requires due.weekday.Some? && due.weekday.value < 7
    ensures RunsInWeek(due, z, first) <==> z.instant(RunDayIn(due, first), due.time).Some?
  {
    forall day | first <= day < first + 7 && Runs(due, day)
      ensures day == RunDayIn(due, first)
    {
    }
  }

  lemma PastInWeek(due: Due, z: Zone, now: int)
    requires IsZone(z)
    ensures PastIn(due, z, now, z.localDay(now) - 7, z.localDay(now))
       <==> RunsInWeek(due, z, z.localDay(now) - 7) || IsPast(due, z, now, z.localDay(now))
  {
    hide IsZone;
    var today := z.localDay(now);
    if day :| today - 7 <= day < today && Runs(due, day) && z.instant(day, due.time).Some? {
      RunDayHits(due, z, now, day);
    }
  }

  lemma ComingInWeek(due: Due, z: Zone, now: int)
    requires IsZone(z)
    ensures ComingIn(due, z, now, z.localDay(now), z.localDay(now) + 7)
       <==> RunsInWeek(due, z, z.localDay(now) + 1) || IsComing(due, z, now, z.localDay(now))
  {
    hide IsZone;
    var today := z.localDay(now);
    if day :| today < day <= today + 7 && Runs(due, day) && z.instant(day, due.time).Some? {
      RunDayHits(due, z, now, day);
    }
  }

  /**
   * The search gives the latest scheduled instant of all, however long ago, exactly unless there is one, and the
   * clocks skipped every run of the seven days before today, while today's, if any, is still to come.
   */
  lemma LastBeforeIsLast(due: Due, z: Zone, now: int)
    requires IsZone(z)
    ensures IsLast(due, z, now, LastBefore(due, z, now))
       <==> ((exists day :: IsPast(due, z, now, day)) ==>
               RunsInWeek(due, z, z.localDay(now) - 7) || IsPast(due, z, now, z.localDay(now)))
  {
    hide IsZone, IsPast, RunsInWeek;
    SearchBackExactly(due, z, now, 0);
    PastInWeek(due, z, now);
  }

  lemma NextAfterIsNext(due: Due, z: Zone, now: int)
    requires IsZone(z)
    ensures IsNext(due, z, now, NextAfter(due, z, now))
       <==> ((exists day :: IsComing(due, z, now, day)) ==>
               RunsInWeek(due, z, z.localDay(now) + 1) || IsComing(due, z, now, z.localDay(now)))
  {
    hide IsZone, IsComing, RunsInWeek;
    SearchAheadExactly(due, z, now, 0);
    ComingInWeek(due, z, now);
  }

  /** Eight days are enough wherever the clocks do not skip the time on the run day of the week before, or after. */
  lemma EightDaysAreEnough(due: Due, z: Zone, now: int)
    requires IsZone(z) && (due.weekday.None? || due.weekday.value < 7)
    ensures z.instant(RunDayIn(due, z.localDay(now) - 7), due.time).Some? ==>
              LastBefore(due, z, now).Some? && IsLast(due, z, now, LastBefore(due, z, now))
    ensures z.instant(RunDayIn(due, z.localDay(now) + 1), due.time).Some? ==>
              NextAfter(due, z, now).Some? && IsNext(due, z, now, NextAfter(due, z, now))
  {
    hide IsZone, IsLast, IsNext, RunDayIn;
    SearchBackExactly(due, z, now, 0);
    SearchAheadExactly(due, z, now, 0);
    RunDayHits(due, z, now, RunDayIn(due, z.localDay(now) - 7));
    RunDayHits(due, z, now, RunDayIn(due, z.localDay(now) + 1));
  }

  lemma RunDayHits(due: Due, z: Zone, now: int, day: int)
    requires IsZone(z) && Runs(due, day)
    ensures z.instant(day, due.time).Some? && day < z.localDay(now) ==> IsPast(due, z, now, day)
    ensures z.instant(day, due.time).Some? && day > z.localDay(now) ==> IsComing(due, z, now, day)
  {
    if OnDay(due, z, day).Some? {
      DaysInOrder(due, z, now, day, day);
    }
  }

  /** A zone whose clocks go from 01:00 to 02:00 on day 0. */
  function SpringForward(): (z: Zone) {
    Zone(
      t => if t >= 60 then (t + 60) / 1440 else t / 1440,
      (day: int, time: nat) =>
        if (day == 0 && 60 <= time < 120) || time >= 1440 then None
        else if day > 0 || (day == 0 && time >= 120) then Some(day * 1440 + time - 60)
        else Some(day * 1440 + time))
  }

  lemma SpringForwardIsZone()
    ensures IsZone(SpringForward())
  {
  }

  /**
   * Sundays at 01:30: on the Saturday after the clocks change the search finds nothing, though it ran two Sundays ago.
   */
  lemma SkippedRunHidesTheOneBefore()
    ensures var due, z, now := Due(Some(0), 90), SpringForward(), 6 * 1440;
            && IsZone(z) && LastBefore(due, z, now) == None
            && IsPast(due, z, now, -7) && !IsLast(due, z, now, None)
  {
    hide IsZone;
    SpringForwardIsZone();
    var due, z, now := Due(Some(0), 90), SpringForward(), 6 * 1440;
    assert z.localDay(now) == 6;
    SearchBackExactly(due, z, now, 0);
    forall day | -1 <= day <= 6
      ensures !IsPast(due, z, now, day)
    {
      assert day == 0 || !Runs(due, day);
    }
  }
}
