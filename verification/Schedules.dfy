/** Scheduled jobs: when each runs next, and what a tick of the scheduler does. Times are nanoseconds
    since the start of year 1, where 0 is the unset time; the zone has one fixed offset, in seconds. */
module Schedules {
  import opened Common
  import opened Text
  import opened Calendar
  import opened Cron

  const DAY := 1440 * MINUTE
  const UNSET := 0

  datatype Kind = Once | Interval | Daily | Weekly | CronJob | Boot | Network | Charging | Unknown

  datatype Schedule = Schedule(kind: Kind, enabled: bool, at: int, everySeconds: int, timeOfDay: string,
                               weekday: int, cron: string, nextRunAt: int)

  datatype NextError = Past | UnknownKind | NoCronTime(cause: CronError)

  // ----- The next run -----

  function HourOf(s: string): Option<int> { ParseInt64(Split(s, ':')[0]) }

  function MinuteOf(s: string): Option<int>
    requires |Split(s, ':')| == 2
  {
    ParseInt64(Split(s, ':')[1])
  }

  /** validTimeOfDay. */
  predicate ValidTimeOfDay(s: string) {
    && |Split(s, ':')| == 2
    && HourOf(s).Some? && MinuteOf(s).Some?
    && 0 <= HourOf(s).value <= 23 && 0 <= MinuteOf(s).value <= 59
  }

  function ClockTime(hour: int, minute: int): (t: int)
    requires 0 <= hour <= 23 && 0 <= minute <= 59
    ensures 0 <= t < DAY
  {
    (hour * 60 + minute) * MINUTE
  }

  function TimeOfDay(s: string): (t: int)
    requires ValidTimeOfDay(s)
    ensures 0 <= t < DAY
  {
    ClockTime(HourOf(s).value, MinuteOf(s).value)
  }

  /** What creating a schedule checks about the fields its kind uses. */
  predicate Valid(s: Schedule) {
    && (s.kind.Daily? || s.kind.Weekly? ==> ValidTimeOfDay(s.timeOfDay))
    && (s.kind.Weekly? ==> 0 <= s.weekday <= 6)
  }

  function Local(t: int, offset: int): int { t + offset * SECOND }

  /** Today at the given time, or tomorrow when that is not after now. */
  function DailyNext(after: int, offset: int, timeOfDay: int): int {
    var local := Local(after, offset);
    var today := local - local % DAY + timeOfDay - offset * SECOND;
    if today > after then today else today + DAY
  }

  function WeekdayAt(t: int, offset: int): int { Weekday(Local(t, offset) / DAY) }

  /** Days still to go until the weekday. */
  function DaysUntil(t: int, offset: int, weekday: int): (n: int)
    ensures 0 <= n < 7
  {
    (weekday - WeekdayAt(t, offset)) % 7
  }

  /** Day by day until the weekday fits. */
  function WeeklyNext(t: int, offset: int, weekday: int): int
    requires 0 <= weekday <= 6
    decreases DaysUntil(t, offset, weekday)
  {
    if WeekdayAt(t, offset) == weekday then t
    else
      OneDayOn(t, offset, weekday);
      WeeklyNext(t + DAY, offset, weekday)
  }

  lemma OneDayOn(t: int, offset: int, weekday: int)
    requires 0 <= weekday <= 6 && WeekdayAt(t, offset) != weekday
    ensures DaysUntil(t + DAY, offset, weekday) == DaysUntil(t, offset, weekday) - 1
  {
    WeekdayGoesOn(t, offset);
    hide WeekdayAt;
  }

  lemma WeekdayGoesOn(t: int, offset: int)
    ensures 0 <= WeekdayAt(t, offset) <= 6
    ensures WeekdayAt(t + DAY, offset) == if WeekdayAt(t, offset) == 6 then 0 else WeekdayAt(t, offset) + 1
  {
    assert Local(t + DAY, offset) / DAY == Local(t, offset) / DAY + 1;
    hide Local;
  }

  /** The duration of an interval in the source's 64-bit nanoseconds. */
  function Every(seconds: int): int { Wrap64(seconds * SECOND) }

  /** scheduleNext. */
  function ScheduleNext(s: Schedule, after: int, offset: int): Result<int, NextError>
    requires Valid(s)
  {
    match s.kind
    case Once => if s.at > after then Ok(s.at) else Err(Past)
    case Interval => Ok(after + Every(s.everySeconds))
    case Daily => Ok(DailyNext(after, offset, TimeOfDay(s.timeOfDay)))
    case Weekly => Ok(WeeklyNext(DailyNext(after, offset, TimeOfDay(s.timeOfDay)), offset, s.weekday))
    case CronJob =>
      (match NextCron(s.cron, after, offset)
       case Ok(t) => Ok(t)
       case Err(e) => Err(NoCronTime(e)))
    case Boot => Ok(after + 10 * SECOND)
    case Network => Ok(UNSET)
    case Charging => Ok(UNSET)
    case Unknown => Err(UnknownKind)
  }

  // ----- Daily and weekly results are the least matches -----

  predicate AtTimeOfDay(t: int, offset: int, timeOfDay: int) { Local(t, offset) % DAY == timeOfDay }

  lemma DailyIsLeast(after: int, offset: int, timeOfDay: int)
    requires 0 <= timeOfDay < DAY
    ensures var t := DailyNext(after, offset, timeOfDay);
            && after < t <= after + DAY && AtTimeOfDay(t, offset, timeOfDay)
            && forall u :: after < u < t ==> !AtTimeOfDay(u, offset, timeOfDay)
  {
    var t := DailyNext(after, offset, timeOfDay);
    var local := Local(after, offset);
    var midnight := DAY * (local / DAY);
    assert Local(t, offset) == midnight + timeOfDay || Local(t, offset) == midnight + timeOfDay + DAY;
    SamePlace(timeOfDay, local / DAY);
    SamePlace(timeOfDay, local / DAY + 1);
    forall u | after < u < t ensures !AtTimeOfDay(u, offset, timeOfDay) {
      if AtTimeOfDay(u, offset, timeOfDay) {
        NextPlace(Local(u, offset), Local(t, offset), timeOfDay);
      }
    }
  }

  lemma SamePlace(place: int, days: int)
    requires 0 <= place < DAY
    ensures (DAY * days + place) % DAY == place && (DAY * days + place) / DAY == days
  {}

  /** Two moments at the same time of day are whole days apart. */
  lemma NextPlace(u: int, t: int, place: int)
    requires u % DAY == place && t % DAY == place && u < t
    ensures u <= t - DAY && u / DAY < t / DAY
  {
    assert u == DAY * (u / DAY) + place && t == DAY * (t / DAY) + place;
  }

  predicate AtWeekTime(t: int, offset: int, timeOfDay: int, weekday: int) {
    AtTimeOfDay(t, offset, timeOfDay) && WeekdayAt(t, offset) == weekday
  }

  lemma {:induction false} WeeklyWalks(t: int, offset: int, weekday: int)
    requires 0 <= weekday <= 6
    ensures var r := WeeklyNext(t, offset, weekday);
            r == t + DAY * DaysUntil(t, offset, weekday) && WeekdayAt(r, offset) == weekday
    decreases DaysUntil(t, offset, weekday)
  {
    if WeekdayAt(t, offset) != weekday {
      OneDayOn(t, offset, weekday);
      WeeklyWalks(t + DAY, offset, weekday);
    } else {
      assert (weekday - WeekdayAt(t, offset)) % 7 == 0;
    }
  }

  lemma WeekdayMoves(t: int, offset: int, days: int)
    ensures WeekdayAt(t + DAY * days, offset) == (WeekdayAt(t, offset) + days) % 7
    ensures Local(t + DAY * days, offset) % DAY == Local(t, offset) % DAY
  {
    var local := Local(t, offset);
    SamePlace(local % DAY, local / DAY + days);
    assert Local(t + DAY * days, offset) == DAY * (local / DAY + days) + local % DAY;
    WeekdayOn(local / DAY, days);
  }

  lemma WeekdayOn(day: int, days: int)
    ensures Weekday(day + days) == (Weekday(day) + days) % 7
  {}

  lemma WeeklyIsLeast(after: int, offset: int, timeOfDay: int, weekday: int)
    requires 0 <= timeOfDay < DAY && 0 <= weekday <= 6
    ensures var t := WeeklyNext(DailyNext(after, offset, timeOfDay), offset, weekday);
            && after < t <= after + 7 * DAY && AtWeekTime(t, offset, timeOfDay, weekday)
            && forall u :: after < u < t ==> !AtWeekTime(u, offset, timeOfDay, weekday)
  {
    hide WeeklyNext, DailyNext, DaysUntil, WeekdayAt, Local;
    var first := DailyNext(after, offset, timeOfDay);
    DailyIsLeast(after, offset, timeOfDay);
    WeeklyWalks(first, offset, weekday);
    var n := DaysUntil(first, offset, weekday);
    WeekdayMoves(first, offset, n);
    var t := WeeklyNext(first, offset, weekday);
    assert t <= first + 6 * DAY;
    forall u | after < u < t ensures !AtWeekTime(u, offset, timeOfDay, weekday) {
      if AtTimeOfDay(u, offset, timeOfDay) {
        assert u >= first;
        WholeDays(first, u, offset, timeOfDay);
        var k := (u - first) / DAY;
        assert u == first + DAY * k && 0 <= k < n;
        WeekdayMoves(first, offset, k);
        NotYet(first, offset, weekday, k);
      }
    }
  }

  lemma WholeDays(t: int, u: int, offset: int, place: int)
    requires AtTimeOfDay(t, offset, place) && AtTimeOfDay(u, offset, place)
    ensures (u - t) % DAY == 0
  {
    var a, b := Local(t, offset), Local(u, offset);
    assert u - t == b - a == DAY * (b / DAY - a / DAY);
    SamePlace(0, b / DAY - a / DAY);
  }

  lemma NotYet(t: int, offset: int, weekday: int, k: int)
    requires 0 <= weekday <= 6 && 0 <= k < DaysUntil(t, offset, weekday)
    ensures (WeekdayAt(t, offset) + k) % 7 != weekday
  {}

  /** scheduleNext's answer lies after the given time, except for event kinds and for intervals
      whose length does not fit 64-bit nanoseconds. */
  lemma NextIsLater(s: Schedule, after: int, offset: int)
    requires Valid(s) && ScheduleNext(s, after, offset).Ok? && !s.kind.Network? && !s.kind.Charging?
    ensures ScheduleNext(s, after, offset).value > after <==> !s.kind.Interval? || Every(s.everySeconds) > 0
  {
    hide NextCron, DailyNext, WeeklyNext, TimeOfDay, ValidTimeOfDay, Every;
    match s.kind {
      case Daily => DailyIsLeast(after, offset, TimeOfDay(s.timeOfDay));
      case Weekly => WeeklyIsLeast(after, offset, TimeOfDay(s.timeOfDay), s.weekday);
      case CronJob => CronIsLater(s.cron, after, offset);
      case _ =>
    }
  }

  lemma CronIsLater(expression: string, after: int, offset: int)
    requires NextCron(expression, after, offset).Ok?
    ensures NextCron(expression, after, offset).value > after
  {
    hide Check, Horizon;
    var fields := Words(expression, "");
    SearchStopsAtTheFirst(fields, offset, FirstMinute(after), Horizon(FirstMinute(after), offset));
  }

  // ----- One tick -----

  predicate Due(s: Schedule, now: int) { s.enabled && s.nextRunAt != UNSET && s.nextRunAt <= now }

  /** A due schedule after it was started. */
  function Advance(s: Schedule, now: int, offset: int): Schedule
    requires Valid(s)
  {
    if s.kind.Once? || s.kind.Boot? then s.(enabled := false, nextRunAt := UNSET)
    else
      match ScheduleNext(s, now, offset)
      case Ok(t) => s.(nextRunAt := t)
      case Err(_) => s.(nextRunAt := UNSET)
  }

  type Table = map<string, Schedule>

  predicate AllValid(table: Table) { forall id :: id in table ==> Valid(table[id]) }

  function Ticked(table: Table, now: int, offset: int): Table
    requires AllValid(table)
  {
    map id | id in table :: if Due(table[id], now) then Advance(table[id], now, offset) else table[id]
  }

  /** An interval whose 64-bit length is not positive. */
  predicate Overflows(s: Schedule) { s.kind.Interval? && Every(s.everySeconds) <= 0 }

  lemma AdvancedIsDueOnlyByOverflow(s: Schedule, now: int, offset: int)
    requires Valid(s) && Due(s, now)
    ensures Due(Advance(s, now, offset), now) <==> Overflows(s) && now + Every(s.everySeconds) != UNSET
  {
    hide ScheduleNext, Every, ValidTimeOfDay;
    if !s.kind.Once? && !s.kind.Boot? && ScheduleNext(s, now, offset).Ok? {
      if s.kind.Network? || s.kind.Charging? {
        EventsHaveNoTime(s, now, offset);
      } else {
        NextIsLater(s, now, offset);
      }
    }
    IntervalNext(s, now, offset);
  }

  lemma EventsHaveNoTime(s: Schedule, now: int, offset: int)
    requires Valid(s) && (s.kind.Network? || s.kind.Charging?)
    ensures ScheduleNext(s, now, offset) == Ok(UNSET)
  {}

  lemma IntervalNext(s: Schedule, now: int, offset: int)
    requires Valid(s)
    ensures s.kind.Interval? ==> ScheduleNext(s, now, offset) == Ok(now + Every(s.everySeconds))
  {}

  /** After a tick a schedule is still due exactly when it was due and is an interval that overflows. */
  lemma TickLeavesOnlyOverflowsDue(table: Table, now: int, offset: int, id: string)
    requires AllValid(table) && id in table
    ensures Due(Ticked(table, now, offset)[id], now)
            <==> Due(table[id], now) && Overflows(table[id]) && now + Every(table[id].everySeconds) != UNSET
  {
    hide Advance, Valid;
    if Due(table[id], now) { AdvancedIsDueOnlyByOverflow(table[id], now, offset); }
  }

  /** A second tick at the same time starts nothing. */
  lemma TickSettles(table: Table, now: int, offset: int)
    requires AllValid(table) && forall id :: id in table ==> !Overflows(table[id])
    ensures AllValid(Ticked(table, now, offset))
    ensures Ticked(Ticked(table, now, offset), now, offset) == Ticked(table, now, offset)
    ensures forall id :: id in table ==> !Due(Ticked(table, now, offset)[id], now)
  {
    hide Advance, Due;
    var after := Ticked(table, now, offset);
    forall id | id in table ensures Valid(after[id]) && !Due(after[id], now) {
      TickLeavesOnlyOverflowsDue(table, now, offset, id);
      AdvanceKeepsValid(table[id], now, offset);
    }
  }

  lemma AdvanceKeepsValid(s: Schedule, now: int, offset: int)
    requires Valid(s)
    ensures Valid(Advance(s, now, offset))
  {
    hide ScheduleNext, ValidTimeOfDay;
  }

  /** The longest interval whose length fits 64-bit nanoseconds: 292 years. */
  const LONGEST := 9223372036

  /** An interval has the length that was asked for exactly up to 292 years. Beyond that the 64-bit
      length is always too short: negative, zero or positive. */
  lemma IntervalsThatFit(seconds: int)
    requires 1 <= seconds
    ensures Every(seconds) == seconds * SECOND <==> seconds <= LONGEST
    ensures Every(seconds) < seconds * SECOND <==> seconds > LONGEST
  {}

  /** Both ways to be too short: the first length that does not fit is negative, and a later one is less
      than a third of a second. */
  lemma WrappedIntervals()
    ensures Every(9223372037) < 0 && Every(18446744074) == 290448384 < SECOND / 3
  {}
}
