/** Schedules in the words of their owner: what a written time of day means, and when each kind runs. */
module ScheduleTimes {
  import opened Common
  import opened Text
  import opened Calendar
  import opened Cron
  import opened Schedules

  // ----- Times of day as they are written -----

  /** With two digits, as clocks show it. */
  function Padded(n: nat): string { if n < 10 then "0" + Decimal(n) else Decimal(n) }

  /** A number with or without the leading zero. */
  predicate Writes(text: string, n: nat) { text == Padded(n) || text == Decimal(n) }

  lemma WrittenNumber(text: string, n: nat)
    requires Writes(text, n) && n <= MAX_INT64
    ensures ParseInt64(text) == Some(n) && ':' !in text
  {
    ParseDecimal(n);
    if n < 10 && text == Padded(n) {
      var digits := Decimal(n);
      assert |digits| == 1 && text == ['0', digits[0]];
      assert text[..1] == "0" && "0"[..0] == "" && digits[..0] == "";
      assert DigitsValue("0") == 0;
      assert DigitsValue(text) == n;
    }
  }

  lemma WrittenTime(hourText: string, minuteText: string, hour: nat, m: nat)
    requires Writes(hourText, hour) && Writes(minuteText, m) && hour <= MAX_INT64 && m <= MAX_INT64
    ensures Split(hourText + [':'] + minuteText, ':') == [hourText, minuteText]
  {
    hide Writes, ParseInt64;
    WrittenNumber(hourText, hour);
    WrittenNumber(minuteText, m);
    SplitFirst(hourText, ':', minuteText);
    SplitLast(minuteText);
  }

  lemma SplitLast(text: string)
    requires ':' !in text
    ensures Split(text, ':') == [text]
  {}

  /** A written time of day is accepted exactly when there is such a time, and then it is that time. */
  lemma TimeOfDayMeans(hourText: string, minuteText: string, hour: nat, m: nat)
    requires Writes(hourText, hour) && Writes(minuteText, m) && hour <= MAX_INT64 && m <= MAX_INT64
    ensures var text := hourText + [':'] + minuteText;
            && (ValidTimeOfDay(text) <==> hour <= 23 && m <= 59)
            && (ValidTimeOfDay(text) ==> TimeOfDay(text) == (hour * 60 + m) * MINUTE)
  {
    hide Writes, ParseInt64, Split;
    WrittenTime(hourText, minuteText, hour, m);
    WrittenNumber(hourText, hour);
    WrittenNumber(minuteText, m);
  }

  // ----- When each kind runs next -----

  /** The moment is that time of some day on the local clock, to the nanosecond. */
  predicate IsClockTime(t: int, offset: int, day: int, hour: int, m: int) {
    t + offset * SECOND == ((day * 24 + hour) * 60 + m) * MINUTE
  }

  lemma ClockTimeMeans(t: int, offset: int, hour: int, m: int)
    requires 0 <= hour <= 23 && 0 <= m <= 59
    ensures AtTimeOfDay(t, offset, (hour * 60 + m) * MINUTE) <==> exists day :: IsClockTime(t, offset, day, hour, m)
    ensures forall day :: IsClockTime(t, offset, day, hour, m) ==> Local(t, offset) / DAY == day
  {
    var place := (hour * 60 + m) * MINUTE;
    var local := Local(t, offset);
    forall day | IsClockTime(t, offset, day, hour, m) ensures local % DAY == place && local / DAY == day {
      assert local == DAY * day + place;
      SamePlace(place, day);
    }
    if local % DAY == place { assert IsClockTime(t, offset, local / DAY, hour, m); }
  }

  /** The schedule's time of day is written as this hour and minute. */
  ghost predicate RunsAt(s: Schedule, hour: nat, m: nat) {
    exists hourText, minuteText :: Writes(hourText, hour) && Writes(minuteText, m) && s.timeOfDay == hourText + [':'] + minuteText
  }

  lemma RunsAtMeans(s: Schedule, hour: nat, m: nat)
    requires RunsAt(s, hour, m) && hour <= 23 && m <= 59
    ensures ValidTimeOfDay(s.timeOfDay) && TimeOfDay(s.timeOfDay) == (hour * 60 + m) * MINUTE
  {
    hide Writes, ValidTimeOfDay, TimeOfDay;
    var hourText, minuteText :| Writes(hourText, hour) && Writes(minuteText, m) && s.timeOfDay == hourText + [':'] + minuteText;
    TimeOfDayMeans(hourText, minuteText, hour, m);
  }

  /** A daily schedule written "08:30" runs at the first half past eight on the local clock that is later
      than now, and that is within a day. */
  lemma DailyRunsAsWritten(s: Schedule, after: int, offset: int, hour: nat, m: nat)
    requires s.kind.Daily? && RunsAt(s, hour, m) && hour <= 23 && m <= 59
    ensures Valid(s) && ScheduleNext(s, after, offset).Ok?
    ensures var t := ScheduleNext(s, after, offset).value;
            && after < t <= after + DAY && (exists day :: IsClockTime(t, offset, day, hour, m))
            && forall u, day :: after < u < t ==> !IsClockTime(u, offset, day, hour, m)
  {
    hide ValidTimeOfDay, TimeOfDay, RunsAt, DailyNext, AtTimeOfDay, IsClockTime;
    RunsAtMeans(s, hour, m);
    var place := (hour * 60 + m) * MINUTE;
    DailyIsLeast(after, offset, place);
    var t := ScheduleNext(s, after, offset).value;
    ClockTimeMeans(t, offset, hour, m);
    forall u, day | after < u < t ensures !IsClockTime(u, offset, day, hour, m) {
      ClockTimeMeans(u, offset, hour, m);
      assert !AtTimeOfDay(u, offset, place);
    }
  }

  /** A weekly schedule runs at the first such time on its weekday, within a week. */
  lemma WeeklyRunsAsWritten(s: Schedule, after: int, offset: int, hour: nat, m: nat)
    requires s.kind.Weekly? && 0 <= s.weekday <= 6 && RunsAt(s, hour, m) && hour <= 23 && m <= 59
    ensures Valid(s) && ScheduleNext(s, after, offset).Ok?
    ensures var t := ScheduleNext(s, after, offset).value;
            && after < t <= after + 7 * DAY
            && (exists day :: IsClockTime(t, offset, day, hour, m) && Weekday(day) == s.weekday)
            && forall u, day :: after < u < t && Weekday(day) == s.weekday ==> !IsClockTime(u, offset, day, hour, m)
  {
    hide ValidTimeOfDay, TimeOfDay, RunsAt, DailyNext, WeeklyNext, AtWeekTime, IsClockTime, Weekday;
    RunsAtMeans(s, hour, m);
    var place := (hour * 60 + m) * MINUTE;
    WeeklyIsLeast(after, offset, place, s.weekday);
    var t := ScheduleNext(s, after, offset).value;
    WeekTimeMeans(t, offset, hour, m, s.weekday);
    forall u, day | after < u < t && Weekday(day) == s.weekday ensures !IsClockTime(u, offset, day, hour, m) {
      WeekTimeMeans(u, offset, hour, m, s.weekday);
      assert !AtWeekTime(u, offset, place, s.weekday);
    }
  }

  lemma WeekTimeMeans(t: int, offset: int, hour: nat, m: nat, weekday: int)
    requires hour <= 23 && m <= 59
    ensures AtWeekTime(t, offset, (hour * 60 + m) * MINUTE, weekday)
            <==> exists day :: IsClockTime(t, offset, day, hour, m) && Weekday(day) == weekday
  {
    hide AtTimeOfDay, IsClockTime, Weekday, Local;
    ClockTimeMeans(t, offset, hour, m);
  }

  /** The other kinds: once at its time if that is still to come, after an interval, ten seconds after the
      service started, at a cron time, or at no time at all. */
  lemma OthersRunAsAsked(s: Schedule, after: int, offset: int)
    requires Valid(s)
    ensures s.kind.Once? ==>
              (ScheduleNext(s, after, offset).Ok? <==> s.at > after)
              && (s.at > after ==> ScheduleNext(s, after, offset) == Ok(s.at))
    ensures s.kind.Interval? && 1 <= s.everySeconds <= LONGEST ==>
              ScheduleNext(s, after, offset) == Ok(after + s.everySeconds * SECOND)
    ensures s.kind.Boot? ==> ScheduleNext(s, after, offset) == Ok(after + 10_000_000_000)
    ensures s.kind.CronJob? ==>
              (ScheduleNext(s, after, offset).Ok? <==> NextCron(s.cron, after, offset).Ok?)
              && (NextCron(s.cron, after, offset).Ok? ==>
                    ScheduleNext(s, after, offset) == Ok(NextCron(s.cron, after, offset).value))
    ensures s.kind.Network? || s.kind.Charging? ==> ScheduleNext(s, after, offset) == Ok(UNSET)
  {
    hide NextCron, Every, ValidTimeOfDay;
    if s.kind.Interval? && 1 <= s.everySeconds { IntervalsThatFit(s.everySeconds); }
  }

  /** A schedule that was started keeps everything but its next time, and a one-shot is switched off. */
  lemma StartedGoesOn(s: Schedule, now: int, offset: int)
    requires Valid(s)
    ensures var t := Advance(s, now, offset);
            && t == s.(enabled := t.enabled, nextRunAt := t.nextRunAt)
            && (t.enabled <==> s.enabled && !s.kind.Once? && !s.kind.Boot?)
            && (s.kind.Once? || s.kind.Boot? ==> t.nextRunAt == UNSET)
            && (!s.kind.Once? && !s.kind.Boot? ==>
                  t.nextRunAt == if ScheduleNext(s, now, offset).Ok? then ScheduleNext(s, now, offset).value else UNSET)
  {
    hide ScheduleNext, ValidTimeOfDay;
  }
}
