/** The scheduler's table of jobs, changed in place by every tick. */
module Scheduler {
  import opened Common
  import opened Cron
  import opened Schedules

  predicate Distinct(ids: seq<string>) { forall i, j :: 0 <= i < j < |ids| ==> ids[i] != ids[j] }

  /** The ids of the due schedules, each of them once. */
  ghost predicate DueList(ids: seq<string>, table: Table, now: int) {
    Distinct(ids) && forall id :: id in ids <==> id in table && Due(table[id], now)
  }

  /** What is on disk after saving the listed schedules, some of which may fail. */
  function Saved(disk: Table, table: Table, ids: seq<string>, saves: string -> bool): Table
    requires forall id :: id in ids ==> id in table
    decreases |ids|
  {
    if ids == [] then disk
    else Saved(if saves(ids[0]) then disk[ids[0] := table[ids[0]]] else disk, table, ids[1..], saves)
  }

  lemma {:induction false} SavedContents(disk: Table, table: Table, ids: seq<string>, saves: string -> bool, id: string)
    requires forall id :: id in ids ==> id in table
    ensures id in ids && saves(id) ==> id in Saved(disk, table, ids, saves) && Saved(disk, table, ids, saves)[id] == table[id]
    ensures !(id in ids && saves(id)) ==>
              && (id in Saved(disk, table, ids, saves) <==> id in disk)
              && (id in disk ==> Saved(disk, table, ids, saves)[id] == disk[id])
    decreases |ids|
  {
    if ids != [] {
      var next := if saves(ids[0]) then disk[ids[0] := table[ids[0]]] else disk;
      SavedContents(next, table, ids[1..], saves, id);
    }
  }

  /** The table while the entries in `rest` are still to be looked at. */
  ghost predicate Halfway(before: Table, table: Table, rest: set<string>, now: int, offset: int)
    requires AllValid(before)
  {
    && table.Keys == before.Keys && rest <= before.Keys
    && forall id :: id in before ==>
         table[id] == if id in rest then before[id] else Ticked(before, now, offset)[id]
  }

  ghost predicate Listed(before: Table, rest: set<string>, due: seq<string>, now: int) {
    Distinct(due) && forall id :: id in due <==> id in before && id !in rest && Due(before[id], now)
  }

  lemma OneMoreListed(before: Table, rest: set<string>, due: seq<string>, now: int, id: string)
    requires Listed(before, rest, due, now) && id in rest && id in before
    ensures Due(before[id], now) ==> Listed(before, rest - {id}, due + [id], now)
    ensures !Due(before[id], now) ==> Listed(before, rest - {id}, due, now)
  {
    hide Due;
  }

  lemma OneMoreTicked(before: Table, table: Table, rest: set<string>, now: int, offset: int, id: string)
    requires AllValid(before) && Halfway(before, table, rest, now, offset) && id in rest
    ensures id in before && id in table && table[id] == before[id] && Valid(before[id])
    ensures Halfway(before, if Due(before[id], now) then table[id := Advance(before[id], now, offset)] else table,
                    rest - {id}, now, offset)
  {
    hide Due, Advance, Valid;
  }

  class Scheduler {
    var schedules: Table
    var disk: Table
    var launched: seq<string>

    constructor ()
      ensures schedules == map[] && disk == map[] && launched == []
    {
      schedules, disk, launched := map[], map[], [];
    }

    /** triggerDueSchedules: advance every due schedule under the lock, then save and start them. */
    method TriggerDueSchedules(now: int, offset: int, saves: string -> bool)
      requires AllValid(schedules)
      modifies this
      ensures schedules == Ticked(old(schedules), now, offset)
      ensures exists due :: DueList(due, old(schedules), now) && launched == old(launched) + due
                         && disk == Saved(old(disk), schedules, due, saves)
    {
      ghost var before := schedules;
      var due: seq<string> := [];
      var rest := schedules.Keys;
      while rest != {}
        invariant AllValid(before) && Halfway(before, schedules, rest, now, offset) && Listed(before, rest, due, now)
        invariant disk == old(disk) && launched == old(launched)
        decreases |rest|
      {
        hide Due, Advance, AllValid, Halfway, Listed, Ticked;
        var id :| id in rest;
        OneMoreListed(before, rest, due, now, id);
        OneMoreTicked(before, schedules, rest, now, offset, id);
        rest := rest - {id};
        if Due(schedules[id], now) {
          due := due + [id];
          schedules := schedules[id := Advance(schedules[id], now, offset)];
        }
      }
      hide Due, Advance, Valid;
      assert schedules == Ticked(before, now, offset);
      Persist(due, saves);
      launched := launched + due;
      assert DueList(due, old(schedules), now);
    }

    method Persist(ids: seq<string>, saves: string -> bool)
      requires forall id :: id in ids ==> id in schedules
      modifies this`disk
      ensures disk == Saved(old(disk), schedules, ids, saves)
    {
      assert ids[0..] == ids;
      for i := 0 to |ids|
        invariant Saved(disk, schedules, ids[i..], saves) == Saved(old(disk), schedules, ids, saves)
      {
        assert ids[i..][0] == ids[i] && ids[i..][1..] == ids[i + 1..];
        if saves(ids[i]) { disk := disk[ids[i] := schedules[ids[i]]]; }
      }
    }

    /** nearestScheduleTime: the earliest set time of an enabled schedule. */
    method NearestScheduleTime() returns (nearest: int)
      ensures IsNearest(schedules, nearest)
    {
      nearest := UNSET;
      var rest := schedules.Keys;
      while rest != {}
        invariant rest <= schedules.Keys
        invariant NearestAmong(schedules, schedules.Keys - rest, nearest)
        decreases |rest|
      {
        var id :| id in rest;
        rest := rest - {id};
        var s := schedules[id];
        if Waiting(s) && (nearest == UNSET || s.nextRunAt < nearest) { nearest := s.nextRunAt; }
      }
      assert schedules.Keys - rest == schedules.Keys;
    }
  }

  predicate Waiting(s: Schedule) { s.enabled && s.nextRunAt != UNSET }

  ghost predicate NearestAmong(table: Table, ids: set<string>, nearest: int) {
    && (forall id :: id in ids && id in table && Waiting(table[id]) ==> nearest != UNSET && nearest <= table[id].nextRunAt)
    && (nearest != UNSET ==> exists id :: id in ids && id in table && Waiting(table[id]) && table[id].nextRunAt == nearest)
  }

  /** UNSET without a waiting schedule, and otherwise the earliest time of one. */
  ghost predicate IsNearest(table: Table, nearest: int) { NearestAmong(table, table.Keys, nearest) }

  /** After a tick without overflowing intervals the timer is set for later, or not at all. */
  lemma NextTickIsLater(table: Table, now: int, offset: int, nearest: int)
    requires AllValid(table) && forall id :: id in table ==> !Overflows(table[id])
    requires IsNearest(Ticked(table, now, offset), nearest)
    ensures nearest == UNSET || nearest > now
  {
    hide Valid, Overflows, Advance;
    TickSettles(table, now, offset);
  }

  // ----- Runs of ticks -----

  /** How often one schedule is started over a run of ticks. */
  function Starts(table: Table, ticks: seq<int>, offset: int, id: string): nat
    requires AllValid(table) && id in table
    decreases |ticks|
  {
    if ticks == [] then 0
    else
      TickKeepsValid(table, ticks[0], offset);
      (if Due(table[id], ticks[0]) then 1 else 0) + Starts(Ticked(table, ticks[0], offset), ticks[1..], offset, id)
  }

  lemma TickKeepsValid(table: Table, now: int, offset: int)
    requires AllValid(table)
    ensures AllValid(Ticked(table, now, offset))
  {
    hide Valid, Advance;
    forall id | id in table ensures Valid(Ticked(table, now, offset)[id]) {
      AdvanceKeepsValid(table[id], now, offset);
    }
  }

  lemma {:induction false} DisabledStaysOff(table: Table, ticks: seq<int>, offset: int, id: string)
    requires AllValid(table) && id in table && !table[id].enabled
    ensures Starts(table, ticks, offset, id) == 0
    decreases |ticks|
  {
    hide Valid, Advance;
    if ticks != [] {
      TickKeepsValid(table, ticks[0], offset);
      DisabledStaysOff(Ticked(table, ticks[0], offset), ticks[1..], offset, id);
    }
  }

  /** A one-shot schedule is started at most once, however often and whenever the scheduler ticks. */
  lemma {:induction false} OneShotsStartOnce(table: Table, ticks: seq<int>, offset: int, id: string)
    requires AllValid(table) && id in table && (table[id].kind.Once? || table[id].kind.Boot?)
    ensures Starts(table, ticks, offset, id) <= 1
    decreases |ticks|
  {
    hide Valid;
    if ticks != [] {
      TickKeepsValid(table, ticks[0], offset);
      var next := Ticked(table, ticks[0], offset);
      if Due(table[id], ticks[0]) {
        DisabledStaysOff(next, ticks[1..], offset, id);
      } else {
        OneShotsStartOnce(next, ticks[1..], offset, id);
      }
    }
  }

  /** It is started exactly when a tick comes at or after its time, and not before. */
  lemma {:induction false} OneShotsStartAtTheirTime(table: Table, ticks: seq<int>, offset: int, id: string)
    requires AllValid(table) && id in table && (table[id].kind.Once? || table[id].kind.Boot?)
    requires table[id].enabled && table[id].nextRunAt != UNSET
    ensures Starts(table, ticks, offset, id)
            == if exists i :: 0 <= i < |ticks| && ticks[i] >= table[id].nextRunAt then 1 else 0
    decreases |ticks|
  {
    hide Valid;
    if ticks != [] {
      TickKeepsValid(table, ticks[0], offset);
      var next := Ticked(table, ticks[0], offset);
      if ticks[0] >= table[id].nextRunAt {
        DisabledStaysOff(next, ticks[1..], offset, id);
      } else {
        OneShotsStartAtTheirTime(next, ticks[1..], offset, id);
        if i :| 0 <= i < |ticks| && ticks[i] >= table[id].nextRunAt { assert ticks[1..][i - 1] == ticks[i]; }
        if i :| 0 <= i < |ticks[1..]| && ticks[1..][i] >= table[id].nextRunAt { assert ticks[i + 1] == ticks[1..][i]; }
      }
    }
  }

  /** Times that never go back. */
  predicate Orderly(ticks: seq<int>) { forall i, j :: 0 <= i < j < |ticks| ==> ticks[i] <= ticks[j] }

  predicate Within(ticks: seq<int>, start: int, end: int) {
    Orderly(ticks) && forall i :: 0 <= i < |ticks| ==> start <= ticks[i] <= end
  }

  lemma {:induction false} UnsetNeverStarts(table: Table, ticks: seq<int>, offset: int, id: string)
    requires AllValid(table) && id in table && table[id].nextRunAt == UNSET
    ensures Starts(table, ticks, offset, id) == 0
    decreases |ticks|
  {
    hide Valid, Advance;
    if ticks != [] {
      TickKeepsValid(table, ticks[0], offset);
      UnsetNeverStarts(Ticked(table, ticks[0], offset), ticks[1..], offset, id);
    }
  }

  /** The earliest time from `start` on at which a schedule can start. */
  function Earliest(s: Schedule, start: int): int { if s.nextRunAt > start then s.nextRunAt else start }

  lemma AdvancedInterval(table: Table, now: int, offset: int, id: string)
    requires AllValid(table) && id in table && table[id].kind.Interval?
    ensures id in Ticked(table, now, offset)
    ensures Ticked(table, now, offset)[id]
            == if Due(table[id], now) then table[id].(nextRunAt := now + Every(table[id].everySeconds)) else table[id]
  {
    hide Every, Valid;
  }

  lemma OneMorePeriod(starts: nat, period: int, end: int, now: int)
    requires starts > 0 && (starts - 1) * period <= end - (now + period)
    ensures starts * period <= end - now
  {
    assert starts * period == (starts - 1) * period + period;
  }

  /** An interval of up to 292 years starts at most once per period: over ticks from `start` to `end`,
      however many, at most (end - start) / everySeconds + 1 times. */
  lemma {:induction false} IntervalsKeepTheirDistance(table: Table, ticks: seq<int>, offset: int, id: string,
                                                      start: int, end: int)
    requires AllValid(table) && id in table && table[id].kind.Interval? && 1 <= table[id].everySeconds <= LONGEST
    requires Within(ticks, start, end)
    ensures Starts(table, ticks, offset, id) > 0 ==>
              (Starts(table, ticks, offset, id) - 1) * (table[id].everySeconds * SECOND)
              <= end - Earliest(table[id], start)
    decreases |ticks|
  {
    hide Valid, Every, Ticked;
    if ticks != [] {
      var now, rest := ticks[0], ticks[1..];
      TickKeepsValid(table, now, offset);
      AdvancedInterval(table, now, offset, id);
      IntervalsThatFit(table[id].everySeconds);
      var next := Ticked(table, now, offset);
      IntervalsKeepTheirDistance(next, rest, offset, id, now, end);
      if Due(table[id], now) && Starts(next, rest, offset, id) > 0 {
        if next[id].nextRunAt == UNSET { UnsetNeverStarts(next, rest, offset, id); }
        OneMorePeriod(Starts(next, rest, offset, id), table[id].everySeconds * SECOND, end, now);
      }
    }
  }

  const JOB := "job"

  /** Over any orderly ticks the job starts at most once per period it asks for. */
  ghost predicate KeepsItsPeriod(s: Schedule, offset: int)
    requires Valid(s)
  {
    forall ticks: seq<int> :: ticks != [] && Orderly(ticks) && Starts(map[JOB := s], ticks, offset, JOB) > 0 ==>
      (Starts(map[JOB := s], ticks, offset, JOB) - 1) * (s.everySeconds * SECOND) <= ticks[|ticks| - 1] - ticks[0]
  }

  lemma StartsTwice(s: Schedule, offset: int, first: int, second: int)
    requires Valid(s) && s.kind.Interval? && Due(s, first)
    requires first + Every(s.everySeconds) != UNSET && first + Every(s.everySeconds) <= second
    ensures Starts(map[JOB := s], [first, second], offset, JOB) == 2
  {
    hide Every, Valid;
    var table: Table := map[JOB := s];
    TickKeepsValid(table, first, offset);
    AdvancedInterval(table, first, offset, JOB);
    var next := Ticked(table, first, offset);
    assert [first, second][1..] == [second] && [second][1..] == [];
    TickKeepsValid(next, second, offset);
    assert Due(next[JOB], second);
    assert Starts(Ticked(next, second, offset), [], offset, JOB) == 0;
    assert Starts(next, [second], offset, JOB) == 1;
  }

  /** A longer interval starts too often, whatever its length: some two ticks less than its period apart
      both start it. */
  lemma WrappedIntervalsStartEarly(s: Schedule, offset: int) returns (ticks: seq<int>)
    requires Valid(s) && s.kind.Interval? && s.enabled && s.nextRunAt != UNSET && s.everySeconds > LONGEST
    ensures |ticks| == 2 && ticks[0] <= ticks[1] < ticks[0] + s.everySeconds * SECOND
    ensures Starts(map[JOB := s], ticks, offset, JOB) == 2
  {
    var first := if s.nextRunAt > TWO_63 then s.nextRunAt else TWO_63 + 1;
    var length := Every(s.everySeconds);
    IntervalsThatFit(s.everySeconds);
    assert first + length > UNSET;
    hide Every;
    var second := if length > 0 then first + length else first;
    StartsTwice(s, offset, first, second);
    ticks := [first, second];
  }

  /** An interval keeps its period exactly up to 292 years. */
  lemma PeriodIsKeptExactly(s: Schedule, offset: int)
    requires Valid(s) && s.kind.Interval? && s.enabled && s.nextRunAt != UNSET && 1 <= s.everySeconds
    ensures KeepsItsPeriod(s, offset) <==> s.everySeconds <= LONGEST
  {
    hide Valid, Every, Starts;
    if s.everySeconds <= LONGEST {
      forall ticks: seq<int> | ticks != [] && Orderly(ticks) && Starts(map[JOB := s], ticks, offset, JOB) > 0
        ensures (Starts(map[JOB := s], ticks, offset, JOB) - 1) * (s.everySeconds * SECOND)
                <= ticks[|ticks| - 1] - ticks[0]
      {
        IntervalsKeepTheirDistance(map[JOB := s], ticks, offset, JOB, ticks[0], ticks[|ticks| - 1]);
      }
    } else {
      var ticks := WrappedIntervalsStartEarly(s, offset);
      assert Orderly(ticks);
    }
  }
}
