/** The version file the supervisor keeps: an installed candidate is either marked stable after a long
    run or rolled back after a failure. */
module Versions {
  import opened Common

  /** A binary file: what it says it is, and its bytes. */
  datatype Program = Program(version: string, bytes: Bytes)

  datatype VersionState = VersionState(
    activeVersion: string, activeBinary: string, candidateVersion: string, candidateBinary: string,
    previousVersion: string, previousBinary: string, goodSince: int, rollbackAt: int, reason: string)

  const UNSET := 0
  const EMPTY := VersionState("", "", "", "", "", "", UNSET, UNSET, "")

  /** The state file, the program at the executable's path, the other binaries, and the version of
      the supervisor that is running. */
  datatype World = World(state: Option<VersionState>, program: Program, backups: map<string, Program>, running: string)

  /** How the system calls turn out. `inside`: the backup lies below the versions directory. */
  datatype Fate = Fate(readable: bool, inside: bool, restores: bool, saves: bool, execs: bool)

  datatype Event =
    | Failure(reason: string, now: int, fate: Fate)
    | LongRun(now: int, fate: Fate)

  /** There is a candidate that was neither marked stable nor rolled back. */
  predicate Pending(w: World) {
    w.state.Some? && w.state.value.candidateVersion != "" && w.state.value.previousBinary != ""
    && w.state.value.goodSince == UNSET
  }

  /** markStable: an unreadable state file counts as an empty one. */
  function MarkStable(w: World, executable: string, now: int, fate: Fate): World {
    var before := if fate.readable && w.state.Some? then w.state.value else EMPTY;
    if !fate.saves then w
    else w.(state := Some(before.(activeVersion := w.running, activeBinary := executable, goodSince := now,
                                  candidateVersion := "", candidateBinary := "")))
  }

  /** What rollback asks of the backup before it restores anything. */
  predicate CanRestore(w: World, executable: string, fate: Fate) {
    w.state.Some? && w.state.value.previousBinary != executable && w.state.value.previousBinary in w.backups
    && w.backups[w.state.value.previousBinary].bytes != [] && fate.inside
  }

  function RolledBack(s: VersionState, executable: string, reason: string, now: int): VersionState {
    s.(rollbackAt := now, reason := reason, activeVersion := s.previousVersion, activeBinary := executable,
       candidateVersion := "", candidateBinary := "", goodSince := now)
  }

  /** rollbackPendingCandidate: restore the backup, then record it, then become it. */
  function Rollback(w: World, executable: string, reason: string, now: int, fate: Fate): World {
    if !fate.readable || !Pending(w) || !CanRestore(w, executable, fate) || !fate.restores then w
    else
      var restored := w.(program := w.backups[w.state.value.previousBinary]);
      if !fate.saves then restored
      else
        var recorded := restored.(state := Some(RolledBack(w.state.value, executable, reason, now)));
        if fate.execs then recorded.(running := recorded.program.version) else recorded
  }

  function Next(w: World, executable: string, e: Event): World {
    match e
    case Failure(reason, now, fate) => Rollback(w, executable, reason, now, fate)
    case LongRun(now, fate) => MarkStable(w, executable, now, fate)
  }

  function Exec(w: World, executable: string, events: seq<Event>): World
    decreases |events|
  {
    if events == [] then w else Exec(Next(w, executable, events[0]), executable, events[1..])
  }

  /** The clock never shows the unset time. */
  predicate RealTimes(events: seq<Event>) { forall i :: 0 <= i < |events| ==> events[i].now != UNSET }

  // ----- A settled candidate stays settled -----

  /** Without a pending candidate, no failure and no long run changes the program or makes one pending. */
  lemma {:induction false} SettledForever(w: World, executable: string, events: seq<Event>)
    requires !Pending(w) && RealTimes(events)
    ensures !Pending(Exec(w, executable, events)) && Exec(w, executable, events).program == w.program
    decreases |events|
  {
    if events != [] { SettledForever(Next(w, executable, events[0]), executable, events[1..]); }
  }

  predicate HasBackup(w: World) { w.state.Some? && w.state.value.previousBinary in w.backups }

  function Backup(w: World): Program
    requires HasBackup(w)
  {
    w.backups[w.state.value.previousBinary]
  }

  /** A candidate that was just installed over a saved backup. */
  predicate Installed(w: World, executable: string) {
    && Pending(w) && HasBackup(w) && w.state.value.previousBinary != executable
    && w.running == w.program.version && w.state.value.candidateVersion == w.program.version
    && w.state.value.previousVersion == Backup(w).version
  }

  /** What holds while the candidate `c` is neither marked nor recorded as rolled back. */
  predicate OnTrial(w: World, start: World)
    requires HasBackup(start)
  {
    w.state == start.state && w.backups == start.backups && w.running == start.running
    && (w.program == start.program || w.program == Backup(start))
  }

  predicate Accepted(w: World, start: World) { w.program == start.program && !Pending(w) }

  predicate Reverted(w: World, start: World)
    requires HasBackup(start)
  {
    w.program == Backup(start) && !Pending(w)
  }

  /** After an installation, whatever happens in whatever order, and whichever calls fail: the backup is
      never touched, and the program is the candidate or the backup, whole. Once it is decided, it stays. */
  lemma {:induction false} CandidateOrBackup(start: World, w: World, executable: string, events: seq<Event>)
    requires Installed(start, executable) && w.backups == start.backups && RealTimes(events)
    requires OnTrial(w, start) || Accepted(w, start) || Reverted(w, start)
    ensures var end := Exec(w, executable, events);
            && end.backups == start.backups
            && (OnTrial(end, start) || Accepted(end, start) || Reverted(end, start))
            && (Accepted(w, start) ==> Accepted(end, start)) && (Reverted(w, start) ==> Reverted(end, start))
    decreases |events|
  {
    if events != [] {
      CandidateOrBackup(start, Next(w, executable, events[0]), executable, events[1..]);
    }
  }

  /** A failure right after the installation puts the backup in place for good, when every call works. */
  lemma FailureReverts(start: World, executable: string, reason: string, now: int, events: seq<Event>)
    requires Installed(start, executable) && RealTimes(events) && now != UNSET
    requires Backup(start).bytes != []
    ensures var e := Failure(reason, now, Fate(true, true, true, true, true));
            var end := Exec(start, executable, [e] + events);
            && end.program == Backup(start) && !Pending(end)
            && end.running == end.program.version
  {
    var e := Failure(reason, now, Fate(true, true, true, true, true));
    var next := Next(start, executable, e);
    assert ([e] + events)[1..] == events;
    SettledForever(next, executable, events);
    RunningStays(next, executable, events);
  }

  lemma {:induction false} RunningStays(w: World, executable: string, events: seq<Event>)
    requires !Pending(w) && RealTimes(events)
    ensures Exec(w, executable, events).running == w.running
    decreases |events|
  {
    if events != [] { RunningStays(Next(w, executable, events[0]), executable, events[1..]); }
  }

  // ----- What the file says is active -----

  predicate Truthful(w: World) { w.state.Some? && w.state.value.activeVersion == w.program.version }

  /** The failure puts the backup in place: the first of rollback's three writes. */
  predicate Restores(w: World, executable: string, e: Event) {
    e.Failure? && e.fate.readable && Pending(w) && CanRestore(w, executable, e.fate) && e.fate.restores
  }

  /** Some failure of the run put the backup in place. */
  predicate SomeRestored(w: World, executable: string, events: seq<Event>)
    decreases |events|
  {
    events != [] && var before := events[..|events| - 1];
    SomeRestored(w, executable, before) || Restores(Exec(w, executable, before), executable, events[|events| - 1])
  }

  /** Some failure of the run put the backup in place, recorded that, and became the backup. */
  predicate SomeExchanged(w: World, executable: string, events: seq<Event>)
    decreases |events|
  {
    events != [] && var before, e := events[..|events| - 1], events[|events| - 1];
    || SomeExchanged(w, executable, before)
    || (Restores(Exec(w, executable, before), executable, e) && e.fate.saves && e.fate.execs)
  }

  /** The program is the backup while the supervisor is still the candidate's. */
  predicate OutOfStep(w: World, executable: string, events: seq<Event>) {
    SomeRestored(w, executable, events) && !SomeExchanged(w, executable, events)
  }

  /** Some long run of the run was recorded out of step. */
  predicate Misled(w: World, executable: string, events: seq<Event>)
    decreases |events|
  {
    events != [] && var before, e := events[..|events| - 1], events[|events| - 1];
    Misled(w, executable, before) || (e.LongRun? && e.fate.saves && OutOfStep(w, executable, before))
  }

  lemma {:induction false} ExecAppend(w: World, executable: string, events: seq<Event>, e: Event)
    ensures Exec(w, executable, events + [e]) == Next(Exec(w, executable, events), executable, e)
    decreases |events|
  {
    hide Next;
    if events == [] {
      assert [e][1..] == [];
    } else {
      assert (events + [e])[0] == events[0] && (events + [e])[1..] == events[1..] + [e];
      ExecAppend(Next(w, executable, events[0]), executable, events[1..], e);
    }
  }

  /** A candidate whose backup has another version. */
  predicate Upgraded(start: World, executable: string) {
    Installed(start, executable) && Backup(start).version != start.program.version
  }

  /** Where a run from an installation has got to, in terms of what happened on it. */
  ghost predicate Reached(start: World, w: World, restored: bool, exchanged: bool, misled: bool)
    requires HasBackup(start)
  {
    && w.backups == start.backups
    && w.program == (if restored then Backup(start) else start.program)
    && w.running == (if exchanged then Backup(start).version else start.program.version)
    && (Pending(w) ==> w.state == start.state && !exchanged && !misled)
    && (exchanged ==> restored) && (misled ==> restored && !exchanged)
    && (!Pending(w) ==> (Truthful(w) <==> !misled))
  }

  lemma ReachedStep(start: World, w: World, executable: string, e: Event, restored: bool, exchanged: bool, misled: bool)
    requires Upgraded(start, executable) && Reached(start, w, restored, exchanged, misled) && e.now != UNSET
    ensures var r := Restores(w, executable, e);
            Reached(start, Next(w, executable, e), restored || r, exchanged || (r && e.fate.saves && e.fate.execs),
                    misled || (e.LongRun? && e.fate.saves && restored && !exchanged))
  {}

  lemma {:induction false} RunReaches(start: World, executable: string, events: seq<Event>)
    requires Upgraded(start, executable) && RealTimes(events)
    ensures Reached(start, Exec(start, executable, events), SomeRestored(start, executable, events),
                    SomeExchanged(start, executable, events), Misled(start, executable, events))
    decreases |events|
  {
    hide Next, Restores;
    if events != [] {
      var before, e := events[..|events| - 1], events[|events| - 1];
      assert events == before + [e];
      RunReaches(start, executable, before);
      hide Reached;
      ExecAppend(start, executable, before, e);
      ReachedStep(start, Exec(start, executable, before), executable, e, SomeRestored(start, executable, before),
                  SomeExchanged(start, executable, before), Misled(start, executable, before));
    }
  }

  /** After an upgrade and whatever followed, recording a long run names the program that is in place
      exactly when no failure restored the backup, or one that did was also recorded and exchanged the
      process. */
  lemma MarkTellsTheTruth(start: World, executable: string, events: seq<Event>, now: int, fate: Fate)
    requires Upgraded(start, executable) && RealTimes(events) && fate.saves
    ensures Truthful(MarkStable(Exec(start, executable, events), executable, now, fate))
            <==> !SomeRestored(start, executable, events) || SomeExchanged(start, executable, events)
  {
    RunReaches(start, executable, events);
  }

  /** Once a candidate is decided, the file names the program that is in place exactly when no long run
      was recorded between a restore and the exchange of the process. */
  lemma FileTellsTheTruth(start: World, executable: string, events: seq<Event>)
    requires Upgraded(start, executable) && RealTimes(events) && !Pending(Exec(start, executable, events))
    ensures Truthful(Exec(start, executable, events)) <==> !Misled(start, executable, events)
  {
    RunReaches(start, executable, events);
  }

  lemma TwoEvents(w: World, executable: string, first: Event, second: Event)
    ensures Exec(w, executable, [first, second]) == Next(Next(w, executable, first), executable, second)
  {
    hide Next;
    assert [first, second] == [first] + [second] && [first] == [] + [first];
    ExecAppend(w, executable, [first], second);
    ExecAppend(w, executable, [], first);
  }

  /** The first way to mislead: the rollback's record could not be saved. */
  lemma UnsavedRollbackMisleads(start: World, executable: string, now: int)
    requires Upgraded(start, executable) && now != UNSET && Backup(start).bytes != []
    ensures var unsaved := Failure("exit", now, Fate(true, true, true, false, true));
            var long := LongRun(now, Fate(true, true, true, true, true));
            var end := Exec(start, executable, [unsaved, long]);
            Reverted(end, start) && !Truthful(end)
  {
    TwoEvents(start, executable, Failure("exit", now, Fate(true, true, true, false, true)),
              LongRun(now, Fate(true, true, true, true, true)));
  }

  /** The second way: everything was saved, but the process could not be exchanged. The file is right
      until the candidate's supervisor records its long run. */
  lemma UnexchangedRollbackMisleads(start: World, executable: string, now: int)
    requires Upgraded(start, executable) && now != UNSET && Backup(start).bytes != []
    ensures var stuck := Failure("exit", now, Fate(true, true, true, true, false));
            var long := LongRun(now, Fate(true, true, true, true, true));
            var end := Exec(start, executable, [stuck, long]);
            && Truthful(Next(start, executable, stuck)) && Reverted(Next(start, executable, stuck), start)
            && Reverted(end, start) && !Truthful(end)
  {
    TwoEvents(start, executable, Failure("exit", now, Fate(true, true, true, true, false)),
              LongRun(now, Fate(true, true, true, true, true)));
  }

  /** Once the file was written by a rollback whose process exchange worked, it tells the truth. */
  lemma RollbackTellsTheTruth(start: World, w: World, executable: string, reason: string, now: int, fate: Fate)
    requires Installed(start, executable) && OnTrial(w, start) && now != UNSET
    requires !Pending(Rollback(w, executable, reason, now, fate))
    ensures Truthful(Rollback(w, executable, reason, now, fate))
    ensures var t := Rollback(w, executable, reason, now, fate); fate.execs ==> t.running == t.program.version
  {}

  /** The backup is put in place exactly for an undecided candidate whose backup is another file, is there,
      is not empty and lies among the versions, when the calls work; and without that nothing changes. */
  lemma RestoredExactly(w: World, executable: string, reason: string, now: int, fate: Fate)
    ensures var t := Rollback(w, executable, reason, now, fate);
            if && w.state.Some? && w.state.value.candidateVersion != "" && w.state.value.goodSince == UNSET
               && w.state.value.previousBinary != "" && w.state.value.previousBinary != executable
               && w.state.value.previousBinary in w.backups && w.backups[w.state.value.previousBinary].bytes != []
               && fate.readable && fate.inside && fate.restores
            then
              && t.program == w.backups[w.state.value.previousBinary] && t.backups == w.backups
              && (t.state == w.state <==> !fate.saves)
              && t.running == if fate.saves && fate.execs then t.program.version else w.running
            else t == w
  {}

  /** What a recorded rollback says: when and why, the version and the binary that are active now, and no
      candidate any more; the previous version stays on record. */
  lemma RollbackIsOnRecord(start: World, executable: string, reason: string, now: int)
    requires Installed(start, executable) && Backup(start).bytes != [] && now != UNSET
    ensures var t := Rollback(start, executable, reason, now, Fate(true, true, true, true, true));
            && t.state.Some? && var s, before := t.state.value, start.state.value;
            && s.reason == reason && s.rollbackAt == now && s.goodSince == now
            && s.activeVersion == Backup(start).version && s.activeBinary == executable
            && s.candidateVersion == "" && s.candidateBinary == ""
            && s.previousVersion == before.previousVersion && s.previousBinary == before.previousBinary
  {}

  /** What marking a candidate stable says: it is active, it has been good since now, it is no candidate any
      more, and the way back stays on record. */
  lemma StableIsOnRecord(start: World, executable: string, now: int)
    requires Installed(start, executable)
    ensures var t := MarkStable(start, executable, now, Fate(true, true, true, true, true));
            && t.program == start.program && t.state.Some? && var s, before := t.state.value, start.state.value;
            && s.activeVersion == start.program.version == before.candidateVersion && s.activeBinary == executable
            && s.goodSince == now && s.candidateVersion == "" && s.candidateBinary == ""
            && s.previousVersion == before.previousVersion && s.previousBinary == before.previousBinary
            && s.rollbackAt == before.rollbackAt && s.reason == before.reason
  {}

  // ----- The files themselves -----

  class VersionFiles {
    const executable: string
    const running: string
    var state: Option<VersionState>
    var program: Program
    var backups: map<string, Program>

    constructor (executable: string, w: World)
      ensures View() == w && this.executable == executable
    {
      this.executable := executable;
      running, state, program, backups := w.running, w.state, w.program, w.backups;
    }

    function View(): World
      reads this
    {
      World(state, program, backups, running)
    }

    method Mark(now: int, fate: Fate) returns (ok: bool)
      modifies this`state
      ensures View() == MarkStable(old(View()), executable, now, fate) && ok == fate.saves
    {
      var s := EMPTY;
      if fate.readable && state.Some? { s := state.value; }
      s := s.(activeVersion := running);
      s := s.(activeBinary := executable);
      s := s.(goodSince := now);
      s := s.(candidateVersion := "");
      s := s.(candidateBinary := "");
      if fate.saves { state := Some(s); }
      ok := fate.saves;
    }

    /** rollbackPendingCandidate and rollback. A successful exchange of the process never returns;
        `exchanged` says that it happened. */
    method RollbackPendingCandidate(reason: string, now: int, fate: Fate) returns (exchanged: bool)
      modifies this`state, this`program
      ensures var w := Rollback(old(View()), executable, reason, now, fate);
              View() == w.(running := running) && w.running == (if exchanged then program.version else running)
    {
      exchanged := false;
      if !fate.readable || state.None? { return; }
      var s := state.value;
      if s.candidateVersion == "" || s.previousBinary == "" || s.goodSince != UNSET { return; }
      if s.previousBinary == executable || s.previousBinary !in backups { return; }
      if backups[s.previousBinary].bytes == [] || !fate.inside { return; }
      if !fate.restores { return; }
      program := backups[s.previousBinary];
      s := s.(rollbackAt := now);
      s := s.(reason := reason);
      s := s.(activeVersion := s.previousVersion);
      s := s.(activeBinary := executable);
      s := s.(candidateVersion := "");
      s := s.(candidateBinary := "");
      s := s.(goodSince := now);
      if !fate.saves { return; }
      state := Some(s);
      exchanged := fate.execs;
    }
  }
}
