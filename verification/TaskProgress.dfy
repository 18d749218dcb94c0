/** Concurrency limits, blocking and progress of the task manager. */
module TaskProgress {
  import opened Common
  import opened TaskSpec
  import opened TaskInvariant

  // ----- Limits -----

  ghost function ExecutingWorkers(s: State): set<WorkerId> {
    set w | w in s.workers && s.workers[w].pc.Executing?
  }

  /** Runners of tasks that were submitted as heavy. */
  ghost function ExecutingHeavy(s: State): set<WorkerId> {
    set w | w in s.workers && s.workers[w].pc.Executing?
            && s.workers[w].id in s.tasks && s.tasks[s.workers[w].id].heavy
  }

  lemma SubsetIsSmaller(a: set<WorkerId>, b: set<WorkerId>)
    requires a <= b
    ensures |a| <= |b|
  {
    assert b == a + (b - a);
  }

  /** Never more runners than totalLimit, and never more heavy ones than heavyLimit. */
  lemma LimitsHold(s: State)
    requires Inv(s)
    ensures |ExecutingWorkers(s)| <= s.totalLimit
    ensures |ExecutingHeavy(s)| <= s.heavyLimit
  {
    hide Unique, Served, Registry, Channels, Memory, Disk;
    SubsetIsSmaller(ExecutingWorkers(s), TotalHolders(s.workers));
    SubsetIsSmaller(ExecutingHeavy(s), HeavyHolders(s.workers));
  }

  // ----- Blocking -----

  /** Steps the manager takes by itself: everything but clients, crashes and runners returning. */
  predicate Internal(e: Event) {
    || e.ECallCancel? || e.ETakeTotal? || e.EStopTotal? || e.EReadHeavy? || e.ETakeHeavy? || e.EStopHeavy?
    || e.EStart? || e.ESettle? || e.EFinishCancelled? || e.ERelease?
  }

  ghost predicate Quiet(s: State) {
    forall e :: Internal(e) ==> !Enabled(s, e)
  }

  ghost predicate Blocked(s: State, w: WorkerId) {
    At(s, w, WaitTotal) || At(s, w, WaitHeavy)
  }

  /** The step of a worker that no full semaphore holds up. */
  lemma MoveOf(s: State, w: WorkerId) returns (e: Event)
    requires Inv(s) && w in s.workers
    requires s.workers[w].pc.WaitTotal? ==> s.totalUsed < s.totalLimit
    requires s.workers[w].pc.WaitHeavy? ==> s.heavyUsed < s.heavyLimit
    ensures WorkerStep(e) && Enabled(s, e)
    ensures s.workers[w].pc.Executing? || Internal(e)
  {
    hide Placed, Unique, Served, Registry, Channels, Memory, Disk;
    match s.workers[w].pc
    case WaitTotal => e := ETakeTotal(w);
    case ReadTask => e := EReadHeavy(w);
    case WaitHeavy => e := ETakeHeavy(w);
    case Starting => e := EStart(w, 0, true);
    case Stopping(_) => e := EFinishCancelled(w, 0, true);
    case Executing => e := EReturn(w, Outcome(true, "OK", ""));
    case Settling(_, _) => e := ESettle(w, 0, true);
    case Releasing =>
      assert w in TotalHolders(s.workers) || !s.workers[w].total;
      assert w in HeavyHolders(s.workers) || !s.workers[w].heavy;
      e := ERelease(w);
  }

  /** In a quiet state every worker is at a semaphore that is full, or is running its task. */
  lemma QuietWorker(s: State, w: WorkerId)
    requires Inv(s) && Quiet(s) && w in s.workers
    ensures var pc := s.workers[w].pc;
            || pc.Executing?
            || (pc.WaitTotal? && s.totalUsed == s.totalLimit)
            || (pc.WaitHeavy? && s.heavyUsed == s.heavyLimit)
  {
    hide Inv;
    var pc := s.workers[w].pc;
    LimitsOf(s);
    if !pc.Executing? && !(pc.WaitTotal? && s.totalUsed == s.totalLimit)
       && !(pc.WaitHeavy? && s.heavyUsed == s.heavyLimit)
    {
      var e := MoveOf(s, w);
    }
  }

  lemma LimitsOf(s: State)
    requires Inv(s)
    ensures s.totalUsed <= s.totalLimit && s.heavyUsed <= s.heavyLimit
  {
    hide Placed, Unique, Served, Registry, Channels, Memory, Disk;
  }

  /** Whenever a worker is blocked and nothing internal can move, at least heavyLimit runners
      are executing. */
  lemma BlockedMeansBusy(s: State, w: WorkerId)
    requires Inv(s) && Quiet(s) && Blocked(s, w)
    ensures |ExecutingWorkers(s)| >= s.heavyLimit
  {
    hide Unique, Served, Registry, Channels, Memory, Disk, Quiet;
    forall v | v in s.workers
      ensures s.workers[v].heavy ==> v in ExecutingWorkers(s)
      ensures s.workers[v].total ==> v in ExecutingWorkers(s) || s.workers[v].pc.WaitHeavy?
    {
      QuietWorker(s, v);
    }
    QuietWorker(s, w);
    if exists v :: v in s.workers && s.workers[v].pc.WaitHeavy? {
      var v :| v in s.workers && s.workers[v].pc.WaitHeavy?;
      QuietWorker(s, v);
      SubsetIsSmaller(HeavyHolders(s.workers), ExecutingWorkers(s));
    } else {
      SubsetIsSmaller(TotalHolders(s.workers), ExecutingWorkers(s));
    }
  }

  // ----- Progress -----

  /** A step of a worker, the runner's return included. */
  predicate WorkerStep(e: Event) {
    || e.ETakeTotal? || e.EStopTotal? || e.EReadHeavy? || e.ETakeHeavy? || e.EStopHeavy?
    || e.EStart? || e.EReturn? || e.ESettle? || e.EFinishCancelled? || e.ERelease?
  }

  function PcRank(pc: Pc): nat {
    match pc
    case WaitTotal => 11
    case ReadTask => 9
    case WaitHeavy => 8
    case Starting => 5
    case Stopping(_) => 3
    case Executing => 4
    case Settling(_, _) => 3
    case Releasing => 1
  }

  /** An upper bound on the steps a worker still has to take. */
  function Rank(worker: Worker): nat {
    PcRank(worker.pc) + (if worker.total then 1 else 0) + (if worker.heavy then 1 else 0)
  }

  /** The summed ranks of the workers numbered below `n`. */
  function Work(workers: map<WorkerId, Worker>, n: nat): nat {
    if n == 0 then 0
    else Work(workers, n - 1) + (if n - 1 in workers then Rank(workers[n - 1]) else 0)
  }

  lemma {:induction false} WorkAfterChange(a: map<WorkerId, Worker>, b: map<WorkerId, Worker>, w: WorkerId, n: nat)
    requires forall v :: v != w ==> (v in a <==> v in b)
    requires forall v :: v != w && v in a ==> a[v] == b[v]
    ensures Work(b, n) + (if w < n && w in a then Rank(a[w]) else 0)
            == Work(a, n) + (if w < n && w in b then Rank(b[w]) else 0)
  {
    if n > 0 { WorkAfterChange(a, b, w, n - 1); }
  }

  /** Only the stepping worker's entry differs, and its rank, if it is still there, is lower. */
  ghost predicate Lowers(s: State, t: State, w: WorkerId) {
    && w in s.workers && t.nextWorker == s.nextWorker
    && (forall v :: v != w ==> (v in s.workers <==> v in t.workers))
    && (forall v :: v != w && v in s.workers ==> s.workers[v] == t.workers[v])
    && (w in t.workers ==> Rank(t.workers[w]) < Rank(s.workers[w]))
  }

  lemma GotoLowers(s: State, w: WorkerId, pc: Pc)
    requires w in s.workers && PcRank(pc) < PcRank(s.workers[w].pc)
    ensures Lowers(s, Goto(s, w, pc), w)
  {}

  lemma TakesLower(s: State, w: WorkerId)
    requires w in s.workers
    ensures At(s, w, WaitTotal) && !s.workers[w].total ==> Lowers(s, TakeTotal(s, w), w)
    ensures At(s, w, WaitHeavy) && !s.workers[w].heavy ==> Lowers(s, TakeHeavy(s, w), w)
  {
    if At(s, w, WaitTotal) { EntryLowers(s, TakeTotal(s, w), w); }
    if At(s, w, WaitHeavy) { EntryLowers(s, TakeHeavy(s, w), w); }
  }

  lemma EntryLowers(s: State, t: State, w: WorkerId)
    requires w in s.workers && w in t.workers && t.workers == s.workers[w := t.workers[w]] && t.nextWorker == s.nextWorker
    ensures Rank(t.workers[w]) < Rank(s.workers[w]) ==> Lowers(s, t, w)
  {
    hide Rank;
  }

  lemma ReadLowers(s: State, w: WorkerId)
    requires At(s, w, ReadTask)
    ensures Lowers(s, ReadHeavyFlag(s, w), w)
  {
    hide Goto;
    GotoLowers(s, w, Releasing);
    GotoLowers(s, w, WaitHeavy);
    GotoLowers(s, w, Starting);
  }

  lemma StartLowers(s: State, w: WorkerId, now: int, saved: bool)
    requires At(s, w, Starting)
    ensures Lowers(s, Start(s, w, now, saved), w)
  {
    hide Goto;
    var id := s.workers[w].id;
    GotoLowers(s, w, Releasing);
    GotoLowers(s, w, Stopping(NOT_STARTED_MESSAGE));
    if id in s.tasks { GotoLowers(Put(s, id, MarkRunning(s.tasks[id], now), saved), w, Executing); }
  }

  lemma NotifyKeepsWorkers(s: State, id: TaskId)
    ensures Notify(s, id).workers == s.workers && Notify(s, id).nextWorker == s.nextWorker
  {
    hide CloseAll;
  }

  lemma FinishesLower(s: State, w: WorkerId, now: int, saved: bool)
    requires w in s.workers
    ensures s.workers[w].pc.Settling? ==> Lowers(s, Settle(s, w, now, saved), w)
    ensures s.workers[w].pc.Stopping? ==> Lowers(s, FinishCancelled(s, w, now, saved), w)
  {
    hide Notify, Goto;
    var id, pc := s.workers[w].id, s.workers[w].pc;
    if pc.Settling? || pc.Stopping? { GotoLowers(s, w, Releasing); }
    var g := Goto(s, w, Releasing);
    if pc.Settling? && id in s.tasks {
      var settled := Settled(s.tasks[id], pc.outcome, pc.wasCancelled, now);
      NotifyKeepsWorkers(Put(g.(cancel := s.cancel - {id}), id, settled, saved), id);
    }
    if pc.Stopping? && id in s.tasks {
      NotifyKeepsWorkers(Put(g, id, CancelledTask(s.tasks[id], pc.message, now), saved), id);
    }
  }

  lemma ReleaseLowers(s: State, w: WorkerId)
    requires At(s, w, Releasing)
    requires s.workers[w].heavy ==> s.heavyUsed > 0
    requires s.workers[w].total ==> s.totalUsed > 0
    ensures Lowers(s, Release(s, w), w)
  {}

  lemma ReturnLowers(s: State, w: WorkerId, outcome: Outcome)
    requires At(s, w, Executing)
    ensures Lowers(s, Return(s, w, outcome), w)
  {
    hide Goto;
    GotoLowers(s, w, Settling(outcome, w in s.ctxDone));
  }

  lemma StepLowersRank(s: State, e: Event)
    requires Inv(s) && WorkerStep(e) && Enabled(s, e)
    ensures Lowers(s, Next(s, e), e.w)
  {
    hide Inv, Lowers, Goto, TakeTotal, TakeHeavy, ReadHeavyFlag, Return, Start, Settle, FinishCancelled, Release;
    PlaceOf(s, e.w);
    match e
    case ETakeTotal(w) => TakesLower(s, w);
    case EStopTotal(w) => GotoLowers(s, w, Stopping(STOPPING_MESSAGE));
    case EReadHeavy(w) => ReadLowers(s, w);
    case ETakeHeavy(w) => TakesLower(s, w);
    case EStopHeavy(w) => GotoLowers(s, w, Stopping(STOPPING_MESSAGE));
    case EStart(w, now, saved) => StartLowers(s, w, now, saved);
    case EReturn(w, outcome) => ReturnLowers(s, w, outcome);
    case ESettle(w, now, saved) => FinishesLower(s, w, now, saved);
    case EFinishCancelled(w, now, saved) => FinishesLower(s, w, now, saved);
    case ERelease(w) => ReleaseLowers(s, w);
  }

  lemma StepLowersWork(s: State, e: Event)
    requires Inv(s) && WorkerStep(e) && Enabled(s, e)
    ensures Work(Next(s, e).workers, Next(s, e).nextWorker) < Work(s.workers, s.nextWorker)
  {
    hide Inv, Enabled, Next;
    StepLowersRank(s, e);
    PlaceOf(s, e.w);
    WorkAfterChange(s.workers, Next(s, e).workers, e.w, s.nextWorker);
  }

  /** No schedule of worker steps is longer than the work that was left. */
  lemma {:induction false} WorkBoundsEverySchedule(s: State, es: seq<Event>)
    requires Inv(s) && Legal(s, es) && (forall i :: 0 <= i < |es| ==> WorkerStep(es[i]))
    ensures |es| <= Work(s.workers, s.nextWorker)
    decreases |es|
  {
    hide Inv, Enabled, Next;
    if es != [] {
      StepKeeps(s, es[0]);
      StepLowersWork(s, es[0]);
      WorkBoundsEverySchedule(Next(s, es[0]), es[1..]);
    }
  }

  /** While a worker is left, some worker can move: the semaphores never deadlock. */
  lemma SomeWorkerCanMove(s: State) returns (e: Event)
    requires Inv(s) && s.workers != map[]
    ensures WorkerStep(e) && Enabled(s, e)
  {
    hide Placed, Unique, Served, Registry, Channels, Memory, Disk, Slots;
    var w :| w in s.workers;
    LimitsOf(s);
    if s.workers[w].pc.WaitTotal? && s.totalUsed == s.totalLimit {
      w := SomeHolder(s, true);
      PlaceOf(s, w);
    }
    if s.workers[w].pc.WaitHeavy? && s.heavyUsed == s.heavyLimit {
      w := SomeHolder(s, false);
      PlaceOf(s, w);
    }
    e := MoveOf(s, w);
  }

  lemma SomeHolder(s: State, total: bool) returns (w: WorkerId)
    requires Slots(s) && GoodLimits(s.totalLimit, s.heavyLimit)
    requires if total then s.totalUsed == s.totalLimit else s.heavyUsed == s.heavyLimit
    ensures w in s.workers && if total then s.workers[w].total else s.workers[w].heavy
  {
    if total {
      assert TotalHolders(s.workers) != {};
      w :| w in TotalHolders(s.workers);
    } else {
      assert HeavyHolders(s.workers) != {};
      w :| w in HeavyHolders(s.workers);
    }
  }

  /** If runners return, every reachable state drains: worker steps alone lead to a state where
      no worker is left, every task is finished, and every waiter has been woken. */
  lemma EveryTaskFinishes(s: State) returns (es: seq<Event>)
    requires Inv(s)
    ensures Legal(s, es) && (forall i :: 0 <= i < |es| ==> WorkerStep(es[i]))
    ensures Inv(Exec(s, es)) && Exec(s, es).workers == map[]
    ensures forall id :: id in Exec(s, es).tasks ==> Exec(s, es).tasks[id].Terminal()
    ensures forall c :: c in Exec(s, es).channels ==> Exec(s, es).channels[c].closed == 1
    decreases Work(s.workers, s.nextWorker)
  {
    if s.workers == map[] {
      es := [];
      AllFinished(s);
    } else {
      hide Inv, Enabled, Next;
      var e := SomeWorkerCanMove(s);
      StepKeeps(s, e);
      StepLowersWork(s, e);
      var rest := EveryTaskFinishes(Next(s, e));
      es := [e] + rest;
      assert es[1..] == rest;
    }
  }

  lemma AllFinished(s: State)
    requires Inv(s) && s.workers == map[]
    ensures forall id :: id in s.tasks ==> s.tasks[id].Terminal()
    ensures forall c :: c in s.channels ==> s.channels[c].closed == 1
  {
    forall id | id in s.tasks ensures s.tasks[id].Terminal() {
      Unfinished(s, id);
      assert s.tasks[id].Active() ==> exists w :: Serves(s, w, id);
    }
  }
}
