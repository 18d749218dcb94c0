/** What the task manager guarantees over whole runs. */
module TaskTheorems {
  import opened Common
  import opened TaskSpec
  import opened TaskInvariant

  // ----- The one record an event may write -----

  datatype Write = Write(id: TaskId, task: Task, saved: bool)

  function Written(s: State, e: Event): Option<Write> {
    match e
    case ESubmit(task, saved) =>
      if task.tool == "" || s.closed || !saved then None else Some(Write(task.id, task, true))
    case ECancel(id, now, saved) =>
      if id !in s.tasks || s.tasks[id].Terminal() then None
      else Some(Write(id, MarkCancelling(s.tasks[id], now), saved))
    case EUpdate(id, progress, message, now, saved) =>
      if !(0.0 <= progress <= 1.0) || id !in s.tasks || s.tasks[id].Terminal() then None
      else Some(Write(id, s.tasks[id].(progress := progress, message := message, updatedAt := now), saved))
    case EStart(w, now, saved) => WrittenByWorker(s, e)
    case ESettle(w, now, saved) => WrittenByWorker(s, e)
    case EFinishCancelled(w, now, saved) => WrittenByWorker(s, e)
    case _ => None
  }

  function WrittenByWorker(s: State, e: Event): Option<Write>
    requires e.EStart? || e.ESettle? || e.EFinishCancelled?
  {
    if e.w !in s.workers || s.workers[e.w].id !in s.tasks then None
    else
      var worker := s.workers[e.w];
      var task := s.tasks[worker.id];
      if e.EStart? && task.status != Cancelling then
        Some(Write(worker.id, MarkRunning(task, e.now), e.saved))
      else if e.ESettle? && worker.pc.Settling? then
        Some(Write(worker.id, Settled(task, worker.pc.outcome, worker.pc.wasCancelled, e.now), e.saved))
      else if e.EFinishCancelled? && worker.pc.Stopping? && !task.Terminal() then
        Some(Write(worker.id, CancelledTask(task, worker.pc.message, e.now), e.saved))
      else None
  }

  /** Records, snapshots and history after an event follow from the one write it makes. */
  ghost predicate Follows(s: State, t: State, write: Option<Write>) {
    match write
    case None => t.tasks == s.tasks && t.disk == s.disk && t.seen == s.seen
    case Some(r) =>
      && t.tasks == s.tasks[r.id := r.task]
      && t.disk == Save(s.disk, r.task, r.saved)
      && t.seen == s.seen + {r.task}
  }

  /** Only the worker table, the slots and the contexts differ. */
  ghost predicate Unrecorded(s: State, t: State) {
    t.tasks == s.tasks && t.disk == s.disk && t.seen == s.seen
    && t.channels == s.channels && t.submitted == s.submitted
  }

  lemma GotoIsQuiet(s: State, w: WorkerId, pc: Pc)
    requires w in s.workers
    ensures Unrecorded(s, Goto(s, w, pc))
  {}

  lemma TakesAreQuiet(s: State, w: WorkerId)
    requires w in s.workers
    ensures Unrecorded(s, TakeTotal(s, w)) && Unrecorded(s, TakeHeavy(s, w))
  {}

  lemma ReadIsQuiet(s: State, w: WorkerId)
    requires w in s.workers
    ensures Unrecorded(s, ReadHeavyFlag(s, w))
  {
    hide Goto;
    GotoIsQuiet(s, w, Releasing);
    GotoIsQuiet(s, w, WaitHeavy);
    GotoIsQuiet(s, w, Starting);
  }

  lemma ReturnIsQuiet(s: State, w: WorkerId, outcome: Outcome)
    requires w in s.workers
    ensures Unrecorded(s, Return(s, w, outcome))
  {}

  lemma ReleaseIsQuiet(s: State, w: WorkerId)
    requires w in s.workers
    requires s.workers[w].heavy ==> s.heavyUsed > 0
    requires s.workers[w].total ==> s.totalUsed > 0
    ensures Unrecorded(s, Release(s, w))
  {}

  lemma PutWrites(s: State, id: TaskId, task: Task, saved: bool)
    ensures var t := Put(s, id, task, saved);
            Follows(s, t, Some(Write(id, task, saved))) && t.channels == s.channels && t.submitted == s.submitted
  {}

  lemma CancelWrites(s: State, id: TaskId, now: int, saved: bool)
    ensures var t := Cancel(s, id, now, saved);
            Follows(s, t, Written(s, ECancel(id, now, saved))) && t.channels == s.channels && t.submitted == s.submitted
  {
    hide WrittenByWorker, MarkCancelling, Save, Put;
    if id in s.tasks { PutWrites(s, id, MarkCancelling(s.tasks[id], now), saved); }
  }

  lemma UpdateWrites(s: State, id: TaskId, progress: real, message: string, now: int, saved: bool)
    ensures var t := Update(s, id, progress, message, now, saved);
            Follows(s, t, Written(s, EUpdate(id, progress, message, now, saved)))
            && t.channels == s.channels && t.submitted == s.submitted
  {
    hide WrittenByWorker, Save, Put;
    if id in s.tasks {
      PutWrites(s, id, s.tasks[id].(progress := progress, message := message, updatedAt := now), saved);
    }
  }

  lemma RegisterIsQuiet(s: State, id: TaskId, c: ChanId)
    requires c !in s.channels
    ensures var t := Register(s, id, c);
            && t.tasks == s.tasks && t.disk == s.disk && t.seen == s.seen && t.submitted == s.submitted
            && forall k :: k in s.channels ==> k in t.channels && t.channels[k] == s.channels[k]
  {}

  lemma SignalsAreQuiet(s: State, e: Event)
    requires Enabled(s, e) && (e.ECancelAll? || e.EClose? || e.ECallCancel?)
    ensures Unrecorded(s, Next(s, e))
  {}

  lemma SubmitWrites(s: State, task: Task, saved: bool)
    requires task.id !in s.tasks
    ensures var t := Submit(s, task, saved);
            var stored := task.tool != "" && !s.closed && saved;
            && t.tasks == (if stored then s.tasks[task.id := task] else s.tasks)
            && t.disk == (if stored then s.disk[task.id := task] else s.disk)
            && t.channels == s.channels && s.seen <= t.seen <= s.seen + {task}
            && s.submitted <= t.submitted
  {
    hide Save, Put;
    if task.tool != "" && !s.closed {
      if saved {
        PutWrites(s, task.id, task, true);
        SavedOnce(s.disk, task);
      } else {
        assert s.tasks - {task.id} == s.tasks;
      }
    }
  }

  lemma SavedOnce(disk: map<TaskId, Task>, task: Task)
    ensures Save(disk, task, true) == disk[task.id := task]
  {}

  lemma StartWrites(s: State, w: WorkerId, now: int, saved: bool)
    requires w in s.workers
    ensures Follows(s, Start(s, w, now, saved), WrittenByWorker(s, EStart(w, now, saved)))
    ensures Start(s, w, now, saved).channels == s.channels
    ensures Start(s, w, now, saved).submitted == s.submitted
  {
    hide Goto;
    var id := s.workers[w].id;
    if id !in s.tasks { GotoIsQuiet(s, w, Releasing); }
    else if s.tasks[id].status == Cancelling { GotoIsQuiet(s, w, Stopping(NOT_STARTED_MESSAGE)); }
    else { GotoIsQuiet(Put(s, id, MarkRunning(s.tasks[id], now), saved), w, Executing); }
  }

  /** Notify touches no record, and keeps every channel's task. */
  lemma NotifyIsQuiet(s: State, id: TaskId)
    ensures var t := Notify(s, id);
            && t.tasks == s.tasks && t.disk == s.disk && t.seen == s.seen && t.submitted == s.submitted
            && forall c :: c in s.channels ==> c in t.channels && t.channels[c].id == s.channels[c].id
  {
    hide CloseAll;
    if id in s.waiters { CloseAllKeepsIds(s.channels, s.waiters[id]); }
  }

  lemma SettleWrites(s: State, w: WorkerId, now: int, saved: bool)
    requires w in s.workers && s.workers[w].pc.Settling?
    ensures var t := Settle(s, w, now, saved);
            && Follows(s, t, WrittenByWorker(s, ESettle(w, now, saved))) && t.submitted == s.submitted
            && forall c :: c in s.channels ==> c in t.channels && t.channels[c].id == s.channels[c].id
  {
    hide Notify, Goto;
    var id, pc := s.workers[w].id, s.workers[w].pc;
    var g := Goto(s, w, Releasing).(cancel := s.cancel - {id});
    GotoIsQuiet(s, w, Releasing);
    if id in s.tasks {
      NotifyIsQuiet(Put(g, id, Settled(s.tasks[id], pc.outcome, pc.wasCancelled, now), saved), id);
    }
  }

  lemma FinishCancelledWrites(s: State, w: WorkerId, now: int, saved: bool)
    requires w in s.workers && s.workers[w].pc.Stopping?
    ensures var t := FinishCancelled(s, w, now, saved);
            && Follows(s, t, WrittenByWorker(s, EFinishCancelled(w, now, saved))) && t.submitted == s.submitted
            && forall c :: c in s.channels ==> c in t.channels && t.channels[c].id == s.channels[c].id
  {
    hide Notify, Goto;
    var id := s.workers[w].id;
    var g := Goto(s, w, Releasing);
    GotoIsQuiet(s, w, Releasing);
    if id in s.tasks {
      NotifyIsQuiet(Put(g, id, CancelledTask(s.tasks[id], s.workers[w].pc.message, now), saved), id);
    }
  }

  lemma {:induction false} CloseAllKeepsIds(channels: map<ChanId, Channel>, chans: seq<ChanId>)
    ensures forall c :: c in channels ==>
              c in CloseAll(channels, chans) && CloseAll(channels, chans)[c].id == channels[c].id
    decreases |chans|
  {
    if chans != [] {
      var d := chans[0];
      var next := if d in channels then channels[d := channels[d].(closed := channels[d].closed + 1)]
                  else channels;
      CloseAllKeepsIds(next, chans[1..]);
    }
  }

  /** The event makes the one write that Written names: records, snapshots, history and channels
      follow it. */
  ghost predicate WritesOnce(s: State, e: Event)
    requires Enabled(s, e)
  {
    var t, write := Next(s, e), Written(s, e);
    && t.tasks == (match write case None => s.tasks case Some(r) => s.tasks[r.id := r.task])
    && t.disk == (match write case None => s.disk case Some(r) => Save(s.disk, r.task, r.saved))
    && s.seen <= t.seen && s.submitted <= t.submitted
    && t.seen <= s.seen + (if e.ESubmit? then {e.task} else {})
                 + (match write case None => {} case Some(r) => {r.task})
    && forall c :: c in s.channels ==> c in t.channels && t.channels[c].id == s.channels[c].id
  }

  lemma QuietWritesOnce(s: State, e: Event)
    requires Enabled(s, e) && Unrecorded(s, Next(s, e)) && Written(s, e) == None
    ensures WritesOnce(s, e)
  {
    hide Enabled, Next, Written;
  }

  lemma FollowedWritesOnce(s: State, e: Event)
    requires Enabled(s, e) && Follows(s, Next(s, e), Written(s, e)) && Next(s, e).submitted == s.submitted
    requires forall c :: c in s.channels ==> c in Next(s, e).channels && Next(s, e).channels[c].id == s.channels[c].id
    ensures WritesOnce(s, e)
  {
    hide Enabled, Next, Written, Save;
  }

  /** Every event of a running process makes the one write that Written names, and no other. */
  lemma EveryEventWritesOnce(s: State, e: Event)
    requires Enabled(s, e) && !e.ECrash? && !e.EBoot? && !e.EBootFails?
    ensures WritesOnce(s, e)
  {
    if ClientEvent(e) { ClientWritesOnce(s, e); }
    else if e.EStart? || e.ESettle? || e.EFinishCancelled? { WorkerWritesOnce(s, e); }
    else {
      WorkerIsQuiet(s, e);
      WrittenByNone(s, e);
      hide WritesOnce, Unrecorded, Enabled, Next, Written;
      QuietWritesOnce(s, e);
    }
  }

  predicate ClientEvent(e: Event) {
    e.ESubmit? || e.ECancel? || e.ECallCancel? || e.EUpdate? || e.ERegister? || e.EClose? || e.ECancelAll?
  }

  lemma ClientWritesOnce(s: State, e: Event)
    requires Enabled(s, e) && ClientEvent(e)
    ensures WritesOnce(s, e)
  {
    hide Submit, Cancel, Update, Register, CancelAll, Written, Save;
    match e
    case ESubmit(task, saved) => SubmitWrites(s, task, saved); WrittenBySubmit(s, e); SavedOnce(s.disk, task);
    case ECancel(id, now, saved) => CancelWrites(s, id, now, saved); FollowedWritesOnce(s, e);
    case ECallCancel(_) => SignalsAreQuiet(s, e); WrittenByNone(s, e); QuietWritesOnce(s, e);
    case EUpdate(id, progress, message, now, saved) =>
      UpdateWrites(s, id, progress, message, now, saved);
      FollowedWritesOnce(s, e);
    case ERegister(id, c) => RegisterIsQuiet(s, id, c); WrittenByNone(s, e);
    case EClose => SignalsAreQuiet(s, e); WrittenByNone(s, e); QuietWritesOnce(s, e);
    case ECancelAll => SignalsAreQuiet(s, e); WrittenByNone(s, e); QuietWritesOnce(s, e);
  }

  lemma WorkerWritesOnce(s: State, e: Event)
    requires Enabled(s, e) && (e.EStart? || e.ESettle? || e.EFinishCancelled?)
    ensures WritesOnce(s, e)
  {
    hide WritesOnce, Follows, Start, Settle, FinishCancelled, Written, WrittenByWorker;
    WrittenAtWorker(s, e);
    match e {
      case EStart(w, now, saved) => StartWrites(s, w, now, saved);
      case ESettle(w, now, saved) => SettleWrites(s, w, now, saved);
      case EFinishCancelled(w, now, saved) => FinishCancelledWrites(s, w, now, saved);
    }
    FollowedWritesOnce(s, e);
  }

  lemma WorkerIsQuiet(s: State, e: Event)
    requires Enabled(s, e)
    requires e.ETakeTotal? || e.EStopTotal? || e.EReadHeavy? || e.ETakeHeavy? || e.EStopHeavy? || e.EReturn?
             || e.ERelease?
    ensures Unrecorded(s, Next(s, e))
  {
    hide Unrecorded, Goto, TakeTotal, TakeHeavy, ReadHeavyFlag, Return, Release;
    match e
    case ETakeTotal(w) => TakesAreQuiet(s, w);
    case EStopTotal(w) => GotoIsQuiet(s, w, Stopping(STOPPING_MESSAGE));
    case EReadHeavy(w) => ReadIsQuiet(s, w);
    case ETakeHeavy(w) => TakesAreQuiet(s, w);
    case EStopHeavy(w) => GotoIsQuiet(s, w, Stopping(STOPPING_MESSAGE));
    case EReturn(w, outcome) => ReturnIsQuiet(s, w, outcome);
    case ERelease(w) => ReleaseIsQuiet(s, w);
  }

  lemma WrittenBySubmit(s: State, e: Event)
    requires e.ESubmit?
    ensures Written(s, e) == if e.task.tool != "" && !s.closed && e.saved
                             then Some(Write(e.task.id, e.task, true)) else None
  {}

  lemma WrittenAtWorker(s: State, e: Event)
    requires e.EStart? || e.ESettle? || e.EFinishCancelled?
    ensures Written(s, e) == WrittenByWorker(s, e)
  {}

  lemma WrittenByNone(s: State, e: Event)
    requires e.ETakeTotal? || e.EStopTotal? || e.EReadHeavy? || e.ETakeHeavy? || e.EStopHeavy? || e.EReturn? || e.ERelease?
             || e.ECallCancel? || e.ERegister? || e.EClose? || e.ECancelAll?
    ensures Written(s, e) == None
  {}

  /** A record that is written belonged to an unfinished task, keeps its id, and from Cancelling
      only moves on to Cancelled. */
  lemma WritesAreSound(s: State, e: Event)
    requires Inv(s) && Enabled(s, e) && Written(s, e).Some?
    ensures var r := Written(s, e).value;
            && r.task.id == r.id && s.up
            && (r.id in s.tasks ==>
                  && !e.ESubmit? && !s.tasks[r.id].Terminal()
                  && (OnItsWayOut(s.tasks[r.id].status) ==> OnItsWayOut(r.task.status)))
            && (r.id !in s.tasks ==> e.ESubmit? && r.id !in s.disk)
  {
    hide Placed, Unique, Served, Registry, Slots, Channels, Memory, Disk, Next;
    if e.EStart? || e.ESettle? || e.EFinishCancelled? { PlaceOf(s, e.w); }
    else if !e.ESubmit? { Unfinished(s, e.id); }
  }

  /** A run inside one process. */
  predicate SameProcess(es: seq<Event>) {
    forall i :: 0 <= i < |es| ==> !es[i].ECrash?
  }

  // ----- Exactly one worker -----

  /** In every state the machine can reach from an empty directory, each unfinished task has
      exactly one live worker and every other task has none. */
  lemma OneWorkerPerUnfinishedTask(totalLimit: nat, heavyLimit: nat, es: seq<Event>, id: TaskId)
    requires GoodLimits(totalLimit, heavyLimit) && Legal(Blank(totalLimit, heavyLimit), es)
    requires id in Exec(Blank(totalLimit, heavyLimit), es).tasks
    ensures var s := Exec(Blank(totalLimit, heavyLimit), es);
            && (s.tasks[id].Active() <==> exists w :: Serves(s, w, id))
            && (forall w, v :: Serves(s, w, id) && Serves(s, v, id) ==> w == v)
            && (s.tasks[id].Active() || s.tasks[id].Terminal())
  {
    BlankInv(totalLimit, heavyLimit);
    RunKeepsInv(Blank(totalLimit, heavyLimit), es);
    var s := Exec(Blank(totalLimit, heavyLimit), es);
    Unfinished(s, id);
    forall w | Serves(s, w, id) ensures s.tasks[id].Active() { PlaceOf(s, w); }
  }

  // ----- A finished task never changes -----

  lemma FinishedStep(s: State, e: Event, id: TaskId)
    requires Inv(s) && Enabled(s, e) && !e.ECrash?
    requires id in s.tasks && s.tasks[id].Terminal()
    ensures id in Next(s, e).tasks && Next(s, e).tasks[id] == s.tasks[id]
  {
    hide Placed, Unique, Served, Registry, Slots, Channels, Memory, Disk, Next, Written, Enabled;
    UpWithTasks(s, id);
    StaysUp(s, e);
    EveryEventWritesOnce(s, e);
    if Written(s, e).Some? { WritesAreSound(s, e); }
  }

  lemma UpWithTasks(s: State, id: TaskId)
    requires Inv(s) && id in s.tasks
    ensures s.up && id in s.disk && (s.disk[id].Terminal() ==> s.tasks[id] == s.disk[id])
  {
    hide Placed, Unique, Served, Registry, Slots, Channels;
  }

  lemma StaysUp(s: State, e: Event)
    requires Enabled(s, e) && s.up
    ensures !e.EBoot? && !e.EBootFails?
  {}

  /** Status, result and completion time of a finished task survive every interleaving. */
  lemma {:induction false} FinishedForever(s: State, es: seq<Event>, id: TaskId)
    requires Inv(s) && Legal(s, es) && SameProcess(es)
    requires id in s.tasks && s.tasks[id].Terminal()
    ensures id in Exec(s, es).tasks && Exec(s, es).tasks[id] == s.tasks[id]
    decreases |es|
  {
    hide Inv;
    if es != [] {
      assert !es[0].ECrash?;
      StepKeeps(s, es[0]);
      FinishedStep(s, es[0], id);
      FinishedForever(Next(s, es[0]), es[1..], id);
    }
  }

  // ----- A cancelling task can only end cancelled -----

  predicate OnItsWayOut(status: Status) { status == Cancelling || status == Cancelled }

  lemma CancellingStep(s: State, e: Event, id: TaskId)
    requires Inv(s) && Enabled(s, e) && !e.ECrash?
    requires id in s.tasks && OnItsWayOut(s.tasks[id].status)
    ensures id in Next(s, e).tasks && OnItsWayOut(Next(s, e).tasks[id].status)
  {
    hide Placed, Unique, Served, Registry, Slots, Channels, Memory, Disk, Next, Written, Enabled;
    UpWithTasks(s, id);
    StaysUp(s, e);
    EveryEventWritesOnce(s, e);
    if Written(s, e).Some? { WritesAreSound(s, e); }
  }

  lemma {:induction false} CancellingForever(s: State, es: seq<Event>, id: TaskId)
    requires Inv(s) && Legal(s, es) && SameProcess(es)
    requires id in s.tasks && OnItsWayOut(s.tasks[id].status)
    ensures id in Exec(s, es).tasks && OnItsWayOut(Exec(s, es).tasks[id].status)
    decreases |es|
  {
    hide Inv;
    if es != [] {
      assert !es[0].ECrash?;
      StepKeeps(s, es[0]);
      CancellingStep(s, es[0], id);
      CancellingForever(Next(s, es[0]), es[1..], id);
    }
  }

  /** Once Cancel has answered Cancelling, the task's only reachable end in this process is
      Cancelled, whatever the worker, the runner, other clients and Close do. */
  lemma CancelIsBinding(s: State, id: TaskId, now: int, saved: bool, es: seq<Event>)
    requires Inv(s) && s.up
    requires CancelReply(s, id, now, saved).Ok? && CancelReply(s, id, now, saved).value.status == Cancelling
    requires Legal(Cancel(s, id, now, saved), es) && SameProcess(es)
    ensures var t := Exec(Cancel(s, id, now, saved), es);
            id in t.tasks && (t.tasks[id].Terminal() ==> t.tasks[id].status == Cancelled)
  {
    hide Inv, Cancel;
    CancelKeeps(s, id, now, saved);
    CancelMarks(s, id, now, saved);
    CancellingForever(Cancel(s, id, now, saved), es, id);
  }

  lemma CancelMarks(s: State, id: TaskId, now: int, saved: bool)
    requires CancelReply(s, id, now, saved).Ok? && CancelReply(s, id, now, saved).value.status == Cancelling
    ensures id in Cancel(s, id, now, saved).tasks
    ensures Cancel(s, id, now, saved).tasks[id].status == Cancelling
  {
    hide Save;
    if id in s.tasks && !s.tasks[id].Terminal() {
      assert Cancel(s, id, now, saved).tasks == s.tasks[id := MarkCancelling(s.tasks[id], now)] by { hide MarkCancelling; }
    }
  }

  // ----- Crash and restart -----

  /** What a restart makes of every snapshot, at whatever point the process died. */
  lemma RestartRebuildsEveryTask(s: State, now: int, resaved: set<TaskId>, ids: seq<TaskId>, id: TaskId)
    requires Inv(s) && Enabled(s, EBoot(now, resaved, ids)) && id in s.disk
    ensures var t := Next(s, EBoot(now, resaved, ids));
            && t.tasks.Keys == s.disk.Keys
            && (s.disk[id].Terminal() ==>
                  t.tasks[id] == s.disk[id] && forall w :: !Serves(t, w, id))
            && (!s.disk[id].Terminal() && s.disk[id].durable ==>
                  && t.tasks[id].status == Queued
                  && (exists w :: Serves(t, w, id) && t.workers[w].pc == WaitTotal)
                  && (forall w, v :: Serves(t, w, id) && Serves(t, v, id) ==> w == v))
            && (!s.disk[id].Terminal() && !s.disk[id].durable ==>
                  && t.tasks[id].status == Failed
                  && t.tasks[id].result == Some(Outcome(false, "PROCESS_RESTARTED", INTERRUPTED_MESSAGE))
                  && forall w :: !Serves(t, w, id))
  {
    hide Placed, Unique, Served, Registry, Slots, Channels, Memory, Disk, Boot, ToResume;
    var t := Next(s, EBoot(now, resaved, ids));
    BootKeeps(s, now, resaved, ids);
    BootRecords(s, now, resaved, ids, id);
    SnapshotKinds(s, id);
    hide Inv;
    forall w | Serves(t, w, id) ensures t.tasks[id].Active() { PlaceOf(t, w); }
    OneServer(t, id);
  }

  lemma BootRecords(s: State, now: int, resaved: set<TaskId>, ids: seq<TaskId>, id: TaskId)
    requires id in s.disk
    ensures var t := Boot(s, now, resaved, ids);
            && t.tasks.Keys == s.disk.Keys
            && t.tasks[id] == Resumed(Loaded(s.disk[id], now), now)
            && forall w :: w in t.workers ==> t.workers[w].pc == WaitTotal
  {
    hide Loaded, Resumed;
  }

  lemma SnapshotKinds(s: State, id: TaskId)
    requires Disk(s) && id in s.disk
    ensures s.disk[id].Active() || s.disk[id].Terminal() || s.disk[id].status == Interrupted
    ensures s.disk[id].status == Interrupted ==> s.disk[id].durable
  {}

  lemma OneServer(s: State, id: TaskId)
    requires Inv(s) && id in s.tasks
    ensures s.tasks[id].Active() ==> exists w :: Serves(s, w, id)
    ensures forall w, v :: Serves(s, w, id) && Serves(s, v, id) ==> w == v
  {}

  lemma FinishedSnapshotStep(s: State, e: Event, id: TaskId)
    requires Inv(s) && Enabled(s, e) && id in s.disk && s.disk[id].Terminal()
    ensures id in Next(s, e).disk && Next(s, e).disk[id] == s.disk[id]
  {
    hide Inv, Enabled, Next;
    if s.up && !e.ECrash? {
      StaysUp(s, e);
      RunningKeepsFinished(s, e, id);
    } else {
      if !s.up { DownEvents(s, e); }
      RestartsKeepFinished(s, e, id);
    }
  }

  lemma DownEvents(s: State, e: Event)
    requires Inv(s) && Enabled(s, e) && !s.up
    ensures e.EBoot? || e.EBootFails?
  {
    hide Placed, Unique, Served, Registry, Slots, Channels, Memory, Disk;
  }

  lemma RunningKeepsFinished(s: State, e: Event, id: TaskId)
    requires Inv(s) && Enabled(s, e) && id in s.disk && s.disk[id].Terminal()
    requires s.up && !e.ECrash? && !e.EBoot? && !e.EBootFails?
    ensures id in Next(s, e).disk && Next(s, e).disk[id] == s.disk[id]
  {
    hide Inv, Next, Written, Enabled;
    OnDiskInMemory(s, id);
    UpWithTasks(s, id);
    EveryEventWritesOnce(s, e);
    if Written(s, e).Some? { WritesAreSound(s, e); }
  }

  lemma RestartsKeepFinished(s: State, e: Event, id: TaskId)
    requires Enabled(s, e) && id in s.disk && s.disk[id].Terminal()
    requires e.ECrash? || e.EBoot? || e.EBootFails?
    ensures id in Next(s, e).disk && Next(s, e).disk[id] == s.disk[id]
  {}

  lemma OnDiskInMemory(s: State, id: TaskId)
    requires Inv(s) && id in s.disk
    ensures s.up ==> id in s.tasks
  {
    hide Placed, Unique, Served, Registry, Slots, Channels, Memory;
  }

  /** A finished snapshot is never rewritten, through any number of crashes and restarts, and
      whenever a process is up its memory agrees with it. */
  lemma {:induction false} FinishedSnapshotForever(s: State, es: seq<Event>, id: TaskId)
    requires Inv(s) && Legal(s, es) && id in s.disk && s.disk[id].Terminal()
    ensures var t := Exec(s, es);
            && id in t.disk && t.disk[id] == s.disk[id]
            && (t.up ==> id in t.tasks && t.tasks[id] == s.disk[id])
    decreases |es|
  {
    if es == [] {
      OnDiskInMemory(s, id);
      if s.up { UpWithTasks(s, id); }
    } else {
      hide Inv;
      StepKeeps(s, es[0]);
      FinishedSnapshotStep(s, es[0], id);
      FinishedSnapshotForever(Next(s, es[0]), es[1..], id);
    }
  }

  lemma SubmittedStep(s: State, e: Event)
    requires Enabled(s, e)
    ensures s.submitted <= Next(s, e).submitted
  {
    if !e.ECrash? && !e.EBoot? && !e.EBootFails? {
      EveryEventWritesOnce(s, e);
    }
  }

  /** No task whose Submit returned is ever lost: it is on disk in every later state, and in
      memory whenever a process is up. */
  lemma {:induction false} NoSubmittedTaskIsLost(s: State, task: Task, es: seq<Event>)
    requires Inv(s) && Enabled(s, ESubmit(task, true)) && SubmitReply(s, task, true).Ok?
    requires Legal(Submit(s, task, true), es)
    ensures var t := Exec(Submit(s, task, true), es);
            task.id in t.disk && (t.up ==> task.id in t.tasks)
  {
    SubmitKeeps(s, task, true);
    SubmittedForever(Submit(s, task, true), es);
    RunKeepsInv(Submit(s, task, true), es);
  }

  lemma {:induction false} SubmittedForever(s: State, es: seq<Event>)
    requires Legal(s, es)
    ensures s.submitted <= Exec(s, es).submitted
    decreases |es|
  {
    if es != [] {
      SubmittedStep(s, es[0]);
      SubmittedForever(Next(s, es[0]), es[1..]);
    }
  }

  /** The records held in memory while one event happens; a failing load holds those it got to. */
  ghost function Held(s: State, e: Event): set<Task>
    requires Enabled(s, e)
  {
    Next(s, e).tasks.Values
    + (if e.EBoot? then LoadedAll(s.disk, e.now).Values else {})
    + (if e.EBootFails? then LoadedSome(s.disk, e.done, e.now).Values else {})
    + (if e.ESubmit? then {e.task} else {})
  }

  ghost function HeldDuring(s: State, es: seq<Event>): set<Task>
    requires Legal(s, es)
    decreases |es|
  {
    if es == [] then {} else Held(s, es[0]) + HeldDuring(Next(s, es[0]), es[1..])
  }

  lemma RestartSeen(s: State, e: Event)
    requires Enabled(s, e) && (e.ECrash? || e.EBoot? || e.EBootFails?)
    ensures Next(s, e).seen <= s.seen + Held(s, e)
  {
    hide LoadedAll, LoadedSome, ResumedAll, ToResume;
  }

  lemma SeenStep(s: State, e: Event)
    requires Enabled(s, e)
    ensures Next(s, e).seen <= s.seen + Held(s, e)
  {
    if e.ECrash? || e.EBoot? || e.EBootFails? {
      RestartSeen(s, e);
    } else {
      hide Next, Written, Enabled;
      EveryEventWritesOnce(s, e);
      if Written(s, e).Some? {
        var r := Written(s, e).value;
        assert Next(s, e).tasks[r.id] == r.task;
        assert r.task in Next(s, e).tasks.Values;
      }
    }
  }

  lemma {:induction false} SeenDuring(s: State, es: seq<Event>)
    requires Legal(s, es)
    ensures Exec(s, es).seen <= s.seen + HeldDuring(s, es)
    decreases |es|
  {
    if es != [] {
      SeenStep(s, es[0]);
      SeenDuring(Next(s, es[0]), es[1..]);
    }
  }

  /** The disk copy of a task is always a record the task really held, however many later
      writes failed. */
  lemma SnapshotIsARealState(totalLimit: nat, heavyLimit: nat, es: seq<Event>, id: TaskId)
    requires GoodLimits(totalLimit, heavyLimit) && Legal(Blank(totalLimit, heavyLimit), es)
    requires id in Exec(Blank(totalLimit, heavyLimit), es).disk
    ensures var s := Exec(Blank(totalLimit, heavyLimit), es);
            s.disk[id].id == id && s.disk[id] in HeldDuring(Blank(totalLimit, heavyLimit), es)
  {
    BlankInv(totalLimit, heavyLimit);
    RunKeepsInv(Blank(totalLimit, heavyLimit), es);
    SeenDuring(Blank(totalLimit, heavyLimit), es);
  }

  // ----- Waiting -----

  /** An event keeps every channel, and closes it, once, exactly when it finishes its task. */
  lemma EveryFinishWakesItsWaiters(s: State, e: Event, c: ChanId)
    requires Inv(s) && Enabled(s, e) && !e.ECrash? && c in s.channels
    ensures var t := Next(s, e); var id := s.channels[c].id;
            && id in s.tasks && id in t.tasks
            && c in t.channels && t.channels[c].id == id
            && t.channels[c].closed == s.channels[c].closed
                 + (if !s.tasks[id].Terminal() && t.tasks[id].Terminal() then 1 else 0)
  {
    hide Inv, Next, Enabled;
    var t := Next(s, e);
    var id := s.channels[c].id;
    ChannelsStay(s, e, c);
    StepKeeps(s, e);
    ChannelCount(s, c);
    ChannelCount(t, c);
    if s.tasks[id].Terminal() { FinishedStep(s, e, id); }
  }

  /** A channel is closed at most once, and a waiter it wakes sees a finished task. */
  lemma ChannelCount(s: State, c: ChanId)
    requires Inv(s) && c in s.channels
    ensures s.channels[c].id in s.tasks && s.up
    ensures s.channels[c].closed == (if s.tasks[s.channels[c].id].Terminal() then 1 else 0)
  {
    hide Placed, Unique, Served, Registry, Slots, Memory, Disk;
  }

  lemma ChannelsStay(s: State, e: Event, c: ChanId)
    requires Inv(s) && Enabled(s, e) && !e.ECrash? && c in s.channels
    ensures c in Next(s, e).channels && Next(s, e).channels[c].id == s.channels[c].id
  {
    hide Inv, Next, Written;
    ChannelCount(s, c);
    StaysUp(s, e);
    EveryEventWritesOnce(s, e);
  }
}
