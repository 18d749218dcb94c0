/** What becomes of a task: which status a runner's outcome gives it, which steps change its status at
    all, and how a cancellation reaches the runner. */
module TaskOutcomes {
  import opened Common
  import opened TaskSpec
  import opened TaskInvariant
  import opened TaskTheorems

  // ----- The end of a task that ran -----

  /** The record reports the outcome of its runner, or a cancellation on top of it. */
  ghost predicate Reports(task: Task, outcome: Outcome, cancelled: bool) {
    && task.result == Some(outcome)
    && (task.status == Cancelled <==> cancelled)
    && (task.status == Succeeded <==> !cancelled && outcome.success)
    && (task.status == TimedOut <==> !cancelled && !outcome.success && outcome.code == "TIMEOUT")
    && (task.status == Failed <==> !cancelled && !outcome.success && outcome.code != "TIMEOUT")
    && (!cancelled ==> task.message == outcome.message)
    && (!cancelled && outcome.success ==> task.progress == 1.0)
  }

  /** What was ordered stays ordered. */
  predicate SameOrder(a: Task, b: Task) {
    && a.id == b.id && a.tool == b.tool && a.arguments == b.arguments && a.heavy == b.heavy
    && a.durable == b.durable && a.createdAt == b.createdAt
  }

  /** The record of worker `w`'s task before and after its final section. */
  ghost predicate SettledTo(s: State, t: State, w: WorkerId, now: int, saved: bool)
    requires w in s.workers && s.workers[w].pc.Settling?
  {
    var id, pc := s.workers[w].id, s.workers[w].pc;
    && id in s.tasks && id in t.tasks && var before, after := s.tasks[id], t.tasks[id];
    && Reports(after, pc.outcome, before.status == Cancelling || pc.wasCancelled)
    && SameOrder(before, after) && after.startedAt == before.startedAt
    && after.completedAt == now && after.updatedAt == now
    && (after.status != Succeeded ==> after.progress == before.progress)
    && (saved ==> id in t.disk && t.disk[id] == after)
  }

  /** The final section records exactly what the runner returned: cancelled if the task was being
      cancelled or its context was, and otherwise succeeded, timed out or failed as the runner says. */
  lemma SettledAsReported(s: State, w: WorkerId, now: int, saved: bool)
    requires Inv(s) && Enabled(s, ESettle(w, now, saved))
    ensures SettledTo(s, Next(s, ESettle(w, now, saved)), w, now, saved)
  {
    hide Inv, Settle, Settled, Reports;
    PlaceOf(s, w);
    SettleWrites(s, w, now, saved);
    var task, pc := s.tasks[s.workers[w].id], s.workers[w].pc;
    SettledReports(task, pc.outcome, pc.wasCancelled, now);
  }

  lemma SettledReports(task: Task, outcome: Outcome, wasCancelled: bool, now: int)
    ensures var after := Settled(task, outcome, wasCancelled, now);
            && Reports(after, outcome, task.status == Cancelling || wasCancelled)
            && SameOrder(task, after) && after.startedAt == task.startedAt && after.completedAt == after.updatedAt == now
            && (after.status != Succeeded ==> after.progress == task.progress)
  {}

  ghost predicate UnrunTo(s: State, t: State, w: WorkerId, now: int, saved: bool)
    requires w in s.workers && s.workers[w].pc.Stopping?
  {
    var id, message := s.workers[w].id, s.workers[w].pc.message;
    && id in s.tasks && id in t.tasks && var before, after := s.tasks[id], t.tasks[id];
    && after.status == Cancelled && after.message == message
    && after.result == Some(Outcome(false, "CANCELLED", message))
    && SameOrder(before, after) && after.completedAt == now
    && (saved ==> id in t.disk && t.disk[id] == after)
  }

  /** ... and a task that never ran ends cancelled, with a result that says so. */
  lemma UnrunIsCancelled(s: State, w: WorkerId, now: int, saved: bool)
    requires Inv(s) && Enabled(s, EFinishCancelled(w, now, saved))
    ensures UnrunTo(s, Next(s, EFinishCancelled(w, now, saved)), w, now, saved)
  {
    hide Inv, FinishCancelled;
    PlaceOf(s, w);
    FinishCancelledWrites(s, w, now, saved);
  }

  // ----- Every change of status -----

  /** The only ways a record can go from one status to another within a process. */
  ghost predicate Moves(s: State, e: Event, id: TaskId, from: Status, to: Status) {
    || from == to
    || (e.EStart? && Serves(s, e.w, id) && from == Queued && to == Running)
    || (e.ECancel? && e.id == id && (from == Queued || from == Running) && to == Cancelling)
    || (e.EFinishCancelled? && Serves(s, e.w, id) && (from == Queued || from == Cancelling) && to == Cancelled)
    || (e.ESettle? && Serves(s, e.w, id) && from == Cancelling && to == Cancelled)
    || (e.ESettle? && Serves(s, e.w, id) && from == Running
        && (to == Cancelled || to == Succeeded || to == TimedOut || to == Failed))
  }

  /** The diagram of statuses, over every step of every client and worker; and no step changes what
      was ordered. */
  lemma StatusesMoveAsDrawn(s: State, e: Event, id: TaskId)
    requires Inv(s) && Enabled(s, e) && !e.ECrash? && id in s.tasks
    ensures var t := Next(s, e);
            && id in t.tasks && SameOrder(s.tasks[id], t.tasks[id])
            && Moves(s, e, id, s.tasks[id].status, t.tasks[id].status)
  {
    hide Inv, Enabled, Next, Written, Moves, SameOrder, Save;
    UpWithTasks(s, id);
    StaysUp(s, e);
    EveryEventWritesOnce(s, e);
    NoMove(s, e, id, s.tasks[id]);
    if Written(s, e).Some? && Written(s, e).value.id == id {
      WrittenMoves(s, e, id);
    }
  }

  lemma NoMove(s: State, e: Event, id: TaskId, task: Task)
    ensures Moves(s, e, id, task.status, task.status) && SameOrder(task, task)
  {}

  lemma WrittenMoves(s: State, e: Event, id: TaskId)
    requires Inv(s) && Enabled(s, e) && id in s.tasks && s.up
    requires Written(s, e).Some? && Written(s, e).value.id == id
    ensures var task := Written(s, e).value.task;
            SameOrder(s.tasks[id], task) && Moves(s, e, id, s.tasks[id].status, task.status)
  {
    hide Inv;
    if e.EStart? || e.ESettle? || e.EFinishCancelled? {
      PlaceOf(s, e.w);
      WorkerWrites(s, e, id);
    } else {
      hide WrittenByWorker, Settled, CancelledTask, MarkRunning, PcFits;
      Unfinished(s, id);
    }
  }

  lemma WorkerWrites(s: State, e: Event, id: TaskId)
    requires Enabled(s, e) && id in s.tasks && (e.EStart? || e.ESettle? || e.EFinishCancelled?)
    requires Serves(s, e.w, id) && PcFits(s.workers[e.w], s.tasks[id])
    requires WrittenByWorker(s, e).Some?
    ensures var task := WrittenByWorker(s, e).value.task;
            SameOrder(s.tasks[id], task) && Moves(s, e, id, s.tasks[id].status, task.status)
  {}

  // ----- What the other sections record -----

  /** A submitted task is queued, untouched, and as ordered, in memory and on disk, with a new worker. */
  lemma SubmittedAsOrdered(s: State, id: TaskId, tool: string, arguments: string, heavy: bool, durable: bool, now: int)
    requires Inv(s) && s.up && !s.closed && tool != "" && id !in s.tasks && id !in s.disk
    ensures var e := ESubmit(NewTask(id, tool, arguments, heavy, durable, now), true);
            && Enabled(s, e) && var t := Next(s, e);
            && id in t.tasks && t.tasks[id].tool == tool && t.tasks[id].arguments == arguments
            && t.tasks[id].heavy == heavy && t.tasks[id].durable == durable
            && t.tasks[id].createdAt == now == t.tasks[id].updatedAt
            && t.tasks[id].status == Queued && t.tasks[id].progress == 0.0 && t.tasks[id].result == None
            && id in t.disk && t.disk[id] == t.tasks[id]
            && s.nextWorker !in s.workers && Serves(t, s.nextWorker, id) && t.workers[s.nextWorker].pc == WaitTotal
  {
    hide Placed, Unique, Served, Registry, Slots, Channels, Memory, Disk, Down;
    var task := NewTask(id, tool, arguments, heavy, durable, now);
    SubmitWrites(s, task, true);
  }

  /** A worker that begins marks its queued task as running from now on. */
  lemma BegunIsRunning(s: State, w: WorkerId, now: int, saved: bool)
    requires Inv(s) && Enabled(s, EStart(w, now, saved)) && s.tasks[s.workers[w].id].status == Queued
    ensures var id, t := s.workers[w].id, Next(s, EStart(w, now, saved));
            && id in t.tasks && t.tasks[id].status == Running
            && t.tasks[id].startedAt == now == t.tasks[id].updatedAt
            && SameOrder(s.tasks[id], t.tasks[id]) && t.tasks[id].progress == s.tasks[id].progress
            && Serves(t, w, id) && t.workers[w].pc == Executing
  {
    hide Inv, Save;
    PlaceOf(s, w);
  }

  ghost predicate ProgressedTo(s: State, t: State, id: TaskId, progress: real, message: string, now: int, saved: bool)
    requires id in s.tasks
  {
    && id in t.tasks && var before, after := s.tasks[id], t.tasks[id];
    && after == before.(progress := progress, message := message, updatedAt := now)
    && (saved ==> id in t.disk && t.disk[id] == after)
  }

  /** An accepted progress report changes the progress and the message, and nothing else but the time. */
  lemma ProgressIsRecorded(s: State, id: TaskId, progress: real, message: string, now: int, saved: bool)
    requires s.up && id in s.tasks && !s.tasks[id].Terminal() && 0.0 <= progress <= 1.0 && Inv(s)
    ensures ProgressedTo(s, Update(s, id, progress, message, now, saved), id, progress, message, now, saved)
  {
    hide Inv;
    Unfinished(s, id);
    UpdateWrites(s, id, progress, message, now, saved);
    OwnId(s, id);
  }

  lemma OwnId(s: State, id: TaskId)
    requires Inv(s) && id in s.tasks
    ensures s.tasks[id].id == id
  {
    hide Placed, Unique, Served, Numbered, Registry, Slots, Channels, Disk, Down;
  }

  /** A restart keeps every order, and says of each unfinished task what became of it. */
  lemma RestartedAsOrdered(s: State, now: int, resaved: set<TaskId>, ids: seq<TaskId>, id: TaskId)
    requires Inv(s) && Enabled(s, EBoot(now, resaved, ids)) && id in s.disk && !s.disk[id].Terminal()
    ensures var before, t := s.disk[id], Next(s, EBoot(now, resaved, ids));
            && id in t.tasks && var after := t.tasks[id];
            && SameOrder(before, after) && after.progress == before.progress && after.startedAt == before.startedAt
            && after.updatedAt == now
            && (before.durable ==> after.message == RESUMED_MESSAGE && after.result == before.result)
            && (!before.durable ==> after.message == INTERRUPTED_MESSAGE && after.completedAt == now)
  {
    hide Inv, Boot, ToResume;
    DiskPart(s);
    BootRecords(s, now, resaved, ids, id);
    SnapshotKinds(s, id);
    hide Disk;
  }

  lemma DiskPart(s: State)
    requires Inv(s)
    ensures Disk(s)
  {}

  // ----- What clients are answered -----

  /** An operation is answered with a record exactly when that record is then held, and was saved or was
      finished already; every refusal names its cause. */
  lemma CancelAnswers(s: State, id: TaskId, now: int, saved: bool)
    requires Inv(s) && s.up
    ensures var reply, t := CancelReply(s, id, now, saved), Next(s, ECancel(id, now, saved));
            && (reply == Err(NotExist) <==> id !in s.tasks)
            && (reply == Err(NotSaved) <==> id in s.tasks && !s.tasks[id].Terminal() && !saved)
            && (reply.Err? ==> reply == Err(NotExist) || reply == Err(NotSaved))
            && (reply.Ok? ==> id in t.tasks && reply.value == t.tasks[id])
            && (reply.Ok? && !s.tasks[id].Terminal() ==> id in t.disk && t.disk[id] == reply.value)
            && (id in s.tasks && s.tasks[id].Terminal() ==> t.tasks == s.tasks)
  {
    hide Inv, MarkCancelling, Put;
    CancelWrites(s, id, now, saved);
    if id in s.tasks {
      OwnId(s, id);
      CancellingId(s.tasks[id], now);
    }
  }

  lemma CancellingId(task: Task, now: int)
    ensures MarkCancelling(task, now).id == task.id
  {}

  lemma UpdateAnswers(s: State, id: TaskId, progress: real, message: string, now: int, saved: bool)
    requires Inv(s) && s.up
    ensures var reply := UpdateReply(s, id, progress, message, now, saved);
            var t := Next(s, EUpdate(id, progress, message, now, saved));
            && (reply == Err(BadProgress) <==> progress < 0.0 || progress > 1.0)
            && (reply == Err(NotExist) <==> 0.0 <= progress <= 1.0 && id !in s.tasks)
            && (reply == Err(Finished) <==> 0.0 <= progress <= 1.0 && id in s.tasks && s.tasks[id].Terminal())
            && (reply == Err(NotSaved) <==> 0.0 <= progress <= 1.0 && id in s.tasks && !s.tasks[id].Terminal() && !saved)
            && (reply.Ok? ==> id in t.tasks && reply.value == t.tasks[id] && id in t.disk && t.disk[id] == reply.value)
            && (reply.Err? && reply != Err(NotSaved) ==> t == s)
  {
    hide Inv, Put;
    UpdateWrites(s, id, progress, message, now, saved);
    if id in s.tasks { OwnId(s, id); }
  }

  lemma SubmitAnswers(s: State, task: Task, saved: bool)
    requires Enabled(s, ESubmit(task, saved))
    ensures var reply, t := SubmitReply(s, task, saved), Next(s, ESubmit(task, saved));
            && (reply == Err(ToolRequired) <==> task.tool == "")
            && (reply == Err(ManagerClosed) <==> task.tool != "" && s.closed)
            && (reply == Err(NotSaved) <==> task.tool != "" && !s.closed && !saved)
            && (reply.Ok? <==> task.id in t.tasks) && (reply.Ok? <==> task.id in t.disk)
            && (reply.Ok? ==> reply.value == task == t.tasks[task.id] == t.disk[task.id])
            && (reply.Err? ==> t.tasks == s.tasks && t.disk == s.disk && t.workers == s.workers)
  {
    hide NewTask;
    SubmitWrites(s, task, saved);
  }

  /** Wait answers at once exactly for a task that is missing or finished, and otherwise leaves one more
      open channel behind those that wait already. */
  lemma WaitAnswers(s: State, id: TaskId, c: ChanId)
    requires Inv(s) && Enabled(s, ERegister(id, c))
    ensures var reply, t := WaitReply(s, id), Next(s, ERegister(id, c));
            && (reply == Some(Err(NotExist)) <==> id !in s.tasks)
            && (id in s.tasks && s.tasks[id].Terminal() ==> reply == Some(Ok(s.tasks[id])))
            && (reply.None? <==> id in s.tasks && !s.tasks[id].Terminal())
            && (reply.Some? ==> t == s)
            && (reply.None? ==>
                  && t.channels == s.channels[c := Channel(id, 0)]
                  && id in t.waiters && t.waiters[id] == (if id in s.waiters then s.waiters[id] else []) + [c])
  {
    hide Inv;
  }

  // ----- From the runner's return to the record -----

  /** The step of one particular worker. */
  predicate StepOf(e: Event, w: WorkerId) {
    (e.ETakeTotal? || e.EStopTotal? || e.EReadHeavy? || e.ETakeHeavy? || e.EStopHeavy? || e.EStart? || e.EReturn?
     || e.ESettle? || e.EFinishCancelled? || e.ERelease?) && e.w == w
  }

  /** Nothing happened to the other workers. */
  ghost predicate OnlyWorker(s: State, t: State, w: WorkerId) {
    forall v :: v in s.workers && v != w ==> v in t.workers && t.workers[v] == s.workers[v]
  }

  predicate SameContexts(s: State, t: State) {
    t.up == s.up && t.ctxDone == s.ctxDone && t.pendingCancels == s.pendingCancels
  }

  lemma PutTouches(s: State, id: TaskId, task: Task, saved: bool)
    ensures var t := Put(s, id, task, saved);
            t.workers == s.workers && t.nextWorker == s.nextWorker && t.cancel == s.cancel && SameContexts(s, t)
  {}

  lemma NotifyTouches(s: State, id: TaskId)
    ensures Notify(s, id).workers == s.workers && SameContexts(s, Notify(s, id))
  {
    hide CloseAll;
  }

  lemma SubmitTouches(s: State, task: Task, saved: bool)
    ensures OnlyWorker(s, Submit(s, task, saved), s.nextWorker) && SameContexts(s, Submit(s, task, saved))
  {
    hide Put;
    PutTouches(s, task.id, task, true);
  }

  lemma CancelTouches(s: State, id: TaskId, now: int, saved: bool)
    ensures var t := Cancel(s, id, now, saved);
            && t.up == s.up && t.workers == s.workers && t.ctxDone == s.ctxDone
            && t.pendingCancels == s.pendingCancels
               + (if saved && id in s.tasks && !s.tasks[id].Terminal() && id in s.cancel then {s.cancel[id]} else {})
  {
    hide Put, MarkCancelling;
    if id in s.tasks { PutTouches(s, id, MarkCancelling(s.tasks[id], now), saved); }
  }

  lemma UpdateTouches(s: State, id: TaskId, progress: real, message: string, now: int, saved: bool)
    ensures var t := Update(s, id, progress, message, now, saved); t.workers == s.workers && SameContexts(s, t)
  {
    hide Put;
    if id in s.tasks {
      PutTouches(s, id, s.tasks[id].(progress := progress, message := message, updatedAt := now), saved);
    }
  }

  lemma StartTouches(s: State, w: WorkerId, now: int, saved: bool)
    requires w in s.workers
    ensures OnlyWorker(s, Start(s, w, now, saved), w) && SameContexts(s, Start(s, w, now, saved))
  {
    hide Put, MarkRunning, Goto;
    var id := s.workers[w].id;
    if id !in s.tasks { GotoTouches(s, w, Releasing); }
    else if s.tasks[id].status == Cancelling { GotoTouches(s, w, Stopping(NOT_STARTED_MESSAGE)); }
    else {
      var put := Put(s, id, MarkRunning(s.tasks[id], now), saved);
      PutTouches(s, id, MarkRunning(s.tasks[id], now), saved);
      GotoTouches(put, w, Executing);
    }
  }

  lemma SettleTouches(s: State, w: WorkerId, now: int, saved: bool)
    requires w in s.workers && s.workers[w].pc.Settling?
    ensures OnlyWorker(s, Settle(s, w, now, saved), w) && SameContexts(s, Settle(s, w, now, saved))
  {
    hide Put, Settled, Notify;
    var id, pc := s.workers[w].id, s.workers[w].pc;
    var s1 := Goto(s, w, Releasing).(cancel := s.cancel - {id});
    if id in s.tasks {
      var task := Settled(s.tasks[id], pc.outcome, pc.wasCancelled, now);
      PutTouches(s1, id, task, saved);
      NotifyTouches(Put(s1, id, task, saved), id);
    }
  }

  lemma FinishCancelledTouches(s: State, w: WorkerId, now: int, saved: bool)
    requires w in s.workers && s.workers[w].pc.Stopping?
    ensures OnlyWorker(s, FinishCancelled(s, w, now, saved), w) && SameContexts(s, FinishCancelled(s, w, now, saved))
  {
    hide Put, CancelledTask, Notify;
    var id := s.workers[w].id;
    var s1 := Goto(s, w, Releasing);
    if id in s.tasks {
      var task := CancelledTask(s.tasks[id], s.workers[w].pc.message, now);
      PutTouches(s1, id, task, saved);
      NotifyTouches(Put(s1, id, task, saved), id);
    }
  }

  lemma MovesTouch(s: State, e: Event)
    requires Enabled(s, e)
    requires e.ETakeTotal? || e.EStopTotal? || e.EReadHeavy? || e.ETakeHeavy? || e.EStopHeavy? || e.ERelease?
    ensures OnlyWorker(s, Next(s, e), e.w) && SameContexts(s, Next(s, e))
  {
    hide Goto, TakeTotal, TakeHeavy, Release, ReadHeavyFlag, OnlyWorker;
    match e
    case ETakeTotal(w) => TakesTouch(s, w);
    case EStopTotal(w) => GotoTouches(s, w, Stopping(STOPPING_MESSAGE));
    case EReadHeavy(w) => ReadTouches(s, w);
    case ETakeHeavy(w) => TakesTouch(s, w);
    case EStopHeavy(w) => GotoTouches(s, w, Stopping(STOPPING_MESSAGE));
    case ERelease(w) => ReleaseTouches(s, w);
  }

  lemma GotoTouches(s: State, w: WorkerId, pc: Pc)
    requires w in s.workers
    ensures OnlyWorker(s, Goto(s, w, pc), w) && SameContexts(s, Goto(s, w, pc))
  {}

  lemma TakesTouch(s: State, w: WorkerId)
    requires w in s.workers
    ensures OnlyWorker(s, TakeTotal(s, w), w) && SameContexts(s, TakeTotal(s, w))
    ensures OnlyWorker(s, TakeHeavy(s, w), w) && SameContexts(s, TakeHeavy(s, w))
  {}

  lemma ReadTouches(s: State, w: WorkerId)
    requires w in s.workers
    ensures OnlyWorker(s, ReadHeavyFlag(s, w), w) && SameContexts(s, ReadHeavyFlag(s, w))
  {
    hide Goto, OnlyWorker;
    GotoTouches(s, w, Releasing);
    GotoTouches(s, w, WaitHeavy);
    GotoTouches(s, w, Starting);
  }

  lemma ReleaseTouches(s: State, w: WorkerId)
    requires w in s.workers
    requires s.workers[w].heavy ==> s.heavyUsed > 0
    requires s.workers[w].total ==> s.totalUsed > 0
    ensures OnlyWorker(s, Release(s, w), w) && SameContexts(s, Release(s, w))
  {}

  lemma ReturnTouches(s: State, w: WorkerId, outcome: Outcome)
    requires w in s.workers
    ensures var t := Return(s, w, outcome);
            t.up == s.up && OnlyWorker(s, t, w) && t.ctxDone == s.ctxDone + {w} && t.pendingCancels == s.pendingCancels
  {}

  /** What each step does to the other workers and to the contexts. */
  ghost predicate Touches(s: State, e: Event, t: State) {
    t.up == s.up &&
    match e
    case ESubmit(_, _) => OnlyWorker(s, t, s.nextWorker) && SameContexts(s, t)
    case ECancel(id, now, saved) =>
      && t.workers == s.workers && t.ctxDone == s.ctxDone && s.pendingCancels <= t.pendingCancels
    case ECallCancel(w) =>
      t.workers == s.workers && t.ctxDone == s.ctxDone + {w} && t.pendingCancels == s.pendingCancels - {w}
    case EUpdate(_, _, _, _, _) => t.workers == s.workers && SameContexts(s, t)
    case ERegister(_, _) => t.workers == s.workers && SameContexts(s, t)
    case EClose => t.workers == s.workers && SameContexts(s, t)
    case ECancelAll =>
      t.workers == s.workers && t.ctxDone == s.ctxDone + s.cancel.Values && t.pendingCancels == s.pendingCancels
    case EReturn(w, _) => OnlyWorker(s, t, w) && t.ctxDone == s.ctxDone + {w} && t.pendingCancels == s.pendingCancels
    case ECrash => false
    case EBootFails(_, _) => false
    case EBoot(_, _, _) => false
    case _ => OnlyWorker(s, t, e.w) && SameContexts(s, t)
  }

  lemma EveryEventTouches(s: State, e: Event)
    requires Enabled(s, e) && s.up && !e.ECrash?
    ensures Touches(s, e, Next(s, e))
  {
    hide Submit, Cancel, Update, Register, Start, Settle, FinishCancelled, Return, OnlyWorker;
    match e
    case ESubmit(task, saved) => SubmitTouches(s, task, saved);
    case ECancel(id, now, saved) => CancelTouches(s, id, now, saved);
    case ECallCancel(_) =>
    case EUpdate(id, progress, message, now, saved) => UpdateTouches(s, id, progress, message, now, saved);
    case ERegister(id, c) => RegisterTouches(s, id, c);
    case EClose =>
    case ECancelAll =>
    case EStart(w, now, saved) => StartTouches(s, w, now, saved);
    case EReturn(w, outcome) => ReturnTouches(s, w, outcome);
    case ESettle(w, now, saved) => SettleTouches(s, w, now, saved);
    case EFinishCancelled(w, now, saved) => FinishCancelledTouches(s, w, now, saved);
    case ECrash =>
    case EBootFails(_, _) =>
    case EBoot(_, _, _) =>
    case _ => MovesTouch(s, e);
  }

  lemma RegisterTouches(s: State, id: TaskId, c: ChanId)
    ensures Register(s, id, c).workers == s.workers && SameContexts(s, Register(s, id, c))
  {}

  /** Workers stay as they are until they step themselves. */
  lemma OthersStepsKeep(s: State, e: Event, w: WorkerId)
    requires Enabled(s, e) && s.up && !e.ECrash? && w in s.workers && w < s.nextWorker && !StepOf(e, w)
    ensures w in Next(s, e).workers && Next(s, e).workers[w] == s.workers[w]
  {
    hide Enabled, Next;
    EveryEventTouches(s, e);
  }

  predicate Asks(e: Event, id: TaskId) { e.ECancel? && e.id == id }

  predicate Asked(es: seq<Event>, id: TaskId) { exists i :: 0 <= i < |es| && Asks(es[i], id) }

  /** Between the return of worker `w` and the end of its task. `cancelled` says that the task was being
      cancelled when the runner returned, `asked` that a client has asked for it since. */
  ghost predicate InHand(s: State, w: WorkerId, id: TaskId, outcome: Outcome, cancelled: bool, asked: bool) {
    id in s.tasks &&
    if s.tasks[id].Terminal() then Reports(s.tasks[id], outcome, cancelled) || (asked && Reports(s.tasks[id], outcome, true))
    else
      && Serves(s, w, id) && s.workers[w].pc.Settling? && s.workers[w].pc.outcome == outcome
      && (cancelled ==> s.workers[w].pc.wasCancelled || s.tasks[id].status == Cancelling)
      && (s.workers[w].pc.wasCancelled || s.tasks[id].status == Cancelling ==> cancelled || asked)
  }

  lemma ReturnTakesInHand(s: State, w: WorkerId, outcome: Outcome)
    requires Inv(s) && Enabled(s, EReturn(w, outcome))
    ensures var id := s.workers[w].id;
            id in s.tasks && InHand(Next(s, EReturn(w, outcome)), w, id, outcome,
                                    w in s.ctxDone || s.tasks[id].status == Cancelling, false)
  {
    hide Inv;
    PlaceOf(s, w);
  }

  lemma InHandStep(s: State, e: Event, w: WorkerId, id: TaskId, outcome: Outcome, cancelled: bool, asked: bool)
    requires Inv(s) && Enabled(s, e) && !e.ECrash? && InHand(s, w, id, outcome, cancelled, asked)
    ensures InHand(Next(s, e), w, id, outcome, cancelled, asked || Asks(e, id))
  {
    hide Inv, Enabled, Next, Reports;
    if s.tasks[id].Terminal() {
      FinishedStep(s, e, id);
    } else if e.ESettle? && e.w == w {
      SettledAsReported(s, w, e.now, e.saved);
      SettlingEnds(s, e.w, id);
      ReportsEnd(Next(s, e).tasks[id], outcome, s.tasks[id].status == Cancelling || s.workers[w].pc.wasCancelled);
    } else {
      UpWithTasks(s, id);
      PlaceOf(s, w);
      SettlingSteps(s, e, w);
      OthersStepsKeep(s, e, w);
      StatusesMoveAsDrawn(s, e, id);
      OnlyServer(s, e, w, id);
    }
  }

  lemma SettlingEnds(s: State, w: WorkerId, id: TaskId)
    requires Serves(s, w, id)
    ensures s.workers[w].id == id
  {}

  lemma ReportsEnd(task: Task, outcome: Outcome, cancelled: bool)
    requires Reports(task, outcome, cancelled)
    ensures task.Terminal()
  {}

  lemma SettlingSteps(s: State, e: Event, w: WorkerId)
    requires Enabled(s, e) && w in s.workers && s.workers[w].pc.Settling? && !(e.ESettle? && e.w == w)
    ensures !StepOf(e, w)
  {}

  /** No other worker ends the task. */
  lemma OnlyServer(s: State, e: Event, w: WorkerId, id: TaskId)
    requires Inv(s) && Serves(s, w, id) && !StepOf(e, w)
    ensures e.EStart? || e.ESettle? || e.EFinishCancelled? ==> !Serves(s, e.w, id)
  {
    hide Placed, Served, Numbered, Registry, Slots, Channels, Memory, Disk, Down;
  }

  lemma {:induction false} InHandForever(s: State, es: seq<Event>, w: WorkerId, id: TaskId, outcome: Outcome,
                                         cancelled: bool, asked: bool)
    requires Inv(s) && Legal(s, es) && SameProcess(es) && InHand(s, w, id, outcome, cancelled, asked)
    ensures InHand(Exec(s, es), w, id, outcome, cancelled, asked || Asked(es, id))
    decreases |es|
  {
    hide Inv, Enabled, Next, InHand;
    if es != [] {
      var more := asked || Asks(es[0], id);
      assert !es[0].ECrash?;
      StepKeeps(s, es[0]);
      InHandStep(s, es[0], w, id, outcome, cancelled, asked);
      InHandForever(Next(s, es[0]), es[1..], w, id, outcome, cancelled, more);
      AskedFirst(es, id);
    }
  }

  lemma AskedFirst(es: seq<Event>, id: TaskId)
    requires es != []
    ensures Asked(es, id) <==> Asks(es[0], id) || Asked(es[1..], id)
  {
    if Asked(es[1..], id) {
      var i :| 0 <= i < |es[1..]| && Asks(es[1..][i], id);
      assert Asks(es[i + 1], id);
    }
    if Asked(es, id) && !Asks(es[0], id) {
      var i :| 0 <= i < |es| && Asks(es[i], id);
      assert Asks(es[1..][i - 1], id);
    }
  }

  /** From the runner's return to the end, whatever else happens in the process: the finished record
      reports exactly the runner's outcome. It is Cancelled if the task was being cancelled, or its
      context was, when the runner returned; otherwise it is not, unless a client asked for it in
      between, and even then the runner's result is kept. */
  lemma OutcomeArrives(s: State, w: WorkerId, outcome: Outcome, es: seq<Event>)
    requires Inv(s) && Enabled(s, EReturn(w, outcome))
    requires Legal(Next(s, EReturn(w, outcome)), es) && SameProcess(es)
    ensures var id, t := s.workers[w].id, Exec(Next(s, EReturn(w, outcome)), es);
            && id in s.tasks && id in t.tasks
            && var cancelled := w in s.ctxDone || s.tasks[id].status == Cancelling;
               t.tasks[id].Terminal() ==>
                 || Reports(t.tasks[id], outcome, cancelled)
                 || (Asked(es, id) && Reports(t.tasks[id], outcome, true))
  {
    hide Inv, Next, Reports;
    var id := s.workers[w].id;
    ReturnTakesInHand(s, w, outcome);
    StepKeeps(s, EReturn(w, outcome));
    InHandForever(Next(s, EReturn(w, outcome)), es, w, id, outcome, w in s.ctxDone || s.tasks[id].status == Cancelling, false);
  }

  // ----- From the request to the context -----

  /** Cancel marks an unfinished task, and hands over the context of its runner, if it has one, exactly
      when the snapshot was written. */
  lemma CancelHandsOver(s: State, id: TaskId, now: int, saved: bool)
    requires Inv(s) && s.up && id in s.tasks && !s.tasks[id].Terminal()
    ensures var t := Next(s, ECancel(id, now, saved));
            && t.tasks.Keys == s.tasks.Keys && t.tasks[id].status == Cancelling && t.tasks[id].updatedAt == now
            && SameOrder(s.tasks[id], t.tasks[id]) && t.tasks[id].progress == s.tasks[id].progress
            && t.tasks[id].result == s.tasks[id].result
            && t.workers == s.workers && t.ctxDone == s.ctxDone
            && forall w :: w in t.pendingCancels
                 <==> w in s.pendingCancels || (saved && Serves(s, w, id) && HasContext(s.workers[w]))
  {
    hide Inv, Cancel, Save;
    CancelTouches(s, id, now, saved);
    CancelWrites(s, id, now, saved);
    RegisteredContext(s, id);
  }

  lemma RegisteredContext(s: State, id: TaskId)
    requires Inv(s)
    ensures forall w :: Serves(s, w, id) && HasContext(s.workers[w]) <==> id in s.cancel && s.cancel[id] == w
  {
    hide Placed, Unique, Served, Numbered, Slots, Channels, Memory, Disk, Down;
  }

  /** A context is cancelled by the call that Cancel or Close makes for it, or by its own worker once the
      runner has returned; it stays cancelled; and a call that was handed over is made or still to be made. */
  lemma ContextsFollowCalls(s: State, e: Event, w: WorkerId)
    requires Inv(s) && Enabled(s, e) && s.up && !e.ECrash?
    ensures var t := Next(s, e);
            && (w in t.ctxDone <==>
                  || w in s.ctxDone || e == ECallCancel(w) || (e.EReturn? && e.w == w)
                  || (e.ECancelAll? && w in s.workers && HasContext(s.workers[w])))
            && (w in s.pendingCancels ==> w in t.pendingCancels || w in t.ctxDone)
  {
    hide Inv, Enabled, Next, OnlyWorker, HasContext;
    EveryEventTouches(s, e);
    if e.ECancelAll? { ContextValues(s, w); }
  }

  lemma ContextValues(s: State, w: WorkerId)
    requires Inv(s)
    ensures w in s.cancel.Values <==> w in s.workers && HasContext(s.workers[w])
  {
    hide Placed, Unique, Served, Numbered, Slots, Channels, Memory, Disk, Down;
    if w in s.cancel.Values {
      var id :| id in s.cancel && s.cancel[id] == w;
      assert Serves(s, w, id);
    }
  }

  predicate Called(s: State, w: WorkerId) { w in s.pendingCancels || w in s.ctxDone }

  lemma {:induction false} CallsForever(s: State, es: seq<Event>, w: WorkerId)
    requires Inv(s) && Legal(s, es) && SameProcess(es) && s.up && Called(s, w)
    ensures Called(Exec(s, es), w)
    decreases |es|
  {
    hide Inv, Enabled, Next;
    if es != [] {
      assert !es[0].ECrash?;
      StepKeeps(s, es[0]);
      ContextsFollowCalls(s, es[0], w);
      UpStep(s, es[0]);
      CallsForever(Next(s, es[0]), es[1..], w);
    }
  }

  lemma UpStep(s: State, e: Event)
    requires Enabled(s, e) && s.up && !e.ECrash?
    ensures Next(s, e).up
  {
    hide Enabled, Next, OnlyWorker;
    EveryEventTouches(s, e);
  }

  /** After a Cancel that was saved, the context of the task's runner is cancelled or its call is
      outstanding in every later state of the process; the call can always be made; and a runner that
      returns after it ends its task as cancelled. */
  lemma CancelReachesTheRunner(s: State, id: TaskId, w: WorkerId, now: int, es: seq<Event>)
    requires Inv(s) && s.up && Serves(s, w, id) && s.workers[w].pc.Executing?
    requires Legal(Next(s, ECancel(id, now, true)), es) && SameProcess(es)
    ensures var t := Exec(Next(s, ECancel(id, now, true)), es);
            && Called(t, w)
            && (w !in t.ctxDone ==> Enabled(t, ECallCancel(w)) && w in Next(t, ECallCancel(w)).ctxDone)
  {
    hide Inv, Next;
    var c := ECancel(id, now, true);
    PlaceOf(s, w);
    CancelHandsOver(s, id, now, true);
    StepKeeps(s, c);
    UpStep(s, c);
    CallsForever(Next(s, c), es, w);
    UpForever(Next(s, c), es);
    var t := Exec(Next(s, c), es);
    if w !in t.ctxDone {
      RunKeepsInv(Next(s, c), es);
      ContextsFollowCalls(t, ECallCancel(w), w);
    }
  }

  lemma {:induction false} UpForever(s: State, es: seq<Event>)
    requires Legal(s, es) && SameProcess(es) && s.up
    ensures Exec(s, es).up
    decreases |es|
  {
    hide Enabled, Next;
    if es != [] {
      assert !es[0].ECrash?;
      UpStep(s, es[0]);
      UpForever(Next(s, es[0]), es[1..]);
    }
  }
}
