/** The durable task manager as a state machine: one event for every section that the
    manager's mutex makes atomic, every channel operation, and every point where the process
    can die. */
module TaskSpec {
  import opened Common

  type TaskId = string
  type WorkerId = nat
  type ChanId = nat

  datatype Status =
    | Queued | Running | Succeeded | Failed | TimedOut | Cancelling | Cancelled | Interrupted

  /** The fields of a tool result that the manager reads or writes. */
  datatype Outcome = Outcome(success: bool, code: string, message: string)

  datatype Task = Task(
    id: TaskId, tool: string, arguments: string, status: Status, progress: real,
    message: string, heavy: bool, durable: bool,
    createdAt: int, startedAt: int, updatedAt: int, completedAt: int,
    result: Option<Outcome>)
  {
    predicate Terminal() {
      status == Succeeded || status == Failed || status == TimedOut || status == Cancelled
    }

    /** A task that some worker still has to finish. */
    predicate Active() {
      status == Queued || status == Running || status == Cancelling
    }
  }

  /** Where a worker goroutine stands in `run`. */
  datatype Pc =
    | WaitTotal                                       // select on totalSem or closed
    | ReadTask                                        // about to read the Heavy flag
    | WaitHeavy                                       // select on heavySem or closed
    | Starting                                        // about to enter the starting section
    | Stopping(message: string)                       // about to run finishCancelled
    | Executing                                       // the runner is running
    | Settling(outcome: Outcome, wasCancelled: bool)  // about to enter the final section
    | Releasing                                       // only the deferred releases are left

  datatype Worker = Worker(id: TaskId, pc: Pc, total: bool, heavy: bool)
  {
    /** Whether the worker may still touch its task. */
    predicate Live() { !pc.Releasing? }
  }

  /** A channel made by Wait, and how often it has been closed. */
  datatype Channel = Channel(id: TaskId, closed: nat)

  datatype State = State(
    totalLimit: nat, heavyLimit: nat,
    up: bool,
    tasks: map<TaskId, Task>,
    cancel: map<TaskId, WorkerId>,
    waiters: map<TaskId, seq<ChanId>>,
    totalUsed: nat, heavyUsed: nat, closed: bool,
    workers: map<WorkerId, Worker>, nextWorker: nat,
    ctxDone: set<WorkerId>, pendingCancels: set<WorkerId>,
    channels: map<ChanId, Channel>,
    disk: map<TaskId, Task>,
    // History: every record a task has held in memory, and the ids Submit has returned.
    seen: set<Task>, submitted: set<TaskId>)

  const QUEUED_MESSAGE := "等待执行"
  const RESUMED_MESSAGE := "服务重启后恢复执行"
  const CANCELLING_MESSAGE := "正在取消"
  const STOPPING_MESSAGE := "服务正在停止"
  const NOT_STARTED_MESSAGE := "任务在启动前取消"
  const RUNNING_MESSAGE := "正在执行"
  const CANCELLED_MESSAGE := "已取消"
  const INTERRUPTED_MESSAGE := "上次进程退出时任务尚未完成"

  // ----- Building blocks -----

  /** An atomic snapshot write replaces the file, or fails and leaves it alone. */
  function Save(disk: map<TaskId, Task>, task: Task, saved: bool): map<TaskId, Task> {
    if saved then disk[task.id := task] else disk
  }

  /** Stores a record in memory and attempts to persist it. */
  function Put(s: State, id: TaskId, task: Task, saved: bool): State {
    s.(tasks := s.tasks[id := task], disk := Save(s.disk, task, saved), seen := s.seen + {task})
  }

  /** Starts a worker goroutine for a task. */
  function Spawn(s: State, id: TaskId): State {
    s.(workers := s.workers[s.nextWorker := Worker(id, WaitTotal, false, false)],
       nextWorker := s.nextWorker + 1)
  }

  function Goto(s: State, w: WorkerId, pc: Pc): State
    requires w in s.workers
  {
    s.(workers := s.workers[w := s.workers[w].(pc := pc)])
  }

  /** Closes every channel registered for a task and forgets them. */
  function Notify(s: State, id: TaskId): State {
    if id !in s.waiters then s
    else s.(channels := CloseAll(s.channels, s.waiters[id]), waiters := s.waiters - {id})
  }

  function CloseAll(channels: map<ChanId, Channel>, chans: seq<ChanId>): map<ChanId, Channel> {
    if chans == [] then channels
    else
      var c := chans[0];
      var next := if c in channels then channels[c := channels[c].(closed := channels[c].closed + 1)]
                  else channels;
      CloseAll(next, chans[1..])
  }

  // ----- Client operations -----

  function NewTask(id: TaskId, tool: string, arguments: string, heavy: bool, durable: bool, now: int): Task {
    Task(id, tool, arguments, Queued, 0.0, QUEUED_MESSAGE, heavy, durable, now, 0, now, 0, None)
  }

  /** Submit: record, persist, spawn; a failed persist takes the record out again. */
  function Submit(s: State, task: Task, saved: bool): State {
    if task.tool == "" || s.closed then s
    else if !saved then s.(seen := s.seen + {task}, tasks := s.tasks - {task.id})
    else Spawn(Put(s, task.id, task, true), task.id).(submitted := s.submitted + {task.id})
  }

  function MarkCancelling(task: Task, now: int): Task {
    task.(status := Cancelling, message := CANCELLING_MESSAGE, updatedAt := now)
  }

  /** The locked part of Cancel. The cancel function is called after unlocking, and only when the
      snapshot was written. */
  function Cancel(s: State, id: TaskId, now: int, saved: bool): State {
    if id !in s.tasks || s.tasks[id].Terminal() then s
    else
      var t := Put(s, id, MarkCancelling(s.tasks[id], now), saved);
      if saved && id in s.cancel then t.(pendingCancels := s.pendingCancels + {s.cancel[id]}) else t
  }

  function Update(s: State, id: TaskId, progress: real, message: string, now: int, saved: bool): State {
    if !(0.0 <= progress <= 1.0) || id !in s.tasks || s.tasks[id].Terminal() then s
    else Put(s, id, s.tasks[id].(progress := progress, message := message, updatedAt := now), saved)
  }

  /** The locked part of Wait: register a new channel unless there is nothing to wait for. */
  function Register(s: State, id: TaskId, c: ChanId): State {
    if id !in s.tasks || s.tasks[id].Terminal() then s
    else
      var before := if id in s.waiters then s.waiters[id] else [];
      s.(waiters := s.waiters[id := before + [c]], channels := s.channels[c := Channel(id, 0)])
  }

  // ----- What the client operations answer -----

  datatype TaskError = ToolRequired | ManagerClosed | NotSaved | NotExist | BadProgress | Finished

  function SubmitReply(s: State, task: Task, saved: bool): Result<Task, TaskError> {
    if task.tool == "" then Err(ToolRequired)
    else if s.closed then Err(ManagerClosed)
    else if !saved then Err(NotSaved)
    else Ok(task)
  }

  function CancelReply(s: State, id: TaskId, now: int, saved: bool): Result<Task, TaskError> {
    if id !in s.tasks then Err(NotExist)
    else if s.tasks[id].Terminal() then Ok(s.tasks[id])
    else if !saved then Err(NotSaved)
    else Ok(MarkCancelling(s.tasks[id], now))
  }

  function UpdateReply(s: State, id: TaskId, progress: real, message: string, now: int, saved: bool)
    : Result<Task, TaskError>
  {
    if !(0.0 <= progress <= 1.0) then Err(BadProgress)
    else if id !in s.tasks then Err(NotExist)
    else if s.tasks[id].Terminal() then Err(Finished)
    else if !saved then Err(NotSaved)
    else Ok(s.tasks[id].(progress := progress, message := message, updatedAt := now))
  }

  /** Wait answers at once for a missing or finished task, and otherwise blocks (None). */
  function WaitReply(s: State, id: TaskId): Option<Result<Task, TaskError>> {
    if id !in s.tasks then Some(Err(NotExist))
    else if s.tasks[id].Terminal() then Some(Ok(s.tasks[id]))
    else None
  }

  /** The second half of Close: every registered cancel function is called. */
  function CancelAll(s: State): State {
    s.(ctxDone := s.ctxDone + s.cancel.Values)
  }

  // ----- Worker steps -----

  function TakeTotal(s: State, w: WorkerId): State
    requires w in s.workers
  {
    s.(workers := s.workers[w := s.workers[w].(pc := ReadTask, total := true)], totalUsed := s.totalUsed + 1)
  }

  function ReadHeavyFlag(s: State, w: WorkerId): State
    requires w in s.workers
  {
    var id := s.workers[w].id;
    if id !in s.tasks then Goto(s, w, Releasing)
    else if s.tasks[id].heavy then Goto(s, w, WaitHeavy)
    else Goto(s, w, Starting)
  }

  function TakeHeavy(s: State, w: WorkerId): State
    requires w in s.workers
  {
    s.(workers := s.workers[w := s.workers[w].(pc := Starting, heavy := true)], heavyUsed := s.heavyUsed + 1)
  }

  function MarkRunning(task: Task, now: int): Task {
    task.(status := Running, message := RUNNING_MESSAGE, startedAt := now, updatedAt := now)
  }

  /** The starting section: a task already being cancelled is not started. */
  function Start(s: State, w: WorkerId, now: int, saved: bool): State
    requires w in s.workers
  {
    var id := s.workers[w].id;
    if id !in s.tasks then Goto(s, w, Releasing)
    else if s.tasks[id].status == Cancelling then Goto(s, w, Stopping(NOT_STARTED_MESSAGE))
    else Goto(Put(s, id, MarkRunning(s.tasks[id], now), saved), w, Executing).(cancel := s.cancel[id := w])
  }

  /** The runner returns and the context is sampled. */
  function Return(s: State, w: WorkerId, outcome: Outcome): State
    requires w in s.workers
  {
    Goto(s, w, Settling(outcome, w in s.ctxDone)).(ctxDone := s.ctxDone + {w})
  }

  function Settled(task: Task, outcome: Outcome, wasCancelled: bool, now: int): Task {
    var t := task.(updatedAt := now, completedAt := now, result := Some(outcome));
    if task.status == Cancelling || wasCancelled then t.(status := Cancelled, message := CANCELLED_MESSAGE)
    else if outcome.success then t.(status := Succeeded, progress := 1.0, message := outcome.message)
    else if outcome.code == "TIMEOUT" then t.(status := TimedOut, message := outcome.message)
    else t.(status := Failed, message := outcome.message)
  }

  /** The final section of a worker that ran its task. */
  function Settle(s: State, w: WorkerId, now: int, saved: bool): State
    requires w in s.workers && s.workers[w].pc.Settling?
  {
    var id, pc := s.workers[w].id, s.workers[w].pc;
    var s1 := Goto(s, w, Releasing).(cancel := s.cancel - {id});
    if id !in s.tasks then s1
    else Notify(Put(s1, id, Settled(s.tasks[id], pc.outcome, pc.wasCancelled, now), saved), id)
  }

  function CancelledTask(task: Task, message: string, now: int): Task {
    task.(status := Cancelled, message := message, updatedAt := now, completedAt := now,
          result := Some(Outcome(false, "CANCELLED", message)))
  }

  /** finishCancelled: the final section of a worker that never ran its task. */
  function FinishCancelled(s: State, w: WorkerId, now: int, saved: bool): State
    requires w in s.workers && s.workers[w].pc.Stopping?
  {
    var id := s.workers[w].id;
    var s1 := Goto(s, w, Releasing);
    if id !in s.tasks || s.tasks[id].Terminal() then s1
    else Notify(Put(s1, id, CancelledTask(s.tasks[id], s.workers[w].pc.message, now), saved), id)
  }

  /** One deferred release, or the end of the goroutine when nothing is held. */
  function Release(s: State, w: WorkerId): State
    requires w in s.workers
    requires s.workers[w].heavy ==> s.heavyUsed > 0
    requires s.workers[w].total ==> s.totalUsed > 0
  {
    var worker := s.workers[w];
    if worker.heavy then
      s.(workers := s.workers[w := worker.(heavy := false)], heavyUsed := s.heavyUsed - 1)
    else if worker.total then
      s.(workers := s.workers[w := worker.(total := false)], totalUsed := s.totalUsed - 1)
    else s.(workers := s.workers - {w})
  }

  // ----- Process death and restart -----

  /** The process dies: only the snapshots, and what clients were told, are left. */
  function Crash(s: State): State {
    s.(up := false, tasks := map[], cancel := map[], waiters := map[], totalUsed := 0, heavyUsed := 0,
       closed := false, workers := map[], ctxDone := {}, pendingCancels := {}, channels := map[])
  }

  /** What load makes of one snapshot. */
  function Loaded(task: Task, now: int): Task {
    if !task.Active() then task
    else if task.durable then task.(status := Interrupted, message := INTERRUPTED_MESSAGE, updatedAt := now)
    else task.(status := Failed, message := INTERRUPTED_MESSAGE, updatedAt := now, completedAt := now,
               result := Some(Outcome(false, "PROCESS_RESTARTED", INTERRUPTED_MESSAGE)))
  }

  /** What ResumeInterrupted makes of one loaded record. */
  function Resumed(task: Task, now: int): Task {
    if task.status == Interrupted && task.durable
    then task.(status := Queued, message := RESUMED_MESSAGE, updatedAt := now)
    else task
  }

  function LoadedAll(disk: map<TaskId, Task>, now: int): map<TaskId, Task> {
    map id | id in disk :: Loaded(disk[id], now)
  }

  /** The records load makes of some of the snapshots. */
  function LoadedSome(disk: map<TaskId, Task>, done: set<TaskId>, now: int): map<TaskId, Task> {
    map id | id in disk && id in done :: Loaded(disk[id], now)
  }

  function ResumedAll(tasks: map<TaskId, Task>, now: int): map<TaskId, Task> {
    map id | id in tasks :: Resumed(tasks[id], now)
  }

  /** New dies or fails part of the way through load: the snapshots in `done` were read and rewritten. */
  function BootFails(s: State, now: int, done: set<TaskId>): State {
    var loaded := LoadedSome(s.disk, done, now);
    s.(disk := s.disk + loaded, seen := s.seen + loaded.Values)
  }

  /** New succeeds and ResumeInterrupted runs: `resaved` are the ids whose second snapshot was
      written, `ids` the resumed tasks in the order their workers are started. */
  function Boot(s: State, now: int, resaved: set<TaskId>, ids: seq<TaskId>): State {
    var loaded := LoadedAll(s.disk, now);
    var resumed := ResumedAll(loaded, now);
    s.(up := true, tasks := resumed,
       disk := map id | id in s.disk :: if id in resaved then resumed[id] else loaded[id],
       seen := s.seen + loaded.Values + resumed.Values,
       workers := map w | s.nextWorker <= w < s.nextWorker + |ids| :: Resumer(ids, s.nextWorker, w),
       nextWorker := s.nextWorker + |ids|)
  }

  function Resumer(ids: seq<TaskId>, first: nat, w: WorkerId): Worker
    requires first <= w < first + |ids|
  {
    Worker(ids[w - first], WaitTotal, false, false)
  }

  /** `ids` lists every snapshot that is to be resumed, once. */
  ghost predicate ToResume(ids: seq<TaskId>, disk: map<TaskId, Task>, now: int) {
    && (forall i, j :: 0 <= i < j < |ids| ==> ids[i] != ids[j])
    && (forall id :: id in ids <==> id in disk && WantsWorker(disk[id], now))
  }

  predicate WantsWorker(task: Task, now: int) {
    Loaded(task, now).status == Interrupted && task.durable
  }

  // ----- Events -----

  datatype Event =
    | ESubmit(task: Task, saved: bool)
    | ECancel(id: TaskId, now: int, saved: bool)
    | ECallCancel(w: WorkerId)
    | EUpdate(id: TaskId, progress: real, message: string, now: int, saved: bool)
    | ERegister(id: TaskId, c: ChanId)
    | EClose
    | ECancelAll
    | ETakeTotal(w: WorkerId)
    | EStopTotal(w: WorkerId)
    | EReadHeavy(w: WorkerId)
    | ETakeHeavy(w: WorkerId)
    | EStopHeavy(w: WorkerId)
    | EStart(w: WorkerId, now: int, saved: bool)
    | EReturn(w: WorkerId, outcome: Outcome)
    | ESettle(w: WorkerId, now: int, saved: bool)
    | EFinishCancelled(w: WorkerId, now: int, saved: bool)
    | ERelease(w: WorkerId)
    | ECrash
    | EBootFails(now: int, done: set<TaskId>)
    | EBoot(now: int, resaved: set<TaskId>, ids: seq<TaskId>)

  predicate At(s: State, w: WorkerId, pc: Pc) {
    w in s.workers && s.workers[w].pc == pc
  }

  ghost predicate Enabled(s: State, e: Event) {
    match e
    // A new task's id is a fresh random UUID, and its other fields are what Submit fills in.
    case ESubmit(task, _) =>
      && s.up && task.id !in s.tasks && task.id !in s.disk
      && task == NewTask(task.id, task.tool, task.arguments, task.heavy, task.durable, task.createdAt)
    case ECancel(_, _, _) => s.up
    case ECallCancel(w) => s.up && w in s.pendingCancels
    case EUpdate(_, _, _, _, _) => s.up
    case ERegister(_, c) => s.up && c !in s.channels
    case EClose => s.up
    case ECancelAll => s.up && s.closed
    case ETakeTotal(w) => At(s, w, WaitTotal) && s.totalUsed < s.totalLimit
    case EStopTotal(w) => At(s, w, WaitTotal) && s.closed
    case EReadHeavy(w) => At(s, w, ReadTask)
    case ETakeHeavy(w) => At(s, w, WaitHeavy) && s.heavyUsed < s.heavyLimit
    case EStopHeavy(w) => At(s, w, WaitHeavy) && s.closed
    case EStart(w, _, _) => At(s, w, Starting)
    case EReturn(w, _) => At(s, w, Executing)
    case ESettle(w, _, _) => w in s.workers && s.workers[w].pc.Settling?
    case EFinishCancelled(w, _, _) => w in s.workers && s.workers[w].pc.Stopping?
    case ERelease(w) =>
      && At(s, w, Releasing)
      && (s.workers[w].heavy ==> s.heavyUsed > 0) && (s.workers[w].total ==> s.totalUsed > 0)
    case ECrash => s.up
    case EBootFails(_, _) => !s.up
    case EBoot(now, _, ids) => !s.up && ToResume(ids, s.disk, now)
  }

  ghost function Next(s: State, e: Event): State
    requires Enabled(s, e)
  {
    match e
    case ESubmit(task, saved) => Submit(s, task, saved)
    case ECancel(id, now, saved) => Cancel(s, id, now, saved)
    case ECallCancel(w) => s.(ctxDone := s.ctxDone + {w}, pendingCancels := s.pendingCancels - {w})
    case EUpdate(id, progress, message, now, saved) => Update(s, id, progress, message, now, saved)
    case ERegister(id, c) => Register(s, id, c)
    case EClose => s.(closed := true)
    case ECancelAll => CancelAll(s)
    case ETakeTotal(w) => TakeTotal(s, w)
    case EStopTotal(w) => Goto(s, w, Stopping(STOPPING_MESSAGE))
    case EReadHeavy(w) => ReadHeavyFlag(s, w)
    case ETakeHeavy(w) => TakeHeavy(s, w)
    case EStopHeavy(w) => Goto(s, w, Stopping(STOPPING_MESSAGE))
    case EStart(w, now, saved) => Start(s, w, now, saved)
    case EReturn(w, outcome) => Return(s, w, outcome)
    case ESettle(w, now, saved) => Settle(s, w, now, saved)
    case EFinishCancelled(w, now, saved) => FinishCancelled(s, w, now, saved)
    case ERelease(w) => Release(s, w)
    case ECrash => Crash(s)
    case EBootFails(now, done) => BootFails(s, now, done)
    case EBoot(now, resaved, ids) => Boot(s, now, resaved, ids)
  }

  ghost predicate Legal(s: State, es: seq<Event>)
    decreases |es|
  {
    es == [] || (Enabled(s, es[0]) && Legal(Next(s, es[0]), es[1..]))
  }

  ghost function Exec(s: State, es: seq<Event>): State
    requires Legal(s, es)
    decreases |es|
  {
    if es == [] then s else Exec(Next(s, es[0]), es[1..])
  }

  /** A machine with an empty state directory and a process about to start on it. */
  function Blank(totalLimit: nat, heavyLimit: nat): State {
    State(totalLimit, heavyLimit, false, map[], map[], map[], 0, 0, false, map[], 0, {}, {}, map[], map[], {}, {})
  }

  /** The limits New accepts. */
  predicate GoodLimits(totalLimit: int, heavyLimit: int) {
    1 <= heavyLimit <= totalLimit
  }
}
