/** The inductive invariant of the task manager: one worker per unfinished task, conserved
    slots, channels closed exactly at the end, and a disk copy that is always a real state. */
module TaskInvariant {
  import opened Common
  import opened TaskSpec

  ghost predicate Serves(s: State, w: WorkerId, id: TaskId) {
    w in s.workers && s.workers[w].Live() && s.workers[w].id == id
  }

  /** What a worker's place in `run` says about its task and its slots. */
  predicate PcFits(worker: Worker, task: Task) {
    match worker.pc
    case WaitTotal => !worker.total && !worker.heavy && NotStarted(task)
    case ReadTask => worker.total && !worker.heavy && NotStarted(task)
    case WaitHeavy => worker.total && !worker.heavy && task.heavy && NotStarted(task)
    case Starting => worker.total && worker.heavy == task.heavy && NotStarted(task)
    case Stopping(_) => (worker.heavy ==> worker.total && task.heavy) && NotStarted(task)
    case Executing => worker.total && worker.heavy == task.heavy && Started(task)
    case Settling(_, _) => worker.total && worker.heavy == task.heavy && Started(task)
    case Releasing => true
  }

  predicate NotStarted(task: Task) { task.status == Queued || task.status == Cancelling }
  predicate Started(task: Task) { task.status == Running || task.status == Cancelling }
  predicate HasContext(worker: Worker) { worker.pc.Executing? || worker.pc.Settling? }

  /** Every live worker serves an unfinished task, and its place fits that task. */
  ghost predicate Placed(s: State) {
    forall w :: w in s.workers && s.workers[w].Live() ==>
      && s.workers[w].id in s.tasks
      && s.tasks[s.workers[w].id].Active()
      && PcFits(s.workers[w], s.tasks[s.workers[w].id])
  }

  /** No two live workers serve the same task. */
  ghost predicate Unique(s: State) {
    forall w, v, id :: Serves(s, w, id) && Serves(s, v, id) ==> w == v
  }

  /** Every unfinished task is served. */
  ghost predicate Served(s: State) {
    forall id :: id in s.tasks && s.tasks[id].Active() ==> exists w :: Serves(s, w, id)
  }

  ghost predicate Numbered(s: State) {
    && (forall w :: w in s.workers ==> w < s.nextWorker)
    && (forall w :: w in s.ctxDone || w in s.pendingCancels ==> w < s.nextWorker)
  }

  /** A cancel function is registered exactly while a worker runs or settles its task. */
  ghost predicate Registry(s: State) {
    && (forall id :: id in s.cancel ==>
          Serves(s, s.cancel[id], id) && HasContext(s.workers[s.cancel[id]]))
    && (forall w :: w in s.workers && HasContext(s.workers[w]) ==>
          s.workers[w].id in s.cancel && s.cancel[s.workers[w].id] == w)
  }

  ghost function TotalHolders(workers: map<WorkerId, Worker>): set<WorkerId> {
    set w | w in workers && workers[w].total
  }

  ghost function HeavyHolders(workers: map<WorkerId, Worker>): set<WorkerId> {
    set w | w in workers && workers[w].heavy
  }

  /** Slot conservation: each semaphore counts exactly its holders. */
  ghost predicate Slots(s: State) {
    && s.totalUsed == |TotalHolders(s.workers)| && s.totalUsed <= s.totalLimit
    && s.heavyUsed == |HeavyHolders(s.workers)| && s.heavyUsed <= s.heavyLimit
  }

  /** A registered channel is open exactly while its task is unfinished, and waits in the list. */
  ghost predicate Channels(s: State) { ListsFit(s) && ChannelsFit(s) }

  /** Waiters are kept for unfinished tasks only, each channel once. */
  ghost predicate ListsFit(s: State) {
    && (forall id :: id in s.waiters ==> id in s.tasks && !s.tasks[id].Terminal())
    && (forall id, i :: id in s.waiters && 0 <= i < |s.waiters[id]| ==>
          s.waiters[id][i] in s.channels && s.channels[s.waiters[id][i]].id == id)
    && (forall id, i, j :: id in s.waiters && 0 <= i < j < |s.waiters[id]| ==>
          s.waiters[id][i] != s.waiters[id][j])
  }

  ghost predicate ChannelsFit(s: State) {
    forall c :: c in s.channels ==>
      && s.channels[c].id in s.tasks
      && s.channels[c].closed == (if s.tasks[s.channels[c].id].Terminal() then 1 else 0)
      && (s.channels[c].closed == 0 ==> s.channels[c].id in s.waiters && c in s.waiters[s.channels[c].id])
  }

  /** Records carry their own id and are remembered; a finished snapshot is the finished record. */
  ghost predicate Memory(s: State) {
    forall id :: id in s.tasks ==>
      && s.tasks[id].id == id && s.tasks[id] in s.seen && s.tasks[id].status != Interrupted
      && id in s.disk
      && (s.disk[id].Terminal() ==> s.tasks[id] == s.disk[id])
  }

  ghost predicate Disk(s: State) {
    && (forall id :: id in s.disk ==>
          && s.disk[id].id == id && s.disk[id] in s.seen
          && (s.disk[id].status == Interrupted ==> s.disk[id].durable)
          && (s.up ==> id in s.tasks))
    && s.submitted <= s.disk.Keys
  }

  ghost predicate Down(s: State) {
    !s.up ==> s.tasks == map[] && s.cancel == map[] && s.waiters == map[] && s.workers == map[]
              && s.channels == map[] && s.totalUsed == 0 && s.heavyUsed == 0
              && s.ctxDone == {} && s.pendingCancels == {} && !s.closed
  }

  ghost predicate Inv(s: State) {
    && GoodLimits(s.totalLimit, s.heavyLimit)
    && Placed(s) && Unique(s) && Served(s) && Numbered(s) && Registry(s)
    && Slots(s) && Channels(s) && Memory(s) && Disk(s) && Down(s)
  }

  lemma BlankInv(totalLimit: nat, heavyLimit: nat)
    requires GoodLimits(totalLimit, heavyLimit)
    ensures Inv(Blank(totalLimit, heavyLimit))
  {}

  // ----- What one change of a worker, a record or a channel keeps -----

  ghost predicate SameElsewhere(before: map<TaskId, Task>, after: map<TaskId, Task>, id: TaskId) {
    after.Keys == before.Keys && forall k :: k in before && k != id ==> after[k] == before[k]
  }

  ghost predicate Staffed(s: State) { Placed(s) && Unique(s) && Served(s) }

  ghost predicate Stored(s: State) { Memory(s) && Disk(s) && Down(s) }

  /** A live worker moves on, together with its own task. */
  lemma WorkerMoves(s: State, t: State, w: WorkerId, worker: Worker)
    requires Staffed(s) && w in s.workers && s.workers[w].Live()
    requires worker.id == s.workers[w].id && t.workers == s.workers[w := worker]
    requires SameElsewhere(s.tasks, t.tasks, worker.id)
    requires worker.Live() <==> t.tasks[worker.id].Active()
    requires PcFits(worker, t.tasks[worker.id])
    ensures Staffed(t)
  {
    forall id | id in t.tasks && t.tasks[id].Active() ensures exists v :: Serves(t, v, id) {
      if id == worker.id { assert Serves(t, w, id); }
      else { var v :| Serves(s, v, id); assert Serves(t, v, id); }
    }
    forall v, u, id | Serves(t, v, id) && Serves(t, u, id) ensures v == u {
      assert Serves(s, v, id) && Serves(s, u, id);
    }
    forall v | v in t.workers && t.workers[v].Live()
      ensures && t.workers[v].id in t.tasks && t.tasks[t.workers[v].id].Active()
              && PcFits(t.workers[v], t.tasks[t.workers[v].id])
    {
      if v != w && t.workers[v].id == worker.id {
        assert Serves(s, v, worker.id) && Serves(s, w, worker.id);
      }
    }
  }

  /** A record changes in a way no worker's place depends on. */
  lemma RecordMoves(s: State, t: State, id: TaskId)
    requires Staffed(s) && t.workers == s.workers
    requires id in s.tasks && SameElsewhere(s.tasks, t.tasks, id)
    requires s.tasks[id].Active() && t.tasks[id].Active() && t.tasks[id].heavy == s.tasks[id].heavy
    requires t.tasks[id].status == s.tasks[id].status || t.tasks[id].status == Cancelling
    ensures Staffed(t)
  {
    forall k | k in t.tasks && t.tasks[k].Active() ensures exists v :: Serves(t, v, k) {
      var v :| Serves(s, v, k);
      assert Serves(t, v, k);
    }
    forall v, u, k | Serves(t, v, k) && Serves(t, u, k) ensures v == u {
      assert Serves(s, v, k) && Serves(s, u, k);
    }
  }

  /** A worker that no longer touches a task changes or ends. */
  lemma DoneWorkerMoves(s: State, t: State, w: WorkerId)
    requires Staffed(s) && w in s.workers && !s.workers[w].Live() && t.tasks == s.tasks
    requires forall v :: v != w ==> (v in t.workers <==> v in s.workers)
    requires forall v :: v != w && v in s.workers ==> t.workers[v] == s.workers[v]
    requires w in t.workers ==> !t.workers[w].Live()
    ensures Staffed(t)
  {
    forall k | k in t.tasks && t.tasks[k].Active() ensures exists v :: Serves(t, v, k) {
      var v :| Serves(s, v, k);
      assert Serves(t, v, k);
    }
    forall v, u, k | Serves(t, v, k) && Serves(t, u, k) ensures v == u {
      assert Serves(s, v, k) && Serves(s, u, k);
    }
  }

  /** The registry follows a worker that neither gains nor loses a context. */
  lemma RegistryKept(s: State, t: State, w: WorkerId)
    requires Registry(s) && t.cancel == s.cancel && w in s.workers && w in t.workers
    requires t.workers == s.workers[w := t.workers[w]] && t.workers[w].id == s.workers[w].id
    requires HasContext(t.workers[w]) <==> HasContext(s.workers[w])
    ensures Registry(t)
  {
    forall id | id in t.cancel
      ensures Serves(t, t.cancel[id], id) && HasContext(t.workers[t.cancel[id]])
    {
      assert Serves(s, s.cancel[id], id);
    }
  }

  lemma HoldersAfterUpdate(workers: map<WorkerId, Worker>, w: WorkerId, worker: Worker)
    ensures TotalHolders(workers[w := worker]) ==
            if worker.total then TotalHolders(workers) + {w} else TotalHolders(workers) - {w}
    ensures HeavyHolders(workers[w := worker]) ==
            if worker.heavy then HeavyHolders(workers) + {w} else HeavyHolders(workers) - {w}
  {}

  /** Moving a worker without taking or giving back a slot. */
  lemma SlotsKept(s: State, t: State, w: WorkerId, worker: Worker)
    requires Slots(s) && w in s.workers && t.workers == s.workers[w := worker]
    requires worker.total == s.workers[w].total && worker.heavy == s.workers[w].heavy
    requires t.totalUsed == s.totalUsed && t.heavyUsed == s.heavyUsed
    requires t.totalLimit == s.totalLimit && t.heavyLimit == s.heavyLimit
    ensures Slots(t)
  {
    hide TotalHolders, HeavyHolders;
    HolderIff(s.workers, w);
    HoldersAfterUpdate(s.workers, w, worker);
    assert TotalHolders(t.workers) == TotalHolders(s.workers);
    assert HeavyHolders(t.workers) == HeavyHolders(s.workers);
  }

  /** A record that is not finished yet may change, whether or not its snapshot is written. */
  lemma PutKeepsStored(s: State, id: TaskId, task: Task, saved: bool)
    requires Stored(s) && s.up && id in s.tasks && !s.tasks[id].Terminal()
    requires task.id == id && task.status != Interrupted
    ensures Stored(Put(s, id, task, saved))
  {
    assert !s.disk[id].Terminal();
  }

  lemma PutKeepsChannels(s: State, id: TaskId, task: Task, saved: bool)
    requires Channels(s) && id in s.tasks && !s.tasks[id].Terminal() && !task.Terminal()
    ensures Channels(Put(s, id, task, saved))
  {}

  /** Closing a list of distinct channels closes each of them once more and no other. */
  lemma {:induction false} CloseAllCloses(channels: map<ChanId, Channel>, chans: seq<ChanId>)
    requires forall i, j :: 0 <= i < j < |chans| ==> chans[i] != chans[j]
    requires forall i :: 0 <= i < |chans| ==> chans[i] in channels
    ensures CloseAll(channels, chans).Keys == channels.Keys
    ensures forall c :: c in channels ==>
              CloseAll(channels, chans)[c] ==
              (if c in chans then channels[c].(closed := channels[c].closed + 1) else channels[c])
    decreases |chans|
  {
    if chans != [] {
      var c := chans[0];
      var next := channels[c := channels[c].(closed := channels[c].closed + 1)];
      assert forall i :: 0 <= i < |chans[1..]| ==> chans[1..][i] == chans[i + 1];
      CloseAllCloses(next, chans[1..]);
      assert c !in chans[1..];
      assert forall d :: d in chans <==> d == c || d in chans[1..];
    }
  }

  /** Who waits on which channel, after a task's channels were closed. */
  lemma NotifyCloses(s: State, id: TaskId, task: Task, saved: bool)
    requires Channels(s) && id in s.tasks && !s.tasks[id].Terminal()
    ensures Notified(s, Notify(Put(s, id, task, saved), id), id, task)
  {
    if id in s.waiters { CloseAllCloses(s.channels, s.waiters[id]); }
  }

  /** A task is finished, and its channels are closed and forgotten. */
  ghost predicate Notified(s: State, t: State, id: TaskId, task: Task) {
    && t.tasks == s.tasks[id := task] && t.waiters == s.waiters - {id} && t.channels.Keys == s.channels.Keys
    && forall c :: c in s.channels ==>
         t.channels[c] == if s.channels[c].id == id then Channel(id, s.channels[c].closed + 1) else s.channels[c]
  }

  lemma FinishKeepsLists(s: State, t: State, id: TaskId, task: Task)
    requires ListsFit(s) && Notified(s, t, id, task)
    ensures ListsFit(t)
  {}

  lemma FinishKeepsCounts(s: State, t: State, id: TaskId, task: Task)
    requires ChannelsFit(s) && Notified(s, t, id, task) && id in s.tasks && !s.tasks[id].Terminal() && task.Terminal()
    ensures ChannelsFit(t)
  {}

  /** Finishing a task closes every channel registered for it, once. */
  lemma FinishKeepsChannels(s: State, id: TaskId, task: Task, saved: bool)
    requires Channels(s) && id in s.tasks && !s.tasks[id].Terminal() && task.Terminal()
    ensures Channels(Notify(Put(s, id, task, saved), id))
  {
    NotifyCloses(s, id, task, saved);
    hide Notify, Put, ListsFit, ChannelsFit;
    FinishKeepsLists(s, Notify(Put(s, id, task, saved), id), id, task);
    FinishKeepsCounts(s, Notify(Put(s, id, task, saved), id), id, task);
  }

  // ----- What stays when the rest of the state changes -----

  /** Staffing depends only on the records and the workers. */
  lemma StaffedSame(s: State, t: State)
    requires Staffed(s) && t.tasks == s.tasks && t.workers == s.workers
    ensures Staffed(t)
  {
    forall id | id in t.tasks && t.tasks[id].Active() ensures exists w :: Serves(t, w, id) {
      var w :| Serves(s, w, id);
      assert Serves(t, w, id);
    }
    assert forall w, id :: Serves(t, w, id) == Serves(s, w, id);
  }

  lemma RegistrySame(s: State, t: State)
    requires Registry(s) && t.workers == s.workers && t.cancel == s.cancel
    ensures Registry(t)
  {
    assert forall w, id :: Serves(t, w, id) == Serves(s, w, id);
  }

  lemma StoredSame(s: State, t: State)
    requires Stored(s) && s.up && t.up && t.tasks == s.tasks && t.disk == s.disk
    requires s.seen <= t.seen && t.submitted == s.submitted
    ensures Stored(t)
  {}

  lemma ChannelsSame(s: State, t: State)
    requires Channels(s) && t.tasks == s.tasks && t.waiters == s.waiters && t.channels == s.channels
    ensures Channels(t)
  {}

  lemma SlotsSame(s: State, t: State)
    requires Slots(s) && t.workers == s.workers && t.totalUsed == s.totalUsed && t.heavyUsed == s.heavyUsed
    requires t.totalLimit == s.totalLimit && t.heavyLimit == s.heavyLimit
    ensures Slots(t)
  {}

  /** Where a live worker stands, and what it serves. */
  lemma PlaceOf(s: State, w: WorkerId)
    requires Inv(s) && w in s.workers
    ensures s.up && w < s.nextWorker
    ensures s.workers[w].Live() ==>
              && s.workers[w].id in s.tasks
              && s.tasks[s.workers[w].id].Active()
              && s.tasks[s.workers[w].id].id == s.workers[w].id
              && PcFits(s.workers[w], s.tasks[s.workers[w].id])
  {
    hide Unique, Served, Registry, Slots, Channels;
  }

  // ----- Client operations -----

  lemma SubmitKeeps(s: State, task: Task, saved: bool)
    requires Inv(s) && Enabled(s, ESubmit(task, saved))
    ensures Inv(Submit(s, task, saved))
  {
    hide Placed, Unique, Served, Registry, Slots, Channels, Memory, Disk;
    var t := Submit(s, task, saved);
    if task.tool == "" || s.closed {
    } else if !saved {
      assert t.tasks == s.tasks;
      SignalsKeep(s, t);
    } else {
      SpawnKeepsStaffed(s, t, task);
      SpawnKeepsSlots(s, t, task.id);
      SubmitKeepsRest(s, t, task);
    }
  }

  lemma SpawnKeepsSlots(s: State, t: State, id: TaskId)
    requires Slots(s) && Numbered(s)
    requires t.workers == s.workers[s.nextWorker := Worker(id, WaitTotal, false, false)]
    requires t.totalUsed == s.totalUsed && t.heavyUsed == s.heavyUsed
    requires t.totalLimit == s.totalLimit && t.heavyLimit == s.heavyLimit
    ensures Slots(t)
  {
    assert s.nextWorker !in s.workers;
    HoldersAfterUpdate(s.workers, s.nextWorker, Worker(id, WaitTotal, false, false));
    assert TotalHolders(t.workers) == TotalHolders(s.workers);
    assert HeavyHolders(t.workers) == HeavyHolders(s.workers);
  }

  lemma SpawnKeepsStaffed(s: State, t: State, task: Task)
    requires Staffed(s) && Numbered(s) && task.id !in s.tasks && task.status == Queued
    requires t.tasks == s.tasks[task.id := task]
    requires t.workers == s.workers[s.nextWorker := Worker(task.id, WaitTotal, false, false)]
    ensures Staffed(t)
  {
    assert s.nextWorker !in s.workers;
    forall id | id in t.tasks && t.tasks[id].Active() ensures exists w :: Serves(t, w, id) {
      if id == task.id { assert Serves(t, s.nextWorker, id); }
      else { var w :| Serves(s, w, id); assert Serves(t, w, id); }
    }
    forall w, v, id | Serves(t, w, id) && Serves(t, v, id) ensures w == v {
      if id != task.id { assert Serves(s, w, id) && Serves(s, v, id); }
    }
  }

  lemma SubmitKeepsRest(s: State, t: State, task: Task)
    requires Registry(s) && Numbered(s) && Channels(s) && Stored(s)
    requires Enabled(s, ESubmit(task, true)) && t == Submit(s, task, true)
    requires task.tool != "" && !s.closed
    ensures Registry(t) && Numbered(t) && Channels(t) && Stored(t)
  {
    SubmitShape(s, t, task);
    hide Submit, Put, Spawn;
    SubmitKeepsRegistry(s, t, task);
    SubmitKeepsChannels(s, t, task);
    SubmitKeepsStored(s, t, task);
  }

  /** What an accepted submission changes, and nothing else. */
  ghost predicate Submitted(s: State, t: State, task: Task) {
    t == s.(tasks := s.tasks[task.id := task], disk := s.disk[task.id := task], seen := s.seen + {task},
            workers := s.workers[s.nextWorker := Worker(task.id, WaitTotal, false, false)],
            nextWorker := s.nextWorker + 1, submitted := s.submitted + {task.id})
  }

  lemma SubmitShape(s: State, t: State, task: Task)
    requires task.tool != "" && !s.closed && t == Submit(s, task, true)
    ensures Submitted(s, t, task)
  {}

  lemma SubmitKeepsRegistry(s: State, t: State, task: Task)
    requires Registry(s) && Numbered(s) && Submitted(s, t, task)
    ensures Registry(t) && Numbered(t)
  {
    assert s.nextWorker !in s.workers;
    forall id | id in t.cancel
      ensures Serves(t, t.cancel[id], id) && HasContext(t.workers[t.cancel[id]])
    {
      assert Serves(s, s.cancel[id], id);
    }
  }

  lemma SubmitKeepsChannels(s: State, t: State, task: Task)
    requires Channels(s) && Submitted(s, t, task) && task.id !in s.tasks
    ensures Channels(t)
  {}

  lemma SubmitKeepsStored(s: State, t: State, task: Task)
    requires Stored(s) && Submitted(s, t, task) && Enabled(s, ESubmit(task, true))
    ensures Stored(t)
  {
    NewTaskIsQueued(task);
    hide NewTask;
    SubmitKeepsMemory(s, t, task);
    hide Memory;
  }

  lemma NewTaskIsQueued(task: Task)
    ensures NewTask(task.id, task.tool, task.arguments, task.heavy, task.durable, task.createdAt).status == Queued
  {}

  lemma SubmitKeepsMemory(s: State, t: State, task: Task)
    requires Memory(s) && Submitted(s, t, task) && task.id !in s.tasks && task.id !in s.disk && task.status == Queued
    ensures Memory(t)
  {}

  lemma CancelKeeps(s: State, id: TaskId, now: int, saved: bool)
    requires Inv(s) && s.up
    ensures Inv(Cancel(s, id, now, saved))
  {
    hide Placed, Unique, Served, Registry, Slots, Channels, Memory, Disk;
    if id in s.tasks && !s.tasks[id].Terminal() {
      var p := Put(s, id, MarkCancelling(s.tasks[id], now), saved);
      Unfinished(s, id);
      PutKeepsActive(s, id, MarkCancelling(s.tasks[id], now), saved);
      if saved && id in s.cancel {
        CancelTarget(s, id);
        SignalsKeep(p, Cancel(s, id, now, saved));
      }
    }
  }

  /** The worker a registered cancel function belongs to. */
  lemma CancelTarget(s: State, id: TaskId)
    requires Inv(s) && id in s.cancel
    ensures Serves(s, s.cancel[id], id) && s.cancel[id] < s.nextWorker
  {
    hide Unique, Served, Slots, Channels, Memory, Disk;
  }

  /** Marking contexts, noting cancel calls and closing the manager disturb nothing else. */
  lemma SignalsKeep(s: State, t: State)
    requires Inv(s) && s.up && s.seen <= t.seen
    requires t == s.(ctxDone := t.ctxDone, pendingCancels := t.pendingCancels, closed := t.closed, seen := t.seen)
    requires forall w :: w in t.ctxDone || w in t.pendingCancels ==> w < s.nextWorker
    ensures Inv(t)
  {
    hide Placed, Unique, Served, Registry, Slots, Channels, Memory, Disk;
    StaffedSame(s, t);
    RegistrySame(s, t);
    SlotsSame(s, t);
    ChannelsSame(s, t);
    StoredSame(s, t);
  }

  lemma PutKeepsActive(s: State, id: TaskId, task: Task, saved: bool)
    requires Inv(s) && s.up && id in s.tasks && !s.tasks[id].Terminal()
    requires task.id == id && task.Active() && task.heavy == s.tasks[id].heavy
    requires task.status == s.tasks[id].status || task.status == Cancelling
    ensures Inv(Put(s, id, task, saved))
  {
    hide Placed, Unique, Served, Registry, Slots, Channels, Memory, Disk;
    var t := Put(s, id, task, saved);
    Unfinished(s, id);
    RecordMoves(s, t, id);
    PutKeepsStored(s, id, task, saved);
    PutKeepsChannels(s, id, task, saved);
    RegistrySame(s, t);
    SlotsSame(s, t);
  }

  lemma Unfinished(s: State, id: TaskId)
    requires Inv(s) && id in s.tasks
    ensures s.tasks[id].id == id && (s.tasks[id].Active() || s.tasks[id].Terminal())
  {
    hide Placed, Unique, Served, Registry, Slots, Channels;
  }

  lemma UpdateKeeps(s: State, id: TaskId, progress: real, message: string, now: int, saved: bool)
    requires Inv(s) && s.up
    ensures Inv(Update(s, id, progress, message, now, saved))
  {
    hide Placed, Unique, Served, Registry, Slots, Channels, Memory, Disk;
    if 0.0 <= progress <= 1.0 && id in s.tasks && !s.tasks[id].Terminal() {
      Unfinished(s, id);
      PutKeepsActive(s, id, s.tasks[id].(progress := progress, message := message, updatedAt := now), saved);
    }
  }

  lemma RegisterKeeps(s: State, id: TaskId, c: ChanId)
    requires Inv(s) && Enabled(s, ERegister(id, c))
    ensures Inv(Register(s, id, c))
  {
    hide Placed, Unique, Served, Registry, Slots, Channels, Memory, Disk;
    var t := Register(s, id, c);
    StaffedSame(s, t);
    RegistrySame(s, t);
    SlotsSame(s, t);
    RegisterKeepsChannels(s, id, c);
    StoredSame(s, t);
  }

  lemma RegisterKeepsChannels(s: State, id: TaskId, c: ChanId)
    requires Channels(s) && c !in s.channels
    ensures Channels(Register(s, id, c))
  {
    RegisterKeepsLists(s, id, c);
    RegisterKeepsCounts(s, id, c);
    hide ListsFit, ChannelsFit;
  }

  lemma RegisterKeepsLists(s: State, id: TaskId, c: ChanId)
    requires ListsFit(s) && c !in s.channels
    ensures ListsFit(Register(s, id, c))
  {}

  lemma RegisterKeepsCounts(s: State, id: TaskId, c: ChanId)
    requires ChannelsFit(s) && c !in s.channels
    ensures ChannelsFit(Register(s, id, c))
  {}

  lemma CancelAllKeeps(s: State)
    requires Inv(s) && s.up
    ensures Inv(CancelAll(s))
  {
    hide Placed, Unique, Served, Registry, Slots, Channels, Memory, Disk;
    forall w | w in s.cancel.Values ensures w < s.nextWorker {
      var id :| id in s.cancel && s.cancel[id] == w;
      CancelTarget(s, id);
    }
    SignalsKeep(s, CancelAll(s));
  }

  // ----- Worker steps -----

  /** A worker moves inside `run` without touching a record, a slot, a context or a channel. */
  lemma GotoKeeps(s: State, w: WorkerId, pc: Pc)
    requires Inv(s) && w in s.workers && s.workers[w].Live() && !pc.Releasing?
    requires PcFits(s.workers[w].(pc := pc), s.tasks[s.workers[w].id])
    requires HasContext(s.workers[w].(pc := pc)) <==> HasContext(s.workers[w])
    ensures Inv(Goto(s, w, pc))
  {
    hide Placed, Unique, Served, Registry, Slots, Channels, Memory, Disk;
    var t := Goto(s, w, pc);
    PlaceOf(s, w);
    WorkerMoves(s, t, w, s.workers[w].(pc := pc));
    RegistryKept(s, t, w);
    SlotsKept(s, t, w, s.workers[w].(pc := pc));
    ChannelsSame(s, t);
    StoredSame(s, t);
  }

  lemma TakeTotalKeeps(s: State, w: WorkerId)
    requires Inv(s) && Enabled(s, ETakeTotal(w))
    ensures Inv(TakeTotal(s, w))
  {
    hide Placed, Unique, Served, Registry, Slots, Channels, Memory, Disk;
    var t := TakeTotal(s, w);
    PlaceOf(s, w);
    WorkerMoves(s, t, w, t.workers[w]);
    RegistryKept(s, t, w);
    SlotTaken(s, t, w);
    ChannelsSame(s, t);
    StoredSame(s, t);
  }

  lemma TakeHeavyKeeps(s: State, w: WorkerId)
    requires Inv(s) && Enabled(s, ETakeHeavy(w))
    ensures Inv(TakeHeavy(s, w))
  {
    hide Placed, Unique, Served, Registry, Slots, Channels, Memory, Disk;
    var t := TakeHeavy(s, w);
    PlaceOf(s, w);
    WorkerMoves(s, t, w, t.workers[w]);
    RegistryKept(s, t, w);
    SlotTaken(s, t, w);
    ChannelsSame(s, t);
    StoredSame(s, t);
  }

  /** A worker takes one of the two slots. */
  lemma SlotTaken(s: State, t: State, w: WorkerId)
    requires Slots(s) && w in s.workers && w in t.workers && t.workers == s.workers[w := t.workers[w]]
    requires t.totalLimit == s.totalLimit && t.heavyLimit == s.heavyLimit
    requires
      || (t.workers[w] == s.workers[w].(pc := ReadTask, total := true) && !s.workers[w].total
          && t.totalUsed == s.totalUsed + 1 <= s.totalLimit && t.heavyUsed == s.heavyUsed)
      || (t.workers[w] == s.workers[w].(pc := Starting, heavy := true) && !s.workers[w].heavy
          && t.heavyUsed == s.heavyUsed + 1 <= s.heavyLimit && t.totalUsed == s.totalUsed)
    ensures Slots(t)
  {
    HoldersAfterUpdate(s.workers, w, t.workers[w]);
    hide TotalHolders, HeavyHolders;
  }

  /** A worker has begun to run its task, whose record is now `task`. */
  ghost predicate Began(s: State, t: State, w: WorkerId, task: Task, saved: bool)
    requires w in s.workers
  {
    var id := s.workers[w].id; var p := Put(s, id, task, saved);
    && t == p.(workers := t.workers, cancel := t.cancel)
    && t.workers == s.workers[w := s.workers[w].(pc := Executing)] && t.cancel == s.cancel[id := w]
    && p == s.(tasks := s.tasks[id := task], disk := p.disk, seen := p.seen)
  }

  lemma StartBegins(s: State, w: WorkerId, now: int, saved: bool)
    requires At(s, w, Starting) && s.workers[w].id in s.tasks && s.tasks[s.workers[w].id].status != Cancelling
    ensures Began(s, Start(s, w, now, saved), w, MarkRunning(s.tasks[s.workers[w].id], now), saved)
  {
    hide MarkRunning, Save;
  }

  lemma RunningFits(worker: Worker, task: Task, now: int)
    requires worker.pc == Starting && PcFits(worker, task) && task.status != Cancelling
    ensures var running := MarkRunning(task, now);
            PcFits(worker.(pc := Executing), running) && running.Active() && running.id == task.id && running.status != Interrupted
  {}

  lemma BeganStaffs(s: State, t: State, w: WorkerId, task: Task, saved: bool)
    requires Staffed(s) && At(s, w, Starting) && s.workers[w].id in s.tasks && Began(s, t, w, task, saved)
    requires task.Active() && PcFits(s.workers[w].(pc := Executing), task)
    ensures Staffed(t)
  {
    hide Staffed, PcFits, Put;
    WorkerMoves(s, t, w, s.workers[w].(pc := Executing));
  }

  lemma BeganRegisters(s: State, t: State, w: WorkerId, task: Task, saved: bool)
    requires Slots(s) && Registry(s) && Unique(s) && Numbered(s) && At(s, w, Starting) && Began(s, t, w, task, saved)
    ensures Slots(t) && Registry(t) && Numbered(t)
  {
    assert Numbered(t);
    hide Slots, Registry, Unique, Put, Numbered;
    SlotsKept(s, t, w, s.workers[w].(pc := Executing));
    StartKeepsRegistry(s, t, w);
  }

  lemma BeganStores(s: State, t: State, w: WorkerId, task: Task, saved: bool)
    requires Channels(s) && Stored(s) && s.up && w in s.workers && Began(s, t, w, task, saved)
    requires var id := s.workers[w].id;
             id in s.tasks && !s.tasks[id].Terminal() && task.id == id && task.status != Interrupted && task.Active()
    ensures Channels(t) && Stored(t)
  {
    hide Channels, Stored, Put;
    var id := s.workers[w].id;
    PutKeepsStored(s, id, task, saved);
    PutKeepsChannels(s, id, task, saved);
    StoredSame(Put(s, id, task, saved), t);
    ChannelsSame(Put(s, id, task, saved), t);
  }

  lemma BeganKeeps(s: State, t: State, w: WorkerId, task: Task, saved: bool)
    requires Inv(s) && s.up && At(s, w, Starting) && s.workers[w].id in s.tasks && Began(s, t, w, task, saved)
    requires !s.tasks[s.workers[w].id].Terminal() && task.id == s.workers[w].id && task.status != Interrupted
    requires task.Active() && PcFits(s.workers[w].(pc := Executing), task)
    ensures Inv(t)
  {
    hide Placed, Unique, Served, Numbered, Registry, Slots, Channels, Memory, Disk, Down, PcFits;
    BeganStaffs(s, t, w, task, saved);
    BeganRegisters(s, t, w, task, saved);
    BeganStores(s, t, w, task, saved);
  }

  lemma StartKeeps(s: State, w: WorkerId, now: int, saved: bool)
    requires Inv(s) && Enabled(s, EStart(w, now, saved))
    ensures Inv(Start(s, w, now, saved))
  {
    hide Placed, Unique, Served, Registry, Slots, Channels, Memory, Disk, Down, Numbered, Goto;
    PlaceOf(s, w);
    var id := s.workers[w].id;
    if s.tasks[id].status == Cancelling {
      GotoKeeps(s, w, Stopping(NOT_STARTED_MESSAGE));
    } else {
      StartBegins(s, w, now, saved);
      RunningFits(s.workers[w], s.tasks[id], now);
      hide Start, MarkRunning, Began;
      BeganKeeps(s, Start(s, w, now, saved), w, MarkRunning(s.tasks[id], now), saved);
    }
  }

  lemma StartKeepsRegistry(s: State, t: State, w: WorkerId)
    requires Registry(s) && Unique(s) && At(s, w, Starting)
    requires t.workers == s.workers[w := s.workers[w].(pc := Executing)]
    requires t.cancel == s.cancel[s.workers[w].id := w]
    ensures Registry(t)
  {
    forall id | id in t.cancel
      ensures Serves(t, t.cancel[id], id) && HasContext(t.workers[t.cancel[id]])
    {
      if id != s.workers[w].id { assert Serves(s, s.cancel[id], id); }
    }
    forall v | v in t.workers && HasContext(t.workers[v])
      ensures t.workers[v].id in t.cancel && t.cancel[t.workers[v].id] == v
    {
      if v != w && t.workers[v].id == s.workers[w].id {
        assert Serves(s, v, s.workers[w].id) && Serves(s, w, s.workers[w].id);
      }
    }
  }

  lemma ReturnKeeps(s: State, w: WorkerId, outcome: Outcome)
    requires Inv(s) && Enabled(s, EReturn(w, outcome))
    ensures Inv(Return(s, w, outcome))
  {
    hide Placed, Unique, Served, Registry, Slots, Channels, Memory, Disk;
    var pc := Settling(outcome, w in s.ctxDone);
    PlaceOf(s, w);
    GotoKeeps(s, w, pc);
    SignalsKeep(Goto(s, w, pc), Return(s, w, outcome));
  }

  lemma SettleKeeps(s: State, w: WorkerId, now: int, saved: bool)
    requires Inv(s) && Enabled(s, ESettle(w, now, saved))
    ensures Inv(Settle(s, w, now, saved))
  {
    hide Placed, Unique, Served, Registry, Slots, Channels, Memory, Disk;
    var id, pc := s.workers[w].id, s.workers[w].pc;
    PlaceOf(s, w);
    var task := Settled(s.tasks[id], pc.outcome, pc.wasCancelled, now);
    assert task.Terminal() && task.id == id;
    hide Inv, Settled, Notify, Put, Goto;
    FinishKeeps(s, Settle(s, w, now, saved), w, task, saved);
  }

  lemma FinishCancelledKeeps(s: State, w: WorkerId, now: int, saved: bool)
    requires Inv(s) && Enabled(s, EFinishCancelled(w, now, saved))
    ensures Inv(FinishCancelled(s, w, now, saved))
  {
    hide Placed, Unique, Served, Registry, Slots, Channels, Memory, Disk;
    var id := s.workers[w].id;
    PlaceOf(s, w);
    NotRegistered(s, w);
    var task := CancelledTask(s.tasks[id], s.workers[w].pc.message, now);
    assert s.cancel - {id} == s.cancel;
    FinishKeeps(s, FinishCancelled(s, w, now, saved), w, task, saved);
  }

  /** A worker that never started its task has no cancel function registered. */
  lemma NotRegistered(s: State, w: WorkerId)
    requires Registry(s) && Unique(s) && w in s.workers && s.workers[w].pc.Stopping?
    ensures s.workers[w].id !in s.cancel
  {
    var id := s.workers[w].id;
    if id in s.cancel { assert Serves(s, s.cancel[id], id) && Serves(s, w, id); }
  }

  /** A worker writes its task's final record and has only its releases left. */
  lemma FinishKeeps(s: State, t: State, w: WorkerId, task: Task, saved: bool)
    requires Inv(s) && w in s.workers && s.workers[w].Live()
    requires task.Terminal() && task.id == s.workers[w].id
    requires t == Notify(Put(Goto(s, w, Releasing).(cancel := s.cancel - {task.id}), task.id, task, saved), task.id)
    ensures Inv(t)
  {
    hide Placed, Unique, Served, Registry, Slots, Channels, Memory, Disk, CloseAll;
    PlaceOf(s, w);
    FinishShape(s, t, w, task, saved);
    FinishKeepsWorkers(s, t, w, task);
    FinishKeepsRecords(s, t, w, task, saved);
  }

  lemma FinishShape(s: State, t: State, w: WorkerId, task: Task, saved: bool)
    requires w in s.workers
    requires t == Notify(Put(Goto(s, w, Releasing).(cancel := s.cancel - {task.id}), task.id, task, saved), task.id)
    ensures t.workers == s.workers[w := s.workers[w].(pc := Releasing)] && t.nextWorker == s.nextWorker
    ensures t.tasks == s.tasks[task.id := task] && t.cancel == s.cancel - {task.id}
    ensures t.totalUsed == s.totalUsed && t.heavyUsed == s.heavyUsed
    ensures t.totalLimit == s.totalLimit && t.heavyLimit == s.heavyLimit && t.up == s.up
    ensures t.ctxDone == s.ctxDone && t.pendingCancels == s.pendingCancels
  {
    hide CloseAll;
  }

  lemma FinishKeepsWorkers(s: State, t: State, w: WorkerId, task: Task)
    requires Staffed(s) && Slots(s) && Numbered(s) && Registry(s)
    requires w in s.workers && s.workers[w].Live()
    requires task.Terminal() && task.id == s.workers[w].id && task.id in s.tasks
    requires t.workers == s.workers[w := s.workers[w].(pc := Releasing)] && t.nextWorker == s.nextWorker
    requires t.tasks == s.tasks[task.id := task] && t.cancel == s.cancel - {task.id}
    requires t.totalUsed == s.totalUsed && t.heavyUsed == s.heavyUsed
    requires t.totalLimit == s.totalLimit && t.heavyLimit == s.heavyLimit
    requires t.ctxDone == s.ctxDone && t.pendingCancels == s.pendingCancels
    ensures Staffed(t) && Slots(t) && Numbered(t) && Registry(t)
  {
    hide Placed, Unique, Served, Registry, Slots;
    WorkerMoves(s, t, w, s.workers[w].(pc := Releasing));
    SlotsKept(s, t, w, s.workers[w].(pc := Releasing));
    FinishKeepsRegistry(s, t, w);
  }

  lemma FinishKeepsRecords(s: State, t: State, w: WorkerId, task: Task, saved: bool)
    requires Stored(s) && Channels(s) && s.up && w in s.workers && s.workers[w].Live()
    requires task.Terminal() && task.id in s.tasks && !s.tasks[task.id].Terminal()
    requires t == Notify(Put(Goto(s, w, Releasing).(cancel := s.cancel - {task.id}), task.id, task, saved), task.id)
    ensures Stored(t) && Channels(t)
  {
    hide Channels, Memory, Disk, CloseAll;
    var g := Goto(s, w, Releasing).(cancel := s.cancel - {task.id});
    ChannelsSame(s, g);
    FinishKeepsChannels(g, task.id, task, saved);
    PutKeepsStored(s, task.id, task, saved);
    StoredSame(Put(s, task.id, task, saved), t);
  }

  lemma FinishKeepsRegistry(s: State, t: State, w: WorkerId)
    requires Registry(s) && Unique(s) && w in s.workers && s.workers[w].Live()
    requires t.workers == s.workers[w := s.workers[w].(pc := Releasing)]
    requires t.cancel == s.cancel - {s.workers[w].id}
    ensures Registry(t)
  {
    forall id | id in t.cancel
      ensures Serves(t, t.cancel[id], id) && HasContext(t.workers[t.cancel[id]])
    {
      assert Serves(s, s.cancel[id], id);
    }
    forall v | v in t.workers && HasContext(t.workers[v])
      ensures t.workers[v].id in t.cancel && t.cancel[t.workers[v].id] == v
    {
      if t.workers[v].id == s.workers[w].id {
        assert Serves(s, v, s.workers[w].id) && Serves(s, w, s.workers[w].id);
      }
    }
  }

  lemma ReleaseKeeps(s: State, w: WorkerId)
    requires Inv(s) && Enabled(s, ERelease(w))
    ensures Inv(Release(s, w))
  {
    hide Placed, Unique, Served, Registry, Slots, Channels, Memory, Disk, Release;
    var t := Release(s, w);
    PlaceOf(s, w);
    ReleaseShape(s, t, w);
    DoneWorkerMoves(s, t, w);
    ReleaseKeepsRegistry(s, t, w);
    SlotReturned(s, t, w);
    ChannelsSame(s, t);
    StoredSame(s, t);
  }

  lemma ReleaseShape(s: State, t: State, w: WorkerId)
    requires w in s.workers && !s.workers[w].Live()
    requires s.workers[w].heavy ==> s.heavyUsed > 0
    requires s.workers[w].total ==> s.totalUsed > 0
    requires t == Release(s, w)
    ensures t == s.(workers := t.workers, totalUsed := t.totalUsed, heavyUsed := t.heavyUsed)
    ensures forall v :: v != w ==> (v in t.workers <==> v in s.workers)
    ensures forall v :: v != w && v in s.workers ==> t.workers[v] == s.workers[v]
    ensures forall v :: v in t.workers ==> v in s.workers
    ensures w in t.workers ==> !t.workers[w].Live()
  {}

  lemma HolderIff(workers: map<WorkerId, Worker>, w: WorkerId)
    requires w in workers
    ensures w in TotalHolders(workers) <==> workers[w].total
    ensures w in HeavyHolders(workers) <==> workers[w].heavy
  {}

  lemma HoldersAfterRemoval(workers: map<WorkerId, Worker>, w: WorkerId)
    ensures TotalHolders(workers - {w}) == TotalHolders(workers) - {w}
    ensures HeavyHolders(workers - {w}) == HeavyHolders(workers) - {w}
  {}

  lemma ReleasedSlot(s: State, t: State, w: WorkerId)
    requires w in s.workers
    requires s.workers[w].heavy ==> s.heavyUsed > 0
    requires s.workers[w].total ==> s.totalUsed > 0
    requires t == Release(s, w)
    ensures var worker := s.workers[w];
            && t.totalLimit == s.totalLimit && t.heavyLimit == s.heavyLimit
            && t.workers == (if worker.heavy then s.workers[w := worker.(heavy := false)]
                             else if worker.total then s.workers[w := worker.(total := false)]
                             else s.workers - {w})
            && t.heavyUsed == s.heavyUsed - (if worker.heavy then 1 else 0)
            && t.totalUsed == s.totalUsed - (if worker.total && !worker.heavy then 1 else 0)
  {}

  lemma HoldersAfterRelease(workers: map<WorkerId, Worker>, w: WorkerId)
    requires w in workers
    ensures var worker := workers[w];
            && TotalHolders(workers[w := worker.(heavy := false)]) == TotalHolders(workers)
            && HeavyHolders(workers[w := worker.(heavy := false)]) == HeavyHolders(workers) - {w}
            && TotalHolders(workers[w := worker.(total := false)]) == TotalHolders(workers) - {w}
            && (!worker.heavy ==> HeavyHolders(workers[w := worker.(total := false)]) == HeavyHolders(workers))
  {
    HolderIff(workers, w);
    HoldersAfterUpdate(workers, w, workers[w].(heavy := false));
    HoldersAfterUpdate(workers, w, workers[w].(total := false));
    hide TotalHolders, HeavyHolders;
    OneLess(TotalHolders(workers), w, workers[w].total);
    OneLess(HeavyHolders(workers), w, workers[w].heavy);
  }

  lemma SlotReturned(s: State, t: State, w: WorkerId)
    requires Slots(s) && w in s.workers
    requires s.workers[w].heavy ==> s.heavyUsed > 0
    requires s.workers[w].total ==> s.totalUsed > 0
    requires t == Release(s, w)
    ensures Slots(t)
  {
    hide TotalHolders, HeavyHolders, Release;
    HolderIff(s.workers, w);
    HoldersAfterRelease(s.workers, w);
    ReleasedSlot(s, t, w);
    if !s.workers[w].heavy && !s.workers[w].total {
      HoldersAfterRemoval(s.workers, w);
      OneLess(TotalHolders(s.workers), w, false);
      OneLess(HeavyHolders(s.workers), w, false);
    }
  }

  lemma OneLess(holders: set<WorkerId>, w: WorkerId, holds: bool)
    requires w in holders <==> holds
    ensures (if holds then holders + {w} else holders - {w}) == holders
  {}

  lemma ReleaseKeepsRegistry(s: State, t: State, w: WorkerId)
    requires Registry(s) && w in s.workers && !s.workers[w].Live() && t.cancel == s.cancel
    requires forall v :: v != w ==> (v in t.workers <==> v in s.workers)
    requires forall v :: v != w && v in s.workers ==> t.workers[v] == s.workers[v]
    requires w in t.workers ==> !t.workers[w].Live()
    ensures Registry(t)
  {
    forall id | id in t.cancel
      ensures Serves(t, t.cancel[id], id) && HasContext(t.workers[t.cancel[id]])
    {
      assert Serves(s, s.cancel[id], id);
    }
  }

  // ----- Process death and restart -----

  lemma CrashKeeps(s: State)
    requires Inv(s)
    ensures Inv(Crash(s))
  {}

  lemma BootFailsKeeps(s: State, now: int, done: set<TaskId>)
    requires Inv(s) && !s.up
    ensures Inv(BootFails(s, now, done))
  {
    hide Placed, Unique, Served, Registry, Slots, Channels, Memory, Disk;
    var t := BootFails(s, now, done);
    StaffedSame(s, t);
    RegistrySame(s, t);
    SlotsSame(s, t);
    ChannelsSame(s, t);
    BootFailsStores(s, now, done);
  }

  lemma BootKeeps(s: State, now: int, resaved: set<TaskId>, ids: seq<TaskId>)
    requires Inv(s) && Enabled(s, EBoot(now, resaved, ids))
    ensures Inv(Boot(s, now, resaved, ids))
  {
    hide Placed, Unique, Served, Registry, Slots, Channels, Memory, Disk;
    var t := Boot(s, now, resaved, ids);
    BootStaffs(s, now, resaved, ids);
    BootStores(s, now, resaved, ids);
    BootIsQuiet(s, now, resaved, ids);
  }

  lemma BootFailsStores(s: State, now: int, done: set<TaskId>)
    requires Stored(s) && !s.up
    ensures Stored(BootFails(s, now, done))
  {
    var t := BootFails(s, now, done);
    var loaded := LoadedSome(s.disk, done, now);
    forall id | id in t.disk
      ensures && t.disk[id].id == id && t.disk[id] in t.seen
              && (t.disk[id].status == Interrupted ==> t.disk[id].durable)
    {
      if id in loaded { assert loaded[id] in loaded.Values; }
    }
  }

  lemma BootIsQuiet(s: State, now: int, resaved: set<TaskId>, ids: seq<TaskId>)
    requires Inv(s) && !s.up
    ensures Registry(Boot(s, now, resaved, ids)) && Slots(Boot(s, now, resaved, ids))
    ensures Numbered(Boot(s, now, resaved, ids)) && Channels(Boot(s, now, resaved, ids))
  {
    var t := Boot(s, now, resaved, ids);
    assert TotalHolders(t.workers) == {};
    assert HeavyHolders(t.workers) == {};
  }

  lemma BootStaffs(s: State, now: int, resaved: set<TaskId>, ids: seq<TaskId>)
    requires Disk(s) && ToResume(ids, s.disk, now)
    ensures Staffed(Boot(s, now, resaved, ids))
  {
    hide Disk, ToResume, Boot;
    BootServes(s, now, resaved, ids);
    BootPlaces(s, now, resaved, ids);
  }

  lemma BootServes(s: State, now: int, resaved: set<TaskId>, ids: seq<TaskId>)
    requires ToResume(ids, s.disk, now)
    ensures Served(Boot(s, now, resaved, ids))
  {
    var t := Boot(s, now, resaved, ids);
    BootTasks(s, now, resaved, ids);
    BootWorkers(s, now, resaved, ids);
    hide Boot, WantsWorker, Resumed, Loaded;
    forall id | id in t.tasks && t.tasks[id].Active() ensures exists w :: Serves(t, w, id) {
      ActiveWasWanted(s.disk[id], now);
      assert id in ids;
      var i :| 0 <= i < |ids| && ids[i] == id;
      assert Serves(t, s.nextWorker + i, id);
    }
  }

  lemma BootTasks(s: State, now: int, resaved: set<TaskId>, ids: seq<TaskId>)
    ensures var t := Boot(s, now, resaved, ids);
            t.tasks.Keys == s.disk.Keys && forall id :: id in s.disk ==> t.tasks[id] == Resumed(Loaded(s.disk[id], now), now)
  {
    hide Resumed, Loaded, Resumer;
  }

  lemma BootWorkers(s: State, now: int, resaved: set<TaskId>, ids: seq<TaskId>)
    ensures var t := Boot(s, now, resaved, ids);
            forall i: nat :: i < |ids| ==>
              s.nextWorker + i in t.workers && t.workers[s.nextWorker + i] == Worker(ids[i], WaitTotal, false, false)
  {
    hide ResumedAll, LoadedAll;
  }

  lemma ActiveWasWanted(task: Task, now: int)
    ensures Resumed(Loaded(task, now), now).Active() <==> WantsWorker(task, now)
  {}

  lemma BootPlaces(s: State, now: int, resaved: set<TaskId>, ids: seq<TaskId>)
    requires ToResume(ids, s.disk, now)
    ensures Placed(Boot(s, now, resaved, ids)) && Unique(Boot(s, now, resaved, ids))
  {
    var t := Boot(s, now, resaved, ids);
    forall w: WorkerId, v: WorkerId, id | Serves(t, w, id) && Serves(t, v, id) ensures w == v {
      assert ids[w - s.nextWorker] == ids[v - s.nextWorker];
    }
    forall w | w in t.workers
      ensures && t.workers[w].id in t.tasks && t.tasks[t.workers[w].id].Active()
              && PcFits(t.workers[w], t.tasks[t.workers[w].id])
    {
      assert ids[w - s.nextWorker] in ids;
    }
  }

  /** What a restart leaves on disk and remembers of one snapshot. */
  lemma BootSnapshots(s: State, now: int, resaved: set<TaskId>, ids: seq<TaskId>, id: TaskId)
    requires id in s.disk
    ensures var t := Boot(s, now, resaved, ids);
            var loaded := Loaded(s.disk[id], now); var resumed := Resumed(loaded, now);
            id in t.disk && t.disk[id] == (if id in resaved then resumed else loaded) && {loaded, resumed} <= t.seen
  {
    hide Loaded, Resumed, Resumer;
    var all := LoadedAll(s.disk, now);
    assert all[id] in all.Values && ResumedAll(all, now)[id] in ResumedAll(all, now).Values;
  }

  lemma BootFrame(s: State, now: int, resaved: set<TaskId>, ids: seq<TaskId>)
    ensures var t := Boot(s, now, resaved, ids); t.disk.Keys == s.disk.Keys && t.submitted == s.submitted && t.up
  {
    hide Loaded, Resumed, Resumer;
  }

  lemma BootStores(s: State, now: int, resaved: set<TaskId>, ids: seq<TaskId>)
    requires Stored(s) && !s.up
    ensures Stored(Boot(s, now, resaved, ids))
  {
    var t := Boot(s, now, resaved, ids);
    BootFrame(s, now, resaved, ids);
    BootTasks(s, now, resaved, ids);
    hide Boot, Loaded, Resumed;
    forall id | id in t.disk
      ensures && t.disk[id].id == id && t.disk[id] in t.seen && t.tasks[id].id == id && t.tasks[id] in t.seen
              && (t.disk[id].status == Interrupted ==> t.disk[id].durable)
              && t.tasks[id].status != Interrupted
              && (t.disk[id].Terminal() ==> t.tasks[id] == t.disk[id])
    {
      BootSnapshots(s, now, resaved, ids, id);
      RecordRebuilt(s.disk[id], now);
    }
  }

  lemma RecordRebuilt(task: Task, now: int)
    requires task.status == Interrupted ==> task.durable
    ensures var loaded := Loaded(task, now); var resumed := Resumed(loaded, now);
            && loaded.id == task.id && resumed.id == task.id && resumed.status != Interrupted
            && (loaded.status == Interrupted ==> loaded.durable) && (loaded.Terminal() ==> resumed == loaded)
            && (resumed.status == Interrupted ==> resumed.durable)
  {}

  // ----- The invariant holds in every reachable state -----

  /** A worker that only moves on, and events that only touch contexts or the closed flag. */
  lemma SmallStepKeeps(s: State, e: Event)
    requires Inv(s) && Enabled(s, e)
    requires e.ECallCancel? || e.EClose? || e.EStopTotal? || e.EReadHeavy? || e.EStopHeavy?
    ensures Inv(Next(s, e))
  {
    hide Placed, Unique, Served, Registry, Slots, Channels, Memory, Disk, Goto;
    if e.ECallCancel? || e.EClose? {
      SignalsKeep(s, Next(s, e));
    } else {
      PlaceOf(s, e.w);
      GotoKeeps(s, e.w, if !e.EReadHeavy? then Stopping(STOPPING_MESSAGE)
                        else if s.tasks[s.workers[e.w].id].heavy then WaitHeavy else Starting);
    }
  }

  lemma StepKeeps(s: State, e: Event)
    requires Inv(s) && Enabled(s, e)
    ensures Inv(Next(s, e))
  {
    hide Inv, Submit, Cancel, Update, Register, CancelAll, TakeTotal, TakeHeavy, Start, Return, Settle, FinishCancelled,
         Release, Crash, BootFails, Boot;
    match e
    case ESubmit(task, saved) => SubmitKeeps(s, task, saved);
    case ECancel(id, now, saved) => CancelKeeps(s, id, now, saved);
    case ECallCancel(w) => SmallStepKeeps(s, e);
    case EUpdate(id, progress, message, now, saved) => UpdateKeeps(s, id, progress, message, now, saved);
    case ERegister(id, c) => RegisterKeeps(s, id, c);
    case EClose => SmallStepKeeps(s, e);
    case ECancelAll => CancelAllKeeps(s);
    case ETakeTotal(w) => TakeTotalKeeps(s, w);
    case EStopTotal(w) => SmallStepKeeps(s, e);
    case EReadHeavy(w) => SmallStepKeeps(s, e);
    case ETakeHeavy(w) => TakeHeavyKeeps(s, w);
    case EStopHeavy(w) => SmallStepKeeps(s, e);
    case EStart(w, now, saved) => StartKeeps(s, w, now, saved);
    case EReturn(w, outcome) => ReturnKeeps(s, w, outcome);
    case ESettle(w, now, saved) => SettleKeeps(s, w, now, saved);
    case EFinishCancelled(w, now, saved) => FinishCancelledKeeps(s, w, now, saved);
    case ERelease(w) => ReleaseKeeps(s, w);
    case ECrash => CrashKeeps(s);
    case EBootFails(now, done) => BootFailsKeeps(s, now, done);
    case EBoot(now, resaved, ids) => BootKeeps(s, now, resaved, ids);
  }

  lemma {:induction false} RunKeepsInv(s: State, es: seq<Event>)
    requires Inv(s) && Legal(s, es)
    ensures Inv(Exec(s, es))
    decreases |es|
  {
    if es != [] {
      StepKeeps(s, es[0]);
      RunKeepsInv(Next(s, es[0]), es[1..]);
    }
  }
}
