/** The task manager as it is written: fields updated in place, one method for every section
    under the mutex and every channel operation. Each method is proved to make exactly the
    transition that TaskSpec names, so the theorems about runs are theorems about this class. */
module TaskManager {
  import opened Common
  import opened TaskSpec
  import S = TaskSpec

  class Manager {
    const totalLimit: nat
    const heavyLimit: nat
    var up: bool
    var tasks: map<TaskId, Task>
    var cancel: map<TaskId, WorkerId>
    var waiters: map<TaskId, seq<ChanId>>
    var totalUsed: nat
    var heavyUsed: nat
    var closed: bool
    // The goroutines, contexts and channels the Go runtime keeps, and the state directory.
    var workers: map<WorkerId, Worker>
    var nextWorker: nat
    var ctxDone: set<WorkerId>
    var pendingCancels: set<WorkerId>
    var channels: map<ChanId, Channel>
    var disk: map<TaskId, Task>
    ghost var seen: set<Task>
    ghost var submitted: set<TaskId>

    ghost function View(): State
      reads this
    {
      State(totalLimit, heavyLimit, up, tasks, cancel, waiters, totalUsed, heavyUsed, closed, workers, nextWorker,
            ctxDone, pendingCancels, channels, disk, seen, submitted)
    }

    /** A machine whose state directory is empty. */
    constructor (totalLimit: nat, heavyLimit: nat)
      requires GoodLimits(totalLimit, heavyLimit)
      ensures View() == Blank(totalLimit, heavyLimit)
    {
      this.totalLimit, this.heavyLimit := totalLimit, heavyLimit;
      up, tasks, cancel, waiters := false, map[], map[], map[];
      totalUsed, heavyUsed, closed := 0, 0, false;
      workers, nextWorker, ctxDone, pendingCancels := map[], 0, {}, {};
      channels, disk, seen, submitted := map[], map[], {}, {};
    }

    /** persistLocked: `written` says whether the atomic write went through. */
    method Persist(task: Task, written: bool) returns (ok: bool)
      modifies this`disk
      ensures ok == written && disk == Save(old(disk), task, written)
    {
      if written { disk := disk[task.id := task]; }
      ok := written;
    }

    /** Stores a changed record and remembers that it was held. */
    method Store(id: TaskId, task: Task)
      modifies this`tasks, this`seen
      ensures tasks == old(tasks)[id := task] && seen == old(seen) + {task}
    {
      tasks := tasks[id := task];
      seen := seen + {task};
    }

    /** Stores a changed record and persists it. */
    method Record(id: TaskId, task: Task, written: bool) returns (ok: bool)
      modifies this`tasks, this`seen, this`disk
      ensures View() == Put(old(View()), id, task, written)
      ensures ok == written
    {
      Store(id, task);
      ok := Persist(task, written);
    }

    /** notifyLocked. */
    method NotifyLocked(id: TaskId)
      modifies this`waiters, this`channels
      ensures View() == Notify(old(View()), id)
    {
      if id in waiters {
        var chans := waiters[id];
        var i := 0;
        while i < |chans|
          invariant i <= |chans|
          invariant waiters == old(waiters)
          invariant CloseAll(channels, chans[i..]) == CloseAll(old(channels), chans)
        {
          var c := chans[i];
          assert chans[i..][1..] == chans[i + 1..];
          if c in channels {
            channels := channels[c := channels[c].(closed := channels[c].closed + 1)];
          }
          i := i + 1;
        }
        waiters := waiters - {id};
      }
    }

    // ----- Client operations -----

    method Submit(id: TaskId, tool: string, arguments: string, heavy: bool, durable: bool, now: int, written: bool)
      returns (r: Result<Task, TaskError>)
      modifies this
      ensures r == SubmitReply(old(View()), NewTask(id, tool, arguments, heavy, durable, now), written)
      ensures View() == S.Submit(old(View()), NewTask(id, tool, arguments, heavy, durable, now), written)
      ensures r.Ok? ==> r.value.id == id && r.value.tool == tool && r.value.arguments == arguments && r.value.status == Queued
                        && r.value.heavy == heavy && r.value.durable == durable && r.value.createdAt == now
    {
      if tool == "" { return Err(ToolRequired); }
      var task := Task(id, tool, arguments, Queued, 0.0, QUEUED_MESSAGE, heavy, durable, now, 0, now, 0, None);
      assert task == NewTask(id, tool, arguments, heavy, durable, now);
      hide NewTask, Put, Spawn;
      if closed { return Err(ManagerClosed); }
      var ok := Record(id, task, written);
      if !ok {
        TakenBack(old(View()), id, task);
        tasks := tasks - {id};
        return Err(NotSaved);
      }
      Go(id);
      submitted := submitted + {id};
      return Ok(task);
    }

    /** go m.run(id) */
    method Go(id: TaskId)
      modifies this`workers, this`nextWorker
      ensures View() == Spawn(old(View()), id)
    {
      workers := workers[nextWorker := Worker(id, WaitTotal, false, false)];
      nextWorker := nextWorker + 1;
    }

    method Cancel(id: TaskId, now: int, written: bool) returns (r: Result<Task, TaskError>)
      modifies this
      ensures r == CancelReply(old(View()), id, now, written)
      ensures View() == S.Cancel(old(View()), id, now, written)
    {
      if id !in tasks { return Err(NotExist); }
      var task := tasks[id];
      if task.Terminal() { return Ok(task); }
      task := task.(status := Cancelling, message := CANCELLING_MESSAGE, updatedAt := now);
      assert task == MarkCancelling(old(tasks)[id], now);
      hide Put, MarkCancelling;
      var ok := Record(id, task, written);
      if !ok { return Err(NotSaved); }
      if id in cancel { pendingCancels := pendingCancels + {cancel[id]}; }
      return Ok(task);
    }

    method Update(id: TaskId, progress: real, message: string, now: int, written: bool)
      returns (r: Result<Task, TaskError>)
      modifies this
      ensures r == UpdateReply(old(View()), id, progress, message, now, written)
      ensures View() == S.Update(old(View()), id, progress, message, now, written)
    {
      if progress < 0.0 || progress > 1.0 { return Err(BadProgress); }
      if id !in tasks { return Err(NotExist); }
      var task := tasks[id];
      if task.Terminal() { return Err(Finished); }
      task := task.(progress := progress, message := message, updatedAt := now);
      hide Put;
      var ok := Record(id, task, written);
      if !ok { return Err(NotSaved); }
      return Ok(task);
    }

    /** Wait up to its select: an answer at once, or a registered channel. */
    method Wait(id: TaskId, c: ChanId) returns (r: Option<Result<Task, TaskError>>)
      modifies this
      ensures r == WaitReply(old(View()), id)
      ensures View() == Register(old(View()), id, c)
    {
      if id !in tasks { return Some(Err(NotExist)); }
      if tasks[id].Terminal() { return Some(Ok(tasks[id])); }
      channels := channels[c := Channel(id, 0)];
      waiters := waiters[id := (if id in waiters then waiters[id] else []) + [c]];
      return None;
    }

    /** The second half of Close: call every registered cancel function. */
    method CloseCancels()
      modifies this`ctxDone
      ensures View() == CancelAll(old(View()))
    {
      var left := cancel.Keys;
      ghost var done := {};
      while left != {}
        invariant left <= cancel.Keys && done == cancel.Keys - left
        invariant ctxDone == old(ctxDone) + set id | id in done :: cancel[id]
      {
        var id :| id in left;
        ctxDone := ctxDone + {cancel[id]};
        left := left - {id};
        done := done + {id};
      }
      assert done == cancel.Keys;
      assert (set id | id in done :: cancel[id]) == cancel.Values;
    }

    // ----- run -----

    method SetPc(w: WorkerId, pc: Pc)
      requires w in workers
      modifies this`workers
      ensures View() == Goto(old(View()), w, pc)
    {
      workers := workers[w := workers[w].(pc := pc)];
    }

    method AcquireTotal(w: WorkerId)
      requires At(View(), w, WaitTotal) && totalUsed < totalLimit
      modifies this
      ensures View() == TakeTotal(old(View()), w)
    {
      totalUsed := totalUsed + 1;
      workers := workers[w := workers[w].(pc := ReadTask, total := true)];
    }

    method ReadHeavy(w: WorkerId)
      requires At(View(), w, ReadTask)
      modifies this
      ensures View() == ReadHeavyFlag(old(View()), w)
    {
      var id := workers[w].id;
      var ok := id in tasks;
      var heavy := ok && tasks[id].heavy;
      if !ok { SetPc(w, Releasing); }
      else if heavy { SetPc(w, WaitHeavy); }
      else { SetPc(w, Starting); }
    }

    method AcquireHeavy(w: WorkerId)
      requires At(View(), w, WaitHeavy) && heavyUsed < heavyLimit
      modifies this
      ensures View() == TakeHeavy(old(View()), w)
    {
      heavyUsed := heavyUsed + 1;
      workers := workers[w := workers[w].(pc := Starting, heavy := true)];
    }

    /** Either select takes its closed branch. */
    method StopWaiting(w: WorkerId)
      requires (At(View(), w, WaitTotal) || At(View(), w, WaitHeavy)) && closed
      modifies this
      ensures View() == Goto(old(View()), w, Stopping(STOPPING_MESSAGE))
    {
      SetPc(w, Stopping(STOPPING_MESSAGE));
    }

    method BeginTask(w: WorkerId, now: int, written: bool)
      requires At(View(), w, Starting)
      modifies this
      ensures View() == Start(old(View()), w, now, written)
    {
      var id := workers[w].id;
      if id !in tasks {
        SetPc(w, Releasing);
        return;
      }
      var task := tasks[id];
      if task.status == Cancelling {
        SetPc(w, Stopping(NOT_STARTED_MESSAGE));
        return;
      }
      task := task.(status := Running, message := RUNNING_MESSAGE, startedAt := now, updatedAt := now);
      assert task == MarkRunning(old(tasks)[id], now);
      hide MarkRunning;
      Store(id, task);
      cancel := cancel[id := w];
      var _ := Persist(task, written);
      assert View() == Put(old(View()), id, task, written).(cancel := old(cancel)[id := w]);
      hide Put;
      SetPc(w, Executing);
    }

    method RunnerReturns(w: WorkerId, outcome: Outcome)
      requires At(View(), w, Executing)
      modifies this
      ensures View() == Return(old(View()), w, outcome)
    {
      var wasCancelled := w in ctxDone;
      ctxDone := ctxDone + {w};
      SetPc(w, Settling(outcome, wasCancelled));
    }

    /** The record of a task whose runner has returned. */
    method SettledRecord(task: Task, outcome: Outcome, wasCancelled: bool, now: int) returns (settled: Task)
      ensures settled == Settled(task, outcome, wasCancelled, now)
    {
      settled := task.(updatedAt := now, completedAt := now, result := Some(outcome));
      if task.status == Cancelling || wasCancelled {
        settled := settled.(status := Cancelled, message := CANCELLED_MESSAGE);
      } else if outcome.success {
        settled := settled.(status := Succeeded, progress := 1.0, message := outcome.message);
      } else if outcome.code == "TIMEOUT" {
        settled := settled.(status := TimedOut, message := outcome.message);
      } else {
        settled := settled.(status := Failed, message := outcome.message);
      }
    }

    method SettleTask(w: WorkerId, now: int, written: bool)
      requires w in workers && workers[w].pc.Settling?
      modifies this
      ensures View() == Settle(old(View()), w, now, written)
    {
      var id, outcome, wasCancelled := workers[w].id, workers[w].pc.outcome, workers[w].pc.wasCancelled;
      hide CloseAll, Settled, Notify, Put, Goto;
      SetPc(w, Releasing);
      cancel := cancel - {id};
      if id !in tasks { return; }
      var task := SettledRecord(tasks[id], outcome, wasCancelled, now);
      var _ := Record(id, task, written);
      NotifyLocked(id);
    }

    method FinishCancelledTask(w: WorkerId, now: int, written: bool)
      requires w in workers && workers[w].pc.Stopping?
      modifies this
      ensures View() == FinishCancelled(old(View()), w, now, written)
    {
      var id, message := workers[w].id, workers[w].pc.message;
      SetPc(w, Releasing);
      if id !in tasks || tasks[id].Terminal() { return; }
      var task := tasks[id];
      task := task.(status := Cancelled, message := message, updatedAt := now, completedAt := now);
      task := task.(result := Some(Outcome(false, "CANCELLED", message)));
      var _ := Record(id, task, written);
      NotifyLocked(id);
    }

    method DeferredRelease(w: WorkerId)
      requires At(View(), w, Releasing)
      requires workers[w].heavy ==> heavyUsed > 0
      requires workers[w].total ==> totalUsed > 0
      modifies this
      ensures View() == Release(old(View()), w)
    {
      if workers[w].heavy {
        heavyUsed := heavyUsed - 1;
        workers := workers[w := workers[w].(heavy := false)];
      } else if workers[w].total {
        totalUsed := totalUsed - 1;
        workers := workers[w := workers[w].(total := false)];
      } else {
        workers := workers - {w};
      }
    }

    // ----- New and ResumeInterrupted -----

    /** One snapshot of load: rewritten when its task was unfinished, and taken into memory. */
    method LoadOne(id: TaskId, now: int, written: bool) returns (ok: bool)
      requires id in disk && disk[id].id == id
      modifies this`tasks, this`disk
      ensures ok ==> disk == old(disk)[id := Loaded(old(disk)[id], now)]
                     && tasks == old(tasks)[id := Loaded(old(disk)[id], now)]
      ensures !ok ==> disk == old(disk) && tasks == old(tasks)
      ensures ok <==> written || !old(disk)[id].Active()
    {
      var task := disk[id];
      if task.Active() {
        task := task.(status := Interrupted, message := INTERRUPTED_MESSAGE, updatedAt := now);
        if !task.durable {
          task := task.(status := Failed, completedAt := now);
          task := task.(result := Some(Outcome(false, "PROCESS_RESTARTED", INTERRUPTED_MESSAGE)));
        }
        ok := Persist(task, written);
        if !ok { return; }
      }
      assert disk == old(disk)[id := task];
      tasks := tasks[id := task];
      ok := true;
    }

    /** load: stops with an error at the first snapshot that cannot be rewritten. */
    method Load(now: int, failing: set<TaskId>) returns (ok: bool, ghost done: set<TaskId>)
      requires !up && tasks == map[] && forall id :: id in disk ==> disk[id].id == id
      modifies this`tasks, this`disk, this`seen
      ensures ok ==> tasks == LoadedAll(old(disk), now) && disk == LoadedAll(old(disk), now)
                     && seen == old(seen) + LoadedAll(old(disk), now).Values
      ensures !ok ==> tasks == map[] && PartlyLoaded(old(disk), disk, now, done)
                      && seen == old(seen) + LoadedSome(old(disk), done, now).Values
    {
      hide Taken, PartlyLoaded, Loaded, LoadedAll, LoadedSome;
      ghost var before := disk;
      var unread := disk.Keys;
      done := {};
      NoneTaken(before, now);
      while unread != {}
        invariant unread <= before.Keys && done == before.Keys - unread
        invariant Taken(before, tasks, disk, now, done)
        invariant seen == old(seen)
      {
        var id :| id in unread;
        OneMoreTaken(before, tasks, disk, now, done, id);
        ok := LoadOne(id, now, id !in failing);
        if !ok {
          tasks := map[];
          seen := seen + LoadedSome(before, done, now).Values;
          return;
        }
        unread := unread - {id};
        done := done + {id};
      }
      assert done == before.Keys;
      AllTaken(before, tasks, disk, now);
      seen := seen + LoadedAll(before, now).Values;
      ok := true;
    }

    /** One record of ResumeInterrupted. */
    method ResumeOne(id: TaskId, now: int, written: bool) returns (resumed: bool)
      requires id in tasks && tasks[id].id == id
      modifies this`tasks, this`disk
      ensures resumed == Resumes(old(tasks)[id])
      ensures tasks == old(tasks)[id := Resumed(old(tasks)[id], now)]
      ensures disk == if resumed && written then old(disk)[id := tasks[id]] else old(disk)
    {
      var task := tasks[id];
      resumed := task.status == Interrupted && task.durable;
      if resumed {
        task := task.(status := Queued, message := RESUMED_MESSAGE, updatedAt := now);
        tasks := tasks[id := task];
        var _ := Persist(task, written);
      }
      assert tasks == old(tasks)[id := task];
    }

    /** The locked loop of ResumeInterrupted: requeues every interrupted durable task. */
    method ResumeAll(now: int, resaved: set<TaskId>) returns (ids: seq<TaskId>)
      requires disk == tasks && forall id :: id in tasks ==> tasks[id].id == id
      modifies this`tasks, this`disk
      ensures tasks == ResumedAll(old(tasks), now)
      ensures Listed(ids, old(tasks), old(tasks).Keys)
      ensures PartlyResumed(old(tasks), disk, now, resaved)
    {
      hide PartlyResumed, Listed, Resumed, ResumedAll, Resumes;
      ghost var before := tasks;
      AllResumed(before, tasks, disk, now, {}, resaved);
      NothingListed(before);
      var left := tasks.Keys;
      ghost var done: set<TaskId> := {};
      ids := [];
      while left != {}
        invariant left <= tasks.Keys == before.Keys && done == before.Keys - left
        invariant PartlyResumed(before, tasks, now, done)
        invariant PartlyResumed(before, disk, now, done * resaved)
        invariant Listed(ids, before, done)
      {
        var id :| id in left;
        OneMoreResumed(before, tasks, now, done, id);
        OneMoreSaved(before, disk, now, done, resaved, id);
        ListedMore(ids, before, done, id);
        var resumed := ResumeOne(id, now, id in resaved);
        if resumed { ids := ids + [id]; }
        left := left - {id};
        done := done + {id};
      }
      AllResumed(before, tasks, disk, now, done, resaved);
    }

    /** ResumeInterrupted, the workers it starts included. */
    method ResumeInterrupted(now: int, resaved: set<TaskId>) returns (ids: seq<TaskId>)
      requires disk == tasks && forall id :: id in tasks ==> tasks[id].id == id
      modifies this`tasks, this`disk, this`seen, this`workers, this`nextWorker
      ensures tasks == ResumedAll(old(tasks), now)
      ensures seen == old(seen) + tasks.Values
      ensures Listed(ids, old(tasks), old(tasks).Keys)
      ensures PartlyResumed(old(tasks), disk, now, resaved)
      ensures SpawnedAll(old(workers), workers, ids, old(nextWorker)) && nextWorker == old(nextWorker) + |ids|
    {
      ids := ResumeAll(now, resaved);
      seen := seen + tasks.Values;
      StartWorkers(ids);
    }

    /** One goroutine for every id, in order. */
    method StartWorkers(ids: seq<TaskId>)
      modifies this`workers, this`nextWorker
      ensures SpawnedAll(old(workers), workers, ids, old(nextWorker)) && nextWorker == old(nextWorker) + |ids|
    {
      hide SpawnedAll;
      ghost var before, first := workers, nextWorker;
      NoneSpawned(before, first);
      var i := 0;
      while i < |ids|
        invariant i <= |ids| && nextWorker == first + i
        invariant SpawnedAll(before, workers, ids[..i], first)
      {
        assert ids[..i + 1] == ids[..i] + [ids[i]];
        OneMoreSpawned(before, workers, ids[..i], first, ids[i]);
        Go(ids[i]);
        i := i + 1;
      }
      assert ids[..i] == ids;
    }

    /** New followed by ResumeInterrupted, field by field. */
    method LoadAndResume(now: int, failing: set<TaskId>, resaved: set<TaskId>)
      returns (ok: bool, ghost done: set<TaskId>, ghost ids: seq<TaskId>)
      requires !up && tasks == map[] && workers == map[] && forall id :: id in disk ==> disk[id].id == id
      modifies this`up, this`tasks, this`disk, this`seen, this`workers, this`nextWorker
      ensures !ok ==>
                && up == old(up) && tasks == old(tasks) && workers == old(workers) && nextWorker == old(nextWorker)
                && PartlyLoaded(old(disk), disk, now, done)
                && seen == old(seen) + LoadedSome(old(disk), done, now).Values
      ensures ok ==>
                && up && Listed(ids, LoadedAll(old(disk), now), old(disk).Keys)
                && tasks == ResumedAll(LoadedAll(old(disk), now), now)
                && seen == old(seen) + LoadedAll(old(disk), now).Values + tasks.Values
                && PartlyResumed(LoadedAll(old(disk), now), disk, now, resaved)
                && SpawnedAll(map[], workers, ids, old(nextWorker)) && nextWorker == old(nextWorker) + |ids|
    {
      hide ToResume, Listed, SpawnedAll, PartlyLoaded, PartlyResumed, LoadedAll, LoadedSome, ResumedAll;
      LoadedKeys(disk, now);
      ids := [];
      ok, done := Load(now, failing);
      if !ok { return; }
      ids := ResumeInterrupted(now, resaved);
      up := true;
    }

    /** New followed by ResumeInterrupted, the way the service starts the manager. */
    method Initialise(now: int, failing: set<TaskId>, resaved: set<TaskId>) returns (ok: bool)
      requires View() == Crash(View()) && forall id :: id in disk ==> disk[id].id == id
      modifies this
      ensures ok ==> exists ids :: ToResume(ids, old(disk), now) && View() == Boot(old(View()), now, resaved, ids)
      ensures !ok ==> exists done :: View() == BootFails(old(View()), now, done)
    {
      hide Boot, BootFails, ToResume, Listed, SpawnedAll, PartlyLoaded, PartlyResumed, LoadedAll, LoadedSome, ResumedAll;
      ghost var done, ids;
      ok, done, ids := LoadAndResume(now, failing, resaved);
      if ok {
        InitialisedAsBoot(old(View()), View(), now, resaved, ids);
      } else {
        PartlyLoadedFails(old(View()), View(), now, done);
      }
    }
  }

  predicate Resumes(task: Task) { task.status == Interrupted && task.durable }

  /** `ids` lists, once each, the records of `done` that are to be resumed. */
  ghost predicate Listed(ids: seq<TaskId>, tasks: map<TaskId, Task>, done: set<TaskId>) {
    && (forall i, j :: 0 <= i < j < |ids| ==> ids[i] != ids[j])
    && (forall id :: id in ids <==> id in done && id in tasks && Resumes(tasks[id]))
  }

  /** The snapshots of `done` were rewritten by load, the others were not. */
  ghost predicate PartlyLoaded(before: map<TaskId, Task>, after: map<TaskId, Task>, now: int, done: set<TaskId>) {
    && after.Keys == before.Keys
    && forall id :: id in after ==> after[id] == if id in done then Loaded(before[id], now) else before[id]
  }

  /** Load has read the snapshots of `done`: they are rewritten, and they are what is in memory. */
  ghost predicate Taken(before: map<TaskId, Task>, tasks: map<TaskId, Task>, disk: map<TaskId, Task>, now: int,
                        done: set<TaskId>)
  {
    PartlyLoaded(before, disk, now, done) && tasks == LoadedSome(before, done, now)
  }

  lemma NoneTaken(before: map<TaskId, Task>, now: int)
    ensures Taken(before, map[], before, now, {})
  {}

  lemma OneMoreTaken(before: map<TaskId, Task>, tasks: map<TaskId, Task>, disk: map<TaskId, Task>, now: int,
                     done: set<TaskId>, id: TaskId)
    requires Taken(before, tasks, disk, now, done) && id in before && id !in done
    ensures PartlyLoaded(before, disk, now, done)
    ensures id in disk && disk[id] == before[id]
    ensures var task := Loaded(before[id], now); Taken(before, tasks[id := task], disk[id := task], now, done + {id})
  {
    hide Loaded;
    var task := Loaded(before[id], now);
    assert tasks[id := task] == LoadedSome(before, done + {id}, now);
  }

  lemma AllTaken(before: map<TaskId, Task>, tasks: map<TaskId, Task>, disk: map<TaskId, Task>, now: int)
    requires Taken(before, tasks, disk, now, before.Keys)
    ensures tasks == LoadedAll(before, now) && disk == LoadedAll(before, now)
  {
    hide Loaded;
  }

  /** The records of `done` were resumed, the others were not. */
  ghost predicate PartlyResumed(before: map<TaskId, Task>, after: map<TaskId, Task>, now: int, done: set<TaskId>) {
    && after.Keys == before.Keys
    && forall id :: id in after ==> after[id] == if id in done then Resumed(before[id], now) else before[id]
  }

  lemma NothingListed(tasks: map<TaskId, Task>)
    ensures Listed([], tasks, {})
  {}

  lemma ListedMore(ids: seq<TaskId>, tasks: map<TaskId, Task>, done: set<TaskId>, id: TaskId)
    requires Listed(ids, tasks, done) && id in tasks && id !in done
    ensures Listed(if Resumes(tasks[id]) then ids + [id] else ids, tasks, done + {id})
  {}

  lemma OneMoreResumed(before: map<TaskId, Task>, after: map<TaskId, Task>, now: int, done: set<TaskId>, id: TaskId)
    requires PartlyResumed(before, after, now, done) && id in before && id !in done
    ensures id in after && after[id] == before[id]
    ensures PartlyResumed(before, after[id := Resumed(before[id], now)], now, done + {id})
  {}

  lemma OneMoreSaved(before: map<TaskId, Task>, disk: map<TaskId, Task>, now: int, done: set<TaskId>,
                     resaved: set<TaskId>, id: TaskId)
    requires PartlyResumed(before, disk, now, done * resaved) && id in before && id !in done
    ensures Resumes(before[id]) && id in resaved ==>
              PartlyResumed(before, disk[id := Resumed(before[id], now)], now, (done + {id}) * resaved)
    ensures !(Resumes(before[id]) && id in resaved) ==> PartlyResumed(before, disk, now, (done + {id}) * resaved)
  {}

  lemma AllResumed(before: map<TaskId, Task>, tasks: map<TaskId, Task>, disk: map<TaskId, Task>, now: int,
                   done: set<TaskId>, resaved: set<TaskId>)
    ensures tasks == before == disk ==>
              PartlyResumed(before, tasks, now, {}) && PartlyResumed(before, disk, now, {} * resaved)
    ensures done == before.Keys && PartlyResumed(before, tasks, now, done) && PartlyResumed(before, disk, now, done * resaved)
            ==> tasks == ResumedAll(before, now) && PartlyResumed(before, disk, now, resaved)
  {}

  /** The worker table after a goroutine was started for every id. */
  ghost predicate SpawnedAll(before: map<WorkerId, Worker>, after: map<WorkerId, Worker>, ids: seq<TaskId>, first: nat) {
    && (forall w: nat :: w in after <==> w in before || first <= w < first + |ids|)
    && (forall w: nat :: first <= w < first + |ids| ==> after[w] == Worker(ids[w - first], WaitTotal, false, false))
    && (forall w: nat :: w in before && w < first ==> after[w] == before[w])
  }

  lemma LoadedKeys(disk: map<TaskId, Task>, now: int)
    ensures LoadedAll(disk, now).Keys == disk.Keys
    ensures forall id :: id in disk ==> LoadedAll(disk, now)[id].id == disk[id].id
  {}

  lemma TakenBack(s: State, id: TaskId, task: Task)
    ensures var t := Put(s, id, task, false);
            t.(tasks := t.tasks - {id}) == s.(seen := s.seen + {task}, tasks := s.tasks - {id})
  {
    assert s.tasks[id := task] - {id} == s.tasks - {id};
  }

  lemma NoneSpawned(before: map<WorkerId, Worker>, first: nat)
    ensures SpawnedAll(before, before, [], first)
  {}

  lemma OneMoreSpawned(before: map<WorkerId, Worker>, after: map<WorkerId, Worker>, ids: seq<TaskId>, first: nat,
                       id: TaskId)
    requires SpawnedAll(before, after, ids, first)
    ensures SpawnedAll(before, after[first + |ids| := Worker(id, WaitTotal, false, false)], ids + [id], first)
  {}

  lemma PartlyLoadedFails(s: State, t: State, now: int, done: set<TaskId>)
    requires PartlyLoaded(s.disk, t.disk, now, done)
    requires t == s.(disk := t.disk, seen := s.seen + LoadedSome(s.disk, done, now).Values)
    ensures t == BootFails(s, now, done)
  {
    assert t.disk == BootFails(s, now, done).disk;
  }

  lemma ResavedAsBoot(s: State, disk: map<TaskId, Task>, now: int, resaved: set<TaskId>, ids: seq<TaskId>)
    requires PartlyResumed(LoadedAll(s.disk, now), disk, now, resaved)
    ensures disk == Boot(s, now, resaved, ids).disk
  {
    hide Loaded, Resumed;
  }

  lemma SpawnedAsBoot(s: State, workers: map<WorkerId, Worker>, now: int, resaved: set<TaskId>, ids: seq<TaskId>)
    requires SpawnedAll(map[], workers, ids, s.nextWorker)
    ensures workers == Boot(s, now, resaved, ids).workers
  {
    hide LoadedAll, ResumedAll;
  }

  lemma InitialisedAsBoot(s: State, t: State, now: int, resaved: set<TaskId>, ids: seq<TaskId>)
    requires t.up
    requires Listed(ids, LoadedAll(s.disk, now), s.disk.Keys)
    requires t.tasks == ResumedAll(LoadedAll(s.disk, now), now)
    requires t.seen == s.seen + LoadedAll(s.disk, now).Values + t.tasks.Values
    requires PartlyResumed(LoadedAll(s.disk, now), t.disk, now, resaved)
    requires SpawnedAll(map[], t.workers, ids, s.nextWorker) && t.nextWorker == s.nextWorker + |ids|
    requires t == s.(up := true, tasks := t.tasks, seen := t.seen, disk := t.disk, workers := t.workers,
                     nextWorker := t.nextWorker)
    ensures ToResume(ids, s.disk, now) && t == Boot(s, now, resaved, ids)
  {
    ResavedAsBoot(s, t.disk, now, resaved, ids);
    SpawnedAsBoot(s, t.workers, now, resaved, ids);
    hide PartlyResumed, SpawnedAll, ResumedAll;
  }
}
