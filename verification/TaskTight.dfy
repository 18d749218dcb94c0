/** The bound of BlockedMeansBusy is tight: heavy tasks waiting for the heavy semaphore keep
    their total slot, so a manager can stand still with only heavyLimit runners executing. */
module TaskTight {
  import opened Common
  import opened TaskSpec
  import opened TaskInvariant
  import opened TaskProgress

  ghost predicate Reaches(s: State, t: State) {
    exists es :: Legal(s, es) && Exec(s, es) == t
  }

  lemma {:induction false} ExecAppend(s: State, es: seq<Event>, e: Event)
    requires Legal(s, es) && Enabled(Exec(s, es), e)
    ensures Legal(s, es + [e]) && Exec(s, es + [e]) == Next(Exec(s, es), e)
    decreases |es|
  {
    hide Enabled, Next;
    var all := es + [e];
    if es == [] {
      assert all[1..] == [];
      assert all[0] == e;
      assert Legal(Next(s, e), []);
    } else {
      assert all[1..] == es[1..] + [e] && all[0] == es[0];
      ExecAppend(Next(s, es[0]), es[1..], e);
    }
  }

  lemma ReachesStep(s: State, t: State, e: Event)
    requires Reaches(s, t) && Enabled(t, e)
    ensures Reaches(s, Next(t, e))
  {
    hide Enabled, Next;
    var es :| Legal(s, es) && Exec(s, es) == t;
    ExecAppend(s, es, e);
  }

  /** A distinct id for every worker number. */
  function Name(n: nat): (name: TaskId)
    ensures |name| == n
  {
    seq(n, i => 'a')
  }

  /** Worker `w` when the first `k` workers have gone as far as they can. */
  function Stage(w: nat, k: nat, heavyLimit: nat): Worker {
    if w >= k then Worker(Name(w), WaitTotal, false, false)
    else if w < heavyLimit then Worker(Name(w), Executing, true, true)
    else Worker(Name(w), WaitHeavy, true, false)
  }

  function Min(a: nat, b: nat): nat { if a < b then a else b }

  /** `n` heavy tasks are submitted and the first `k` workers have moved. */
  ghost predicate Shape(s: State, n: nat, k: nat) {
    && s.up && !s.closed && s.nextWorker == n && k <= s.totalLimit && s.pendingCancels == {}
    && s.totalUsed == k && s.heavyUsed == Min(k, s.heavyLimit)
    && (forall w: nat :: w in s.workers <==> w < n)
    && (forall w: nat :: w in s.workers ==> s.workers[w] == Stage(w, k, s.heavyLimit))
    && (forall w: nat :: w < n ==> Name(w) in s.tasks && s.tasks[Name(w)].heavy)
    && (forall w: nat :: k <= w < n ==> s.tasks[Name(w)].status == Queued)
    && (forall id :: id in s.tasks || id in s.disk ==> |id| < n)
  }

  lemma NoTasksYet(totalLimit: nat, heavyLimit: nat) returns (s: State)
    requires GoodLimits(totalLimit, heavyLimit)
    ensures Reaches(Blank(totalLimit, heavyLimit), s) && Shape(s, 0, 0)
    ensures s.totalLimit == totalLimit && s.heavyLimit == heavyLimit
  {
    var b := Blank(totalLimit, heavyLimit);
    assert Legal(b, []) && Exec(b, []) == b;
    s := Next(b, EBoot(0, {}, []));
    ReachesStep(b, b, EBoot(0, {}, []));
  }

  lemma OneMoreShape(s: State, n: nat, task: Task)
    requires Shape(s, n, 0) && task == NewTask(Name(n), "tool", "", true, true, 0)
    ensures s.up && task.id !in s.tasks && task.id !in s.disk
    ensures Shape(Submit(s, task, true), n + 1, 0)
  {
    hide Name, Stage;
    OneMoreRecord(s, n, task);
    assert Stage(n, 0, s.heavyLimit) == Worker(Name(n), WaitTotal, false, false) by { StageAtStart(n, s.heavyLimit); }
    var t := Submit(s, task, true);
    assert t.workers == s.workers[n := Stage(n, 0, s.heavyLimit)];
  }

  lemma StageAtStart(w: nat, heavyLimit: nat)
    ensures Stage(w, 0, heavyLimit) == Worker(Name(w), WaitTotal, false, false)
  {}

  lemma OneMoreRecord(s: State, n: nat, task: Task)
    requires Shape(s, n, 0) && task == NewTask(Name(n), "tool", "", true, true, 0)
    ensures var t := Submit(s, task, true);
            && (forall w: nat :: w < n + 1 ==> Name(w) in t.tasks && t.tasks[Name(w)].heavy)
            && (forall w: nat :: 0 <= w < n + 1 ==> t.tasks[Name(w)].status == Queued)
            && (forall id :: id in t.tasks || id in t.disk ==> |id| < n + 1)
  {
    hide Name, Stage;
    assert task.id !in s.tasks && task.id !in s.disk;
    assert forall w: nat :: w < n ==> Name(w) in s.tasks && Name(w) != task.id;
  }

  lemma OneMoreTask(b: State, s: State, n: nat) returns (t: State)
    requires Reaches(b, s) && Shape(s, n, 0)
    ensures Reaches(b, t) && Shape(t, n + 1, 0)
    ensures t.totalLimit == s.totalLimit && t.heavyLimit == s.heavyLimit
  {
    hide Reaches, Name;
    var task := NewTask(Name(n), "tool", "", true, true, 0);
    t := Submit(s, task, true);
    OneMoreShape(s, n, task);
    hide Shape;
    ReachesStep(b, s, ESubmit(task, true));
  }

  /** Where the next worker, and its task, stand. */
  lemma NextWorker(s: State, n: nat, k: nat)
    requires Shape(s, n, k) && k < n
    ensures k in s.workers && s.workers[k] == Worker(Name(k), WaitTotal, false, false)
    ensures Name(k) in s.tasks && s.tasks[Name(k)].heavy && s.tasks[Name(k)].status == Queued
    ensures s.totalUsed == k && s.heavyUsed == Min(k, s.heavyLimit)
  {
    hide Name;
  }

  /** After its two first steps the next worker waits for a heavy slot. */
  function AtHeavy(s: State, k: nat): State {
    s.(totalUsed := k + 1, workers := s.workers[k := Worker(Name(k), WaitHeavy, true, false)])
  }

  lemma Overwritten(m: map<WorkerId, Worker>, k: WorkerId, a: Worker, b: Worker)
    ensures m[k := a][k := b] == m[k := b]
  {}

  lemma FirstSlot(b: State, s: State, n: nat, k: nat)
    requires Reaches(b, s) && Shape(s, n, k) && k < n && k < s.totalLimit
    ensures Reaches(b, AtHeavy(s, k))
  {
    hide Reaches, Shape, Name;
    NextWorker(s, n, k);
    var t := TakeTotal(s, k);
    ReachesStep(b, s, ETakeTotal(k));
    ReachesStep(b, t, EReadHeavy(k));
    hide Enabled;
    Overwritten(s.workers, k, t.workers[k], Worker(Name(k), WaitHeavy, true, false));
  }

  /** A worker that has both slots. */
  function AtStart(s: State, k: nat): State {
    s.(totalUsed := k + 1, heavyUsed := k + 1, workers := s.workers[k := Worker(Name(k), Starting, true, true)])
  }

  lemma SecondSlot(b: State, s: State, n: nat, k: nat)
    requires Reaches(b, AtHeavy(s, k)) && Shape(s, n, k) && k < n && k < s.totalLimit && k < s.heavyLimit
    ensures Reaches(b, AtStart(s, k))
  {
    hide Reaches, Shape, Name;
    NextWorker(s, n, k);
    var t := AtHeavy(s, k);
    ReachesStep(b, t, ETakeHeavy(k));
    hide Enabled;
    Overwritten(s.workers, k, t.workers[k], Worker(Name(k), Starting, true, true));
  }

  /** A worker that finds a heavy slot free starts its runner. */
  function Begun(s: State, k: nat): State
    requires Name(k) in s.tasks
  {
    Put(s, Name(k), MarkRunning(s.tasks[Name(k)], 0), true)
      .(totalUsed := k + 1, heavyUsed := k + 1, cancel := s.cancel[Name(k) := k],
        workers := s.workers[k := Worker(Name(k), Executing, true, true)])
  }

  lemma Beginning(b: State, s: State, n: nat, k: nat)
    requires Reaches(b, AtStart(s, k)) && Shape(s, n, k) && k < n && Name(k) in s.tasks
    ensures Reaches(b, Begun(s, k))
  {
    hide Reaches, Shape, Name, Begun;
    NextWorker(s, n, k);
    var t := AtStart(s, k);
    StartBegins(s, k);
    ReachesStep(b, t, EStart(k, 0, true));
  }

  lemma StartBegins(s: State, k: nat)
    requires Name(k) in s.tasks && s.tasks[Name(k)].status == Queued
    ensures Start(AtStart(s, k), k, 0, true) == Begun(s, k)
  {
    hide MarkRunning, Name;
    Overwritten(s.workers, k, AtStart(s, k).workers[k], Worker(Name(k), Executing, true, true));
  }

  lemma AtHeavyShape(s: State, n: nat, k: nat)
    requires Shape(s, n, k) && k < n && k < s.totalLimit && k >= s.heavyLimit
    ensures Shape(AtHeavy(s, k), n, k + 1)
  {}

  lemma NamesDiffer(w: nat, k: nat)
    requires w != k
    ensures Name(w) != Name(k)
  {
    assert |Name(w)| != |Name(k)|;
  }

  lemma BegunShape(s: State, n: nat, k: nat)
    requires Shape(s, n, k) && k < n && k < s.totalLimit && k < s.heavyLimit && Name(k) in s.tasks
    requires forall id :: id in s.tasks ==> s.tasks[id].id == id
    ensures Shape(Begun(s, k), n, k + 1)
  {
    BegunWorkers(s, n, k);
    BegunRecords(s, n, k);
    hide Name, Stage, MarkRunning;
  }

  lemma BegunWorkers(s: State, n: nat, k: nat)
    requires Shape(s, n, k) && k < n && k < s.heavyLimit && Name(k) in s.tasks
    ensures var t := Begun(s, k);
            && (forall w: nat :: w in t.workers <==> w < n)
            && (forall w: nat :: w in t.workers ==> t.workers[w] == Stage(w, k + 1, t.heavyLimit))
  {
    hide Name, MarkRunning;
  }

  lemma BegunRecords(s: State, n: nat, k: nat)
    requires Shape(s, n, k) && k < n && k < s.totalLimit && k < s.heavyLimit && Name(k) in s.tasks
    requires forall id :: id in s.tasks ==> s.tasks[id].id == id
    ensures var t := Begun(s, k);
            && (forall w: nat :: w < n ==> Name(w) in t.tasks && t.tasks[Name(w)].heavy)
            && (forall w: nat :: k + 1 <= w < n ==> t.tasks[Name(w)].status == Queued)
            && (forall id :: id in t.tasks || id in t.disk ==> |id| < n)
  {
    assert Name(k) in s.tasks;
    forall w: nat | w < n && w != k ensures Name(w) != Name(k) { NamesDiffer(w, k); }
  }

  /** The next worker takes a total slot, and starts its runner if a heavy slot is left. */
  lemma OneMoreWorker(b: State, s: State, n: nat, k: nat) returns (t: State)
    requires Reaches(b, s) && Shape(s, n, k) && k < n && k < s.totalLimit
    requires Inv(b)
    ensures Reaches(b, t) && Shape(t, n, k + 1)
    ensures t.totalLimit == s.totalLimit && t.heavyLimit == s.heavyLimit
  {
    hide Reaches, Shape, Inv;
    FirstSlot(b, s, n, k);
    if k >= s.heavyLimit {
      t := AtHeavy(s, k);
      AtHeavyShape(s, n, k);
    } else {
      SecondSlot(b, s, n, k);
      NextWorker(s, n, k);
      Beginning(b, s, n, k);
      t := Begun(s, k);
      OwnIds(b, s);
      BegunShape(s, n, k);
    }
  }

  lemma OwnIds(b: State, s: State)
    requires Inv(b) && Reaches(b, s)
    ensures forall id :: id in s.tasks ==> s.tasks[id].id == id
  {
    var es :| Legal(b, es) && Exec(b, es) == s;
    RunKeepsInv(b, es);
    hide Legal, Exec, Placed, Unique, Served, Registry, Slots, Channels, Disk;
  }

  lemma {:induction false} CountBelow(n: nat, a: set<nat>)
    requires forall i: nat :: i in a <==> i < n
    ensures |a| == n
  {
    if n > 0 { CountBelow(n - 1, a - {n - 1}); }
  }

  lemma ShapeIsQuiet(s: State, e: Event)
    requires Shape(s, s.totalLimit + 1, s.totalLimit) && s.heavyLimit <= s.totalLimit && Internal(e)
    ensures !Enabled(s, e)
  {}

  lemma AllSubmitted(b: State, s: State, n: nat) returns (t: State)
    requires Reaches(b, s) && Shape(s, 0, 0)
    ensures Reaches(b, t) && Shape(t, n, 0)
    ensures t.totalLimit == s.totalLimit && t.heavyLimit == s.heavyLimit
  {
    hide Reaches, Shape;
    t := s;
    var i := 0;
    while i < n
      invariant i <= n && Reaches(b, t) && Shape(t, i, 0)
      invariant t.totalLimit == s.totalLimit && t.heavyLimit == s.heavyLimit
    {
      t := OneMoreTask(b, t, i);
      i := i + 1;
    }
  }

  lemma AllMoved(b: State, s: State) returns (t: State)
    requires Inv(b) && Reaches(b, s) && Shape(s, s.totalLimit + 1, 0)
    ensures Reaches(b, t) && Shape(t, s.totalLimit + 1, s.totalLimit)
    ensures t.totalLimit == s.totalLimit && t.heavyLimit == s.heavyLimit
  {
    hide Reaches, Shape, Inv;
    t := s;
    var k := 0;
    while k < s.totalLimit
      invariant k <= s.totalLimit && Reaches(b, t) && Shape(t, s.totalLimit + 1, k)
      invariant t.totalLimit == s.totalLimit && t.heavyLimit == s.heavyLimit
    {
      t := OneMoreWorker(b, t, s.totalLimit + 1, k);
      k := k + 1;
    }
  }

  lemma StandsStill(s: State)
    requires Shape(s, s.totalLimit + 1, s.totalLimit) && s.heavyLimit <= s.totalLimit
    ensures Quiet(s) && Blocked(s, s.totalLimit)
    ensures forall w: nat :: w in ExecutingWorkers(s) <==> w < s.heavyLimit
  {
    forall e | Internal(e) ensures !Enabled(s, e) {
      ShapeIsQuiet(s, e);
    }
    hide Enabled, Internal, Name;
  }

  /** For every choice of limits some run leads to a state where a worker is blocked, nothing
      internal can move, and exactly heavyLimit runners are executing. */
  lemma BoundIsTight(totalLimit: nat, heavyLimit: nat) returns (s: State)
    requires GoodLimits(totalLimit, heavyLimit)
    ensures Reaches(Blank(totalLimit, heavyLimit), s)
    ensures s.totalLimit == totalLimit && s.heavyLimit == heavyLimit
    ensures Quiet(s) && Blocked(s, totalLimit) && |ExecutingWorkers(s)| == heavyLimit
  {
    hide Reaches, Inv, Shape, Quiet, Blocked, ExecutingWorkers;
    var b := Blank(totalLimit, heavyLimit);
    BlankInv(totalLimit, heavyLimit);
    s := NoTasksYet(totalLimit, heavyLimit);
    s := AllSubmitted(b, s, totalLimit + 1);
    s := AllMoved(b, s);
    StandsStill(s);
    CountBelow(heavyLimit, ExecutingWorkers(s));
  }
}
