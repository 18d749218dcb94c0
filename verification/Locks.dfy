/** The reference-counted per-id lock table of the transfer store, with any number of threads.
    `lockTransfer` is two steps (the table section, then the entry's own mutex) and the function
    it returns is two more (unlocking the entry, then the table section). */
module Locks {

  type TransferId = string
  type ThreadId = nat
  type Address = nat

  /** A lock object: how many threads count on it, and who holds its mutex. */
  datatype Lock = Lock(refs: int, holder: Holder)
  datatype Holder = Free | HeldBy(thread: ThreadId)

  datatype Pc =
    | Outside
    | Waiting(id: TransferId, entry: Address)   // refs counted, mutex not yet taken
    | Inside(id: TransferId, entry: Address)    // in the critical section of id
    | Leaving(id: TransferId, entry: Address)   // mutex released, refs still counted

  /** The manager's `locks` map, the heap of lock objects, and where every thread stands. Threads
      that are not in the map are outside. */
  datatype State = State(locks: map<TransferId, Address>, heap: map<Address, Lock>, threads: map<ThreadId, Pc>)

  const INITIAL := State(map[], map[], map[])

  function PcOf(s: State, t: ThreadId): Pc { if t in s.threads then s.threads[t] else Outside }

  function SetPc(s: State, t: ThreadId, pc: Pc): State { s.(threads := s.threads[t := pc]) }

  function SetRefs(s: State, entry: Address, refs: int): State
    requires entry in s.heap
  {
    s.(heap := s.heap[entry := s.heap[entry].(refs := refs)])
  }

  /** The first table section: find the entry, or allocate one at a new address, and count. */
  function Enter(s: State, t: ThreadId, id: TransferId, address: Address): State {
    var s1 := if id in s.locks && s.locks[id] in s.heap then s
              else s.(locks := s.locks[id := address], heap := s.heap[address := Lock(0, Free)]);
    SetPc(SetRefs(s1, s1.locks[id], s1.heap[s1.locks[id]].refs + 1), t, Waiting(id, s1.locks[id]))
  }

  /** The second table section: stop counting, and drop the entry nobody counts on. */
  function Leave(s: State, t: ThreadId): State
    requires PcOf(s, t).Leaving? && PcOf(s, t).entry in s.heap
  {
    var pc := PcOf(s, t);
    var s1 := SetPc(SetRefs(s, pc.entry, s.heap[pc.entry].refs - 1), t, Outside);
    if s1.heap[pc.entry].refs == 0 then s1.(locks := s1.locks - {pc.id}) else s1
  }

  function SetHolder(s: State, entry: Address, holder: Holder): State
    requires entry in s.heap
  {
    s.(heap := s.heap[entry := s.heap[entry].(holder := holder)])
  }

  datatype Event =
    | EEnter(t: ThreadId, id: TransferId, address: Address)
    | ELock(t: ThreadId)
    | EUnlock(t: ThreadId)
    | ELeave(t: ThreadId)

  predicate Enabled(s: State, e: Event) {
    match e
    case EEnter(t, _, address) => PcOf(s, t).Outside? && address !in s.heap
    case ELock(t) => PcOf(s, t).Waiting? && PcOf(s, t).entry in s.heap && s.heap[PcOf(s, t).entry].holder.Free?
    case EUnlock(t) => PcOf(s, t).Inside? && PcOf(s, t).entry in s.heap
    case ELeave(t) => PcOf(s, t).Leaving? && PcOf(s, t).entry in s.heap
  }

  function Next(s: State, e: Event): State
    requires Enabled(s, e)
  {
    match e
    case EEnter(t, id, address) => Enter(s, t, id, address)
    case ELock(t) => var pc := PcOf(s, t); SetPc(SetHolder(s, pc.entry, HeldBy(t)), t, Inside(pc.id, pc.entry))
    case EUnlock(t) => var pc := PcOf(s, t); SetPc(SetHolder(s, pc.entry, Free), t, Leaving(pc.id, pc.entry))
    case ELeave(t) => Leave(s, t)
  }

  predicate Legal(s: State, es: seq<Event>)
    decreases |es|
  {
    es == [] || (Enabled(s, es[0]) && Legal(Next(s, es[0]), es[1..]))
  }

  function Exec(s: State, es: seq<Event>): State
    requires Legal(s, es)
    decreases |es|
  {
    if es == [] then s else Exec(Next(s, es[0]), es[1..])
  }

  // ----- The invariant -----

  /** Threads that are counted for an id: waiting, inside, or on their way out. */
  function Users(s: State, id: TransferId): set<ThreadId> {
    set t | t in s.threads && !s.threads[t].Outside? && s.threads[t].id == id
  }

  ghost predicate ThreadsFit(s: State) {
    forall t :: t in s.threads && !s.threads[t].Outside? ==>
      && s.threads[t].id in s.locks && s.locks[s.threads[t].id] == s.threads[t].entry
      && s.threads[t].entry in s.heap
      && (s.threads[t].Inside? <==> s.heap[s.threads[t].entry].holder == HeldBy(t))
  }

  ghost predicate EntriesFit(s: State) {
    && (forall id :: id in s.locks ==>
          s.locks[id] in s.heap && s.heap[s.locks[id]].refs == |Users(s, id)| > 0)
    && (forall id, other :: id in s.locks && other in s.locks && s.locks[id] == s.locks[other] ==> id == other)
  }

  /** A held mutex is held by a thread that is inside with that very entry. */
  ghost predicate HoldersFit(s: State) {
    forall a :: a in s.heap && s.heap[a].holder.HeldBy? ==>
      s.heap[a].holder.thread in s.threads && s.threads[s.heap[a].holder.thread].Inside?
      && s.threads[s.heap[a].holder.thread].entry == a
  }

  ghost predicate Inv(s: State) { ThreadsFit(s) && EntriesFit(s) && HoldersFit(s) }

  lemma UsersAfter(s: State, t: ThreadId, pc: Pc, id: TransferId)
    ensures Users(SetPc(s, t, pc), id) ==
            if !pc.Outside? && pc.id == id then Users(s, id) + {t} else Users(s, id) - {t}
  {}

  lemma EnterKeeps(s: State, t: ThreadId, id: TransferId, address: Address)
    requires Inv(s) && PcOf(s, t).Outside? && address !in s.heap
    ensures Inv(Enter(s, t, id, address))
  {
    hide ThreadsFit, EntriesFit, HoldersFit, Enter;
    EnterKeepsEntries(s, t, id, address);
    EnterKeepsThreads(s, t, id, address);
    EnterKeepsHolders(s, t, id, address);
  }

  lemma EnterKeepsThreads(s: State, t: ThreadId, id: TransferId, address: Address)
    requires ThreadsFit(s) && HoldersFit(s) && PcOf(s, t).Outside? && address !in s.heap
    requires forall k :: k in s.locks ==> s.locks[k] in s.heap
    ensures ThreadsFit(Enter(s, t, id, address))
  {}

  lemma EnterKeepsHolders(s: State, t: ThreadId, id: TransferId, address: Address)
    requires HoldersFit(s) && PcOf(s, t).Outside? && address !in s.heap
    ensures HoldersFit(Enter(s, t, id, address))
  {}

  lemma EnterUsers(s: State, t: ThreadId, id: TransferId, address: Address, k: TransferId)
    requires PcOf(s, t).Outside?
    ensures Users(Enter(s, t, id, address), k) == if k == id then Users(s, k) + {t} else Users(s, k)
    ensures t !in Users(s, k)
  {
    var n := Enter(s, t, id, address);
    UsersAfter(s, t, n.threads[t], k);
    assert Users(n, k) == Users(SetPc(s, t, n.threads[t]), k);
  }

  lemma EnterKeepsEntries(s: State, t: ThreadId, id: TransferId, address: Address)
    requires EntriesFit(s) && ThreadsFit(s) && PcOf(s, t).Outside? && address !in s.heap
    ensures EntriesFit(Enter(s, t, id, address)) && forall k :: k in s.locks ==> s.locks[k] in s.heap
  {
    hide Users, Enter, ThreadsFit, EntriesFit;
    var n := Enter(s, t, id, address);
    forall k ensures Users(n, k) == if k == id then Users(s, k) + {t} else Users(s, k) {
      EnterUsers(s, t, id, address, k);
    }
    EnterUsers(s, t, id, address, id);
    if id !in s.locks { NoUsers(s, id); }
    EnterTable(s, t, id, address);
    EntriesAfter(s, n, t, id, address);
  }

  lemma EntriesAfter(s: State, n: State, t: ThreadId, id: TransferId, address: Address)
    requires EntriesFit(s) && address !in s.heap && t !in Users(s, id)
    requires forall k :: Users(n, k) == if k == id then Users(s, k) + {t} else Users(s, k)
    requires id !in s.locks ==> Users(s, id) == {}
    requires var entry := if id in s.locks then s.locks[id] else address;
             && n.locks == s.locks[id := entry] && entry in n.heap
             && n.heap[entry].refs == (if id in s.locks then s.heap[entry].refs else 0) + 1
             && (forall a :: a in s.heap && a != entry ==> a in n.heap && n.heap[a] == s.heap[a])
    ensures EntriesFit(n) && forall k :: k in s.locks ==> s.locks[k] in s.heap
  {
    hide Users;
    assert |Users(n, id)| == |Users(s, id)| + 1;
  }

  /** What the first table section does to the table and to the lock objects. */
  lemma EnterTable(s: State, t: ThreadId, id: TransferId, address: Address)
    requires EntriesFit(s) && address !in s.heap
    ensures var n := Enter(s, t, id, address); var entry := if id in s.locks then s.locks[id] else address;
            && n.locks == s.locks[id := entry] && entry in n.heap
            && n.heap[entry].refs == (if id in s.locks then s.heap[entry].refs else 0) + 1
            && (forall a :: a in s.heap && a != entry ==> a in n.heap && n.heap[a] == s.heap[a])
  {
    hide Users;
  }

  lemma NoUsers(s: State, id: TransferId)
    requires ThreadsFit(s) && id !in s.locks
    ensures Users(s, id) == {}
  {}

  lemma LeaveUsers(s: State, t: ThreadId, k: TransferId)
    requires PcOf(s, t).Leaving? && PcOf(s, t).entry in s.heap
    ensures Users(Leave(s, t), k) == if k == PcOf(s, t).id then Users(s, k) - {t} else Users(s, k)
    ensures t in Users(s, PcOf(s, t).id)
  {
    UsersAfter(s, t, Outside, k);
    assert Users(Leave(s, t), k) == Users(SetPc(s, t, Outside), k);
  }

  lemma LeaveKeeps(s: State, t: ThreadId)
    requires Inv(s) && PcOf(s, t).Leaving?
    ensures Inv(Leave(s, t))
  {
    assert PcOf(s, t).entry in s.heap;
    hide ThreadsFit, EntriesFit, HoldersFit, Leave;
    LeaveKeepsEntries(s, t);
    LeaveKeepsThreads(s, t);
    LeaveKeepsHolders(s, t);
  }

  lemma LeaveKeepsEntries(s: State, t: ThreadId)
    requires ThreadsFit(s) && EntriesFit(s) && PcOf(s, t).Leaving?
    ensures EntriesFit(Leave(s, t))
  {
    var n, id := Leave(s, t), PcOf(s, t).id;
    forall k ensures Users(n, k) == if k == id then Users(s, k) - {t} else Users(s, k) { LeaveUsers(s, t, k); }
    LeaveUsers(s, t, id);
    hide Users;
    assert |Users(n, id)| == |Users(s, id)| - 1;
  }

  /** The entry goes only when nobody else counts on it. */
  lemma LeaveKeepsThreads(s: State, t: ThreadId)
    requires ThreadsFit(s) && EntriesFit(s) && PcOf(s, t).Leaving?
    ensures ThreadsFit(Leave(s, t))
  {
    hide Users, EntriesFit;
    var id := PcOf(s, t).id;
    forall u | u in s.threads && u != t && !s.threads[u].Outside? && s.threads[u].id == id
      ensures s.heap[s.locks[id]].refs > 1
    {
      NotTheLast(s, t, u);
    }
  }

  lemma NotTheLast(s: State, t: ThreadId, u: ThreadId)
    requires ThreadsFit(s) && EntriesFit(s) && PcOf(s, t).Leaving? && u != t
    requires u in s.threads && !s.threads[u].Outside? && s.threads[u].id == PcOf(s, t).id
    ensures s.heap[s.locks[s.threads[u].id]].refs > 1
  {
    var users := Users(s, PcOf(s, t).id);
    assert t in users && u in users;
    assert users == {t, u} + (users - {t, u});
  }

  lemma LeaveKeepsHolders(s: State, t: ThreadId)
    requires HoldersFit(s) && PcOf(s, t).Leaving? && PcOf(s, t).entry in s.heap
    ensures HoldersFit(Leave(s, t))
  {}

  lemma MutexKeeps(s: State, e: Event)
    requires Inv(s) && Enabled(s, e) && (e.ELock? || e.EUnlock?)
    ensures Inv(Next(s, e))
  {
    MutexKeepsEntries(s, e);
    MutexKeepsThreads(s, e);
    hide ThreadsFit, EntriesFit;
  }

  lemma MutexKeepsEntries(s: State, e: Event)
    requires EntriesFit(s) && Enabled(s, e) && (e.ELock? || e.EUnlock?)
    ensures EntriesFit(Next(s, e))
  {
    var n := Next(s, e);
    forall k ensures Users(n, k) == Users(s, k) {
      UsersAfter(s, e.t, n.threads[e.t], k);
      assert Users(n, k) == Users(SetPc(s, e.t, n.threads[e.t]), k);
    }
    hide Users;
  }

  lemma MutexKeepsThreads(s: State, e: Event)
    requires ThreadsFit(s) && HoldersFit(s) && Enabled(s, e) && (e.ELock? || e.EUnlock?)
    ensures ThreadsFit(Next(s, e))
  {}

  lemma StepKeeps(s: State, e: Event)
    requires Inv(s) && Enabled(s, e)
    ensures Inv(Next(s, e))
  {
    match e
    case EEnter(t, id, address) => EnterKeeps(s, t, id, address);
    case ELock(_) => MutexKeeps(s, e);
    case EUnlock(_) => MutexKeeps(s, e);
    case ELeave(t) => LeaveKeeps(s, t);
  }

  lemma {:induction false} RunKeepsInv(s: State, es: seq<Event>)
    requires Inv(s) && Legal(s, es)
    ensures Inv(Exec(s, es))
    decreases |es|
  {
    if es != [] {
      StepKeeps(s, es[0]);
      RunKeepsInv(Next(s, es[0]), es[1..]);
    }
  }

  // ----- Theorems -----

  /** At most one thread is inside an id's critical section. */
  lemma MutualExclusion(es: seq<Event>, t: ThreadId, u: ThreadId)
    requires Legal(INITIAL, es)
    requires var s := Exec(INITIAL, es); PcOf(s, t).Inside? && PcOf(s, u).Inside? && PcOf(s, t).id == PcOf(s, u).id
    ensures t == u
  {
    RunKeepsInv(INITIAL, es);
  }

  /** Two threads counted for one id share one lock object; `refs` is the number of threads
      counted; and the map has an entry exactly while there are any. */
  lemma TableIsExact(es: seq<Event>, id: TransferId)
    requires Legal(INITIAL, es)
    ensures var s := Exec(INITIAL, es);
            && (id in s.locks <==> Users(s, id) != {})
            && (id in s.locks ==> s.locks[id] in s.heap && s.heap[s.locks[id]].refs == |Users(s, id)|)
            && (forall t, u :: t in Users(s, id) && u in Users(s, id) ==> s.threads[t].entry == s.threads[u].entry)
  {
    RunKeepsInv(INITIAL, es);
    var s := Exec(INITIAL, es);
    forall t | t in Users(s, id) ensures id in s.locks && s.locks[id] == s.threads[t].entry {}
    if id in s.locks { assert |Users(s, id)| > 0; }
  }

  /** Nobody waits for ever behind nobody: while a thread waits for an id, it or the thread inside
      can move. */
  lemma WaitersCanBeServed(es: seq<Event>, t: ThreadId) returns (e: Event)
    requires Legal(INITIAL, es) && PcOf(Exec(INITIAL, es), t).Waiting?
    ensures Enabled(Exec(INITIAL, es), e)
    ensures e == ELock(t) || (e.EUnlock? && PcOf(Exec(INITIAL, es), e.t).id == PcOf(Exec(INITIAL, es), t).id)
  {
    RunKeepsInv(INITIAL, es);
    var s := Exec(INITIAL, es);
    var entry := PcOf(s, t).entry;
    e := if s.heap[entry].holder.Free? then ELock(t) else EUnlock(s.heap[entry].holder.thread);
  }

  // ----- The table as it is written -----

  class LockTable {
    var locks: map<TransferId, Address>
    // The heap of lock objects and the threads of the Go runtime.
    var heap: map<Address, Lock>
    var threads: map<ThreadId, Pc>

    ghost function View(): State
      reads this
    {
      State(locks, heap, threads)
    }

    constructor ()
      ensures View() == INITIAL
    {
      locks, heap, threads := map[], map[], map[];
    }

    method LockTransfer(t: ThreadId, id: TransferId, address: Address) returns (entry: Address)
      requires PcOf(View(), t).Outside? && address !in heap
      requires forall k :: k in locks ==> locks[k] in heap
      modifies this
      ensures View() == Enter(old(View()), t, id, address)
      ensures threads[t] == Waiting(id, entry)
    {
      if id in locks {
        entry := locks[id];
      } else {
        entry := address;
        heap := heap[entry := Lock(0, Free)];
        locks := locks[id := entry];
      }
      heap := heap[entry := heap[entry].(refs := heap[entry].refs + 1)];
      threads := threads[t := Waiting(id, entry)];
    }

    method Unlocked(t: ThreadId)
      requires PcOf(View(), t).Leaving? && PcOf(View(), t).entry in heap
      modifies this
      ensures View() == Leave(old(View()), t)
    {
      var id, entry := threads[t].id, threads[t].entry;
      heap := heap[entry := heap[entry].(refs := heap[entry].refs - 1)];
      threads := threads[t := Outside];
      if heap[entry].refs == 0 { locks := locks - {id}; }
    }
  }
}
