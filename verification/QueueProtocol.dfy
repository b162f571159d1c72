/** The download queue under concurrency: tasks that wait, take, hold and release
    slots in separate steps, while priorities, entries and the ceiling change.

    A notification wakes exactly those tasks registered when it is sent. An id is
    used by at most one waiting or holding task at a time, and an entry left
    behind by an abandoned task is removed before its id is used again. */
module QueueProtocol {
  import opened Prelude
  import opened PriorityQueue

  /** Where a task stands. `Trying` and `TryLock` hold the lock: the ceiling has
      been read, the permit not yet taken. The last three are a slot in use and
      the steps of its release. */
  datatype Pc =
    | Numbered(sequence: nat)
    | Looping
    | Registered(woken: bool)
    | Trying(woken: bool, ceiling: nat)
    | Parked(woken: bool)
    | TryLock(ceiling: nat)
    | Holding
    | Deactivated
    | Returned

  datatype Task = Task(priority: Priority, pc: Pc)

  type Tasks = map<Id, Task>

  /** `total` counts all permits; `growing` lists permits promised to a raised
      ceiling but not yet added; `notifying` counts notifications not yet sent. */
  datatype System = System(q: Queue, tasks: Tasks, lock: Option<Id>, total: nat, growing: seq<nat>, notifying: nat)

  datatype Step =
    | Begin(id: Id, priority: Priority)
    | Join(id: Id)
    | Register(id: Id)
    | Check(id: Id)
    | Take(id: Id)
    | Wake(id: Id)
    | Abandon(id: Id)
    | TryBegin(id: Id, priority: Priority)
    | TryTake(id: Id)
    | Deactivate(id: Id)
    | Return(id: Id)
    | NotifyAfter(id: Id)
    | SetPriority(id: Id, priority: Priority)
    | Remove(id: Id)
    | SwapMax(max: nat)
    | Grow(k: nat)
    | Notify

  function WokenPc(pc: Pc): Pc {
    match pc
    case Registered(_) => Registered(true)
    case Trying(_, c) => Trying(true, c)
    case Parked(_) => Parked(true)
    case _ => pc
  }

  function WakeAll(tasks: Tasks): Tasks { map id | id in tasks :: tasks[id].(pc := WokenPc(tasks[id].pc)) }

  function Set(s: System, id: Id, pc: Pc): System
    requires id in s.tasks
  {
    s.(tasks := s.tasks[id := s.tasks[id].(pc := pc)])
  }

  /** The system after a step; `None` when the step is not possible. */
  function Next(s: System, step: Step): Option<System> {
    match step
    case Begin(id, priority) =>
      if id in s.tasks || Waits(s.q.heap, id) then None
      else Some(s.(q := s.q.(next := s.q.next + 1), tasks := s.tasks[id := Task(priority, Numbered(s.q.next))]))
    case Join(id) =>
      if id !in s.tasks || !s.tasks[id].pc.Numbered? || s.lock.Some? then None
      else Some(Set(s.(q := Enqueued(s.q, id, s.tasks[id].priority, s.tasks[id].pc.sequence)), id, Looping))
    case Register(id) =>
      if id !in s.tasks || !s.tasks[id].pc.Looping? then None else Some(Set(s, id, Registered(false)))
    case Check(id) =>
      if id !in s.tasks || !s.tasks[id].pc.Registered? || s.lock.Some? then None
      else if s.q.heap != [] && s.q.heap[0].id == id && |s.q.active| < s.q.max then
        Some(Set(s, id, Trying(s.tasks[id].pc.woken, s.q.max)).(lock := Some(id)))
      else Some(Set(s, id, Parked(s.tasks[id].pc.woken)))
    case Take(id) =>
      if id !in s.tasks || !s.tasks[id].pc.Trying? || s.q.heap == [] then None
      else if s.q.avail > 0 then
        Some(Set(s, id, Holding).(q := Grant(s.q, id, s.tasks[id].priority), lock := None))
      else Some(Set(s, id, Parked(s.tasks[id].pc.woken)).(lock := None))
    case Wake(id) =>
      if id !in s.tasks || s.tasks[id].pc != Parked(true) then None else Some(Set(s, id, Looping))
    case Abandon(id) =>
      if id !in s.tasks || !s.tasks[id].pc.Parked? then None else Some(s.(tasks := s.tasks - {id}))
    case TryBegin(id, priority) =>
      if id in s.tasks || Waits(s.q.heap, id) || s.lock.Some? then None
      else if |s.q.active| >= s.q.max || (s.q.heap != [] && Rank(s.q.heap[0].priority) > Rank(priority)) then Some(s)
      else Some(s.(tasks := s.tasks[id := Task(priority, TryLock(s.q.max))], lock := Some(id)))
    case TryTake(id) =>
      if id !in s.tasks || !s.tasks[id].pc.TryLock? then None
      else if s.q.avail > 0 then
        Some(Set(s, id, Holding).(
          q := s.q.(active := s.q.active[id := s.tasks[id].priority], avail := s.q.avail - 1), lock := None))
      else Some(s.(tasks := s.tasks - {id}, lock := None))
    case Deactivate(id) =>
      if id !in s.tasks || !s.tasks[id].pc.Holding? || s.lock.Some? then None
      else Some(Set(s, id, Deactivated).(q := s.q.(active := s.q.active - {id})))
    case Return(id) =>
      if id !in s.tasks || !s.tasks[id].pc.Deactivated? then None
      else Some(Set(s, id, Returned).(q := s.q.(avail := s.q.avail + 1)))
    case NotifyAfter(id) =>
      if id !in s.tasks || !s.tasks[id].pc.Returned? then None
      else Some(s.(tasks := WakeAll(s.tasks - {id})))
    case SetPriority(id, priority) =>
      if s.lock.Some? then None
      else Some(s.(q := Reprioritized(s.q, id, priority),
                   notifying := s.notifying + (if id in s.q.prios then 1 else 0)))
    case Remove(id) =>
      if s.lock.Some? then None
      else Some(s.(q := Removed(s.q, id), notifying := s.notifying + 1))
    case SwapMax(max) =>
      if max > s.q.max then Some(s.(q := s.q.(max := max), growing := s.growing + [max - s.q.max]))
      else Some(s.(q := s.q.(max := max), notifying := s.notifying + 1))
    case Grow(k) =>
      if k >= |s.growing| then None
      else Some(s.(q := s.q.(avail := s.q.avail + s.growing[k]), total := s.total + s.growing[k],
                   growing := s.growing[..k] + s.growing[k + 1..], notifying := s.notifying + 1))
    case Notify =>
      if s.notifying == 0 then None
      else Some(s.(tasks := WakeAll(s.tasks), notifying := s.notifying - 1))
  }

  function Initial(max: nat): System { System(Queue([], map[], map[], max, max, 0), map[], None, max, [], 0) }

  // ---------------------------------------------------------- the invariant

  predicate HoldsPermit(pc: Pc) { pc.Holding? || pc.Deactivated? }

  predicate Releasing(pc: Pc) { HoldsPermit(pc) || pc.Returned? }

  predicate Locking(pc: Pc) { pc.Trying? || pc.TryLock? }

  /** A task that has an entry in the heap, unless someone removed it. */
  predicate Queued(pc: Pc) { pc.Looping? || pc.Registered? || pc.Trying? || pc.Parked? }

  function Holders(tasks: Tasks): set<Id> { set id | id in tasks && HoldsPermit(tasks[id].pc) }

  /** Only waiting tasks have entries. */
  ghost predicate EntriesOk(s: System) {
    forall id :: id in s.tasks && Waits(s.q.heap, id) ==> Queued(s.tasks[id].pc)
  }

  /** Sequence numbers are never reused. */
  ghost predicate NumbersOk(s: System) {
    && (forall e :: e in s.q.heap ==> e.sequence < s.q.next)
    && (forall id :: id in s.tasks && s.tasks[id].pc.Numbered? ==> Fresh(s, s.tasks[id].pc.sequence))
    && (forall id, jd :: SameNumber(s, id, jd) ==> id == jd)
  }

  predicate SameNumber(s: System, id: Id, jd: Id) {
    && id in s.tasks && jd in s.tasks && s.tasks[id].pc.Numbered? && s.tasks[jd].pc.Numbered?
    && s.tasks[id].pc.sequence == s.tasks[jd].pc.sequence
  }

  predicate Fresh(s: System, n: nat) { n < s.q.next && forall e :: e in s.q.heap ==> e.sequence != n }

  /** The active map is the set of slots in use. */
  predicate ActiveOk(s: System) {
    && (forall id :: id in s.q.active ==> id in s.tasks && s.tasks[id].pc.Holding?)
    && (forall id :: id in s.tasks && s.tasks[id].pc.Holding? ==> id in s.q.active)
  }

  /** Free and outstanding permits make up the total, and the total, with what is
      still to be added, is at least the ceiling. */
  predicate PermitsOk(s: System) {
    s.q.avail + |Holders(s.tasks)| == s.total && s.total + Sum(s.growing) >= s.q.max
  }

  /** The lock holder's check still holds. */
  predicate LockOk(s: System) {
    && (forall id :: id in s.tasks && Locking(s.tasks[id].pc) ==> s.lock == Some(id))
    && (s.lock.Some? ==> s.lock.value in s.tasks && Checked(s, s.lock.value))
  }

  predicate Checked(s: System, id: Id)
    requires id in s.tasks
  {
    match s.tasks[id].pc
    case Trying(_, ceiling) => |s.q.active| < ceiling && s.q.heap != [] && s.q.heap[0].id == id
    case TryLock(ceiling) =>
      |s.q.active| < ceiling && (s.q.heap != [] ==> Rank(s.q.heap[0].priority) <= Rank(s.tasks[id].priority))
    case _ => false
  }

  /** Something has still to happen that will notify. */
  ghost predicate Busy(s: System) {
    s.q.max == 0 || s.notifying > 0 || s.growing != [] || exists id :: id in s.tasks && Releasing(s.tasks[id].pc)
  }

  /** The head's task is asleep with no wake-up on its way. */
  predicate HeadAsleep(s: System) {
    s.q.heap != [] && s.q.heap[0].id in s.tasks && s.tasks[s.q.heap[0].id].pc == Parked(false)
  }

  /** The queue is never wedged. */
  ghost predicate NoWedge(s: System) { HeadAsleep(s) ==> Busy(s) }

  ghost predicate Inv(s: System) {
    && QueueOk(s.q) && EntriesOk(s) && NumbersOk(s) && ActiveOk(s) && PermitsOk(s) && LockOk(s) && NoWedge(s)
  }

  // ------------------------------------------------- counting the permits out

  lemma HoldersSame(tasks: Tasks, id: Id, t: Task)
    requires HoldsPermit(t.pc) == (id in tasks && HoldsPermit(tasks[id].pc))
    ensures Holders(tasks[id := t]) == Holders(tasks)
  {
  }

  lemma HoldersMore(tasks: Tasks, id: Id, t: Task)
    requires HoldsPermit(t.pc) && (id in tasks ==> !HoldsPermit(tasks[id].pc))
    ensures |Holders(tasks[id := t])| == |Holders(tasks)| + 1
  {
    assert Holders(tasks[id := t]) == Holders(tasks) + {id};
  }

  lemma HoldersFewer(tasks: Tasks, id: Id, t: Task)
    requires !HoldsPermit(t.pc) && id in tasks && HoldsPermit(tasks[id].pc)
    ensures |Holders(tasks[id := t])| == |Holders(tasks)| - 1
  {
    assert Holders(tasks) == Holders(tasks[id := t]) + {id};
  }

  lemma HoldersLeft(tasks: Tasks, id: Id)
    requires id in tasks ==> !HoldsPermit(tasks[id].pc)
    ensures Holders(tasks - {id}) == Holders(tasks)
  {
  }

  lemma HoldersWoken(tasks: Tasks)
    ensures Holders(WakeAll(tasks)) == Holders(tasks)
  {
  }

  // ----------------------------------- what a change to one task leaves alone

  /** All tasks but `id` are as they were. */
  ghost predicate Same(s: System, s': System, id: Id) {
    forall i :: i != id ==> (i in s.tasks <==> i in s'.tasks) && (i in s.tasks ==> s'.tasks[i] == s.tasks[i])
  }

  predicate Has(s: System, id: Id, pc: Pc) { id in s.tasks && s.tasks[id].pc == pc }

  lemma EntriesKept(s: System, s': System, id: Id)
    requires EntriesOk(s) && Same(s, s', id)
    requires forall i :: i != id && Waits(s'.q.heap, i) ==> Waits(s.q.heap, i)
    requires id in s'.tasks && Waits(s'.q.heap, id) ==> Queued(s'.tasks[id].pc)
    ensures EntriesOk(s')
  {
    hide Waits, Queued;
  }

  predicate SeqIn(heap: seq<Entry>, n: nat) { exists e :: e in heap && e.sequence == n }

  lemma NumbersKept(s: System, s': System, id: Id)
    requires NumbersOk(s) && Same(s, s', id) && s.q.next <= s'.q.next
    requires forall e :: e in s'.q.heap ==> SeqIn(s.q.heap, e.sequence) || Has(s, id, Numbered(e.sequence))
    requires id in s'.tasks && s'.tasks[id].pc.Numbered? ==>
      id !in s.tasks && s'.tasks[id].pc.sequence == s.q.next < s'.q.next
    ensures NumbersOk(s')
  {
    forall e | e in s'.q.heap
      ensures e.sequence < s.q.next
      ensures forall i :: i in s.tasks && i != id && s.tasks[i].pc.Numbered? ==> e.sequence != s.tasks[i].pc.sequence
    {
      if SeqIn(s.q.heap, e.sequence) {
        var x :| x in s.q.heap && x.sequence == e.sequence;
      } else {
        forall i | i in s.tasks && i != id && s.tasks[i].pc.Numbered? ensures e.sequence != s.tasks[i].pc.sequence {
          assert !SameNumber(s, i, id);
        }
      }
    }
    forall i, j | SameNumber(s', i, j) ensures i == j {
      if i != id && j != id { assert SameNumber(s, i, j); }
    }
  }

  lemma ActiveKept(s: System, s': System, id: Id)
    requires ActiveOk(s) && Same(s, s', id)
    requires forall i :: i != id ==> (i in s'.q.active <==> i in s.q.active)
    requires id in s'.q.active <==> id in s'.tasks && s'.tasks[id].pc.Holding?
    ensures ActiveOk(s')
  {
  }

  /** A step away from the lock. */
  lemma LockKept(s: System, s': System, id: Id)
    requires LockOk(s) && Same(s, s', id) && s'.lock == s.lock
    requires id in s.tasks ==> !Locking(s.tasks[id].pc)
    requires id in s'.tasks ==> !Locking(s'.tasks[id].pc)
    requires s.lock.Some? ==> s'.q.heap == s.q.heap && s'.q.active == s.q.active
    ensures LockOk(s')
  {
  }

  lemma LockTaken(s: System, s': System, id: Id)
    requires LockOk(s) && Same(s, s', id) && s.lock.None? && s'.lock == Some(id)
    requires id in s'.tasks && Checked(s', id)
    ensures LockOk(s')
  {
  }

  lemma LockFreed(s: System, s': System, id: Id)
    requires LockOk(s) && Same(s, s', id) && s.lock == Some(id) && s'.lock.None?
    requires id in s'.tasks ==> !Locking(s'.tasks[id].pc)
    ensures LockOk(s')
  {
  }

  /** What was going to notify still will. */
  lemma BusyKept(s: System, s': System, id: Id)
    requires Busy(s) && Same(s, s', id)
    requires s'.q.max == s.q.max && s'.notifying >= s.notifying && s'.growing == s.growing
    requires id in s.tasks && Releasing(s.tasks[id].pc) ==> id in s'.tasks && Releasing(s'.tasks[id].pc)
    ensures Busy(s')
  {
    if i :| i in s.tasks && Releasing(s.tasks[i].pc) {
      assert i in s'.tasks && Releasing(s'.tasks[i].pc);
    }
  }

  /** The same head, not newly asleep. */
  lemma WedgeKept(s: System, s': System, id: Id)
    requires NoWedge(s) && Same(s, s', id)
    requires s'.q.max == s.q.max && s'.notifying >= s.notifying && s'.growing == s.growing
    requires id in s.tasks && Releasing(s.tasks[id].pc) ==> id in s'.tasks && Releasing(s'.tasks[id].pc)
    requires s'.q.heap != [] && (s'.q.heap[0].id != id || Has(s', id, Parked(false))) ==> s.q.heap != [] && s'.q.heap[0].id == s.q.heap[0].id
    requires Has(s', id, Parked(false)) && s'.q.heap != [] && s'.q.heap[0].id == id ==> Has(s, id, Parked(false)) || Busy(s)
    ensures NoWedge(s')
  {
    hide Busy;
    if HeadAsleep(s') { BusyKept(s, s', id); }
  }

  // ------------------------------------------- steps that only move a task on

  /** A queued task moves between two places in its loop, away from the lock. */
  lemma MoveKeeps(s: System, id: Id, pc: Pc)
    requires Inv(s) && id in s.tasks
    requires Queued(s.tasks[id].pc) && Queued(pc) && !Locking(s.tasks[id].pc) && !Locking(pc)
    requires pc == Parked(false) && s.q.heap != [] && s.q.heap[0].id == id ==> Busy(s)
    ensures Inv(Set(s, id, pc))
  {
    hide Waits, QueueOk, Holders, EntriesOk, NumbersOk, ActiveOk, LockOk, NoWedge, Busy, SeqIn;
    var s' := Set(s, id, pc);
    HoldersSame(s.tasks, id, s.tasks[id].(pc := pc));
    EntriesKept(s, s', id);
    HeapSeqs(s.q.heap);
    NumbersKept(s, s', id);
    NotActive(s, id);
    ActiveKept(s, s', id);
    LockKept(s, s', id);
    WedgeKept(s, s', id);
  }

  lemma HeapSeqs(heap: seq<Entry>)
    ensures forall e :: e in heap ==> SeqIn(heap, e.sequence)
  {
  }

  lemma NotActive(s: System, id: Id)
    requires ActiveOk(s)
    ensures id in s.q.active <==> id in s.tasks && s.tasks[id].pc.Holding?
  {
  }

  /** The check that fails while its task is at the head finds the queue busy:
      either the ceiling is zero or some slot is in use. */
  lemma CheckFailsBusy(s: System)
    requires ActiveOk(s) && |s.q.active| >= s.q.max
    ensures Busy(s)
  {
    if s.q.max > 0 {
      assert s.q.active.Keys != {};
      var i :| i in s.q.active;
      assert Releasing(s.tasks[i].pc);
    }
  }

  /** A permit that cannot be had is outstanding or still to be added. */
  lemma TakeFailsBusy(s: System)
    requires PermitsOk(s) && s.q.avail == 0
    ensures Busy(s)
  {
    if s.q.max > 0 && s.growing == [] {
      assert |Holders(s.tasks)| > 0;
      var i :| i in Holders(s.tasks);
      assert Releasing(s.tasks[i].pc);
    }
  }

  lemma CheckKeeps(s: System, id: Id)
    requires Inv(s) && Next(s, Check(id)).Some?
    ensures Inv(Next(s, Check(id)).value)
  {
    hide Waits, QueueOk, Holders, EntriesOk, NumbersOk, ActiveOk, LockOk, NoWedge, Busy, SeqIn, PermitsOk;
    var head := s.q.heap != [] && s.q.heap[0].id == id;
    if head && |s.q.active| < s.q.max {
      LockStep(s, id);
    } else {
      if head { CheckFailsBusy(s); }
      MoveKeeps(s, id, Parked(s.tasks[id].pc.woken));
    }
  }

  /** The check succeeds, and the lock is kept for taking the permit. */
  lemma LockStep(s: System, id: Id)
    requires Inv(s) && id in s.tasks && s.tasks[id].pc.Registered? && s.lock.None?
    requires s.q.heap != [] && s.q.heap[0].id == id && |s.q.active| < s.q.max
    ensures Inv(Set(s, id, Trying(s.tasks[id].pc.woken, s.q.max)).(lock := Some(id)))
  {
    hide Waits, QueueOk, Holders, EntriesOk, NumbersOk, ActiveOk, LockOk, NoWedge, Busy, SeqIn;
    var s' := Set(s, id, Trying(s.tasks[id].pc.woken, s.q.max)).(lock := Some(id));
    HoldersSame(s.tasks, id, s'.tasks[id]);
    EntriesKept(s, s', id);
    HeapSeqs(s.q.heap);
    NumbersKept(s, s', id);
    NotActive(s, id);
    ActiveKept(s, s', id);
    LockTaken(s, s', id);
    WedgeKept(s, s', id);
  }

  lemma LockHolder(s: System, id: Id)
    requires LockOk(s) && id in s.tasks && Locking(s.tasks[id].pc)
    ensures s.lock == Some(id) && Checked(s, id)
  {
  }

  lemma TakeKeeps(s: System, id: Id)
    requires Inv(s) && Next(s, Take(id)).Some?
    ensures Inv(Next(s, Take(id)).value)
  {
    hide Waits, QueueOk, Holders, EntriesOk, NumbersOk, ActiveOk, LockOk, NoWedge, Busy, SeqIn, Grant;
    var s' := Next(s, Take(id)).value;
    LockHolder(s, id);
    HeapSeqs(s.q.heap);
    NotActive(s, id);
    if s.q.avail > 0 {
      GrantKeeps(s, id);
    } else {
      TakeFailsBusy(s);
      HoldersSame(s.tasks, id, s'.tasks[id]);
      EntriesKept(s, s', id);
      NumbersKept(s, s', id);
      ActiveKept(s, s', id);
      LockFreed(s, s', id);
      WedgeKept(s, s', id);
    }
  }

  lemma GrantFacts(q: Queue, id: Id, p: Priority)
    requires QueueOk(q) && q.heap != [] && q.heap[0].id == id && q.avail > 0
    ensures QueueOk(Grant(q, id, p))
    ensures forall i :: Waits(Grant(q, id, p).heap, i) ==> Waits(q.heap, i) && i != id
    ensures forall e :: e in Grant(q, id, p).heap ==> SeqIn(q.heap, e.sequence)
    ensures Grant(q, id, p).active == q.active[id := p] && Grant(q, id, p).avail == q.avail - 1
    ensures Grant(q, id, p).max == q.max && Grant(q, id, p).next == q.next
  {
    hide QueueOk;
    GrantOk(q, id, p);
  }

  lemma GrantKeeps(s: System, id: Id)
    requires Inv(s) && Next(s, Take(id)).Some? && s.q.avail > 0 && s.lock == Some(id) && s.q.heap[0].id == id
    ensures Inv(Next(s, Take(id)).value)
  {
    hide Waits, QueueOk, Holders, EntriesOk, NumbersOk, ActiveOk, LockOk, NoWedge, SeqIn, Grant;
    var s' := Next(s, Take(id)).value;
    GrantFacts(s.q, id, s.tasks[id].priority);
    HoldersMore(s.tasks, id, s'.tasks[id]);
    EntriesKept(s, s', id);
    NumbersKept(s, s', id);
    ActiveKept(s, s', id);
    LockFreed(s, s', id);
    HolderIsBusy(s', id);
  }

  lemma HolderIsBusy(s: System, id: Id)
    requires id in s.tasks && Releasing(s.tasks[id].pc)
    ensures Busy(s) && NoWedge(s)
  {
  }

  // -------------------------------------------------- joining and leaving

  lemma NotWaiting(s: System, id: Id)
    requires EntriesOk(s) && id in s.tasks && !Queued(s.tasks[id].pc)
    ensures !Waits(s.q.heap, id)
  {
  }

  lemma NumberIsFresh(s: System, id: Id)
    requires NumbersOk(s) && id in s.tasks && s.tasks[id].pc.Numbered?
    ensures forall e :: e in s.q.heap ==> e.sequence != s.tasks[id].pc.sequence
  {
  }

  lemma EnqueueFacts(q: Queue, id: Id, p: Priority, n: nat)
    requires QueueOk(q) && !Waits(q.heap, id) && forall x :: x in q.heap ==> x.sequence != n
    ensures var q' := Enqueued(q, id, p, n);
      && QueueOk(q')
      && (forall i :: i != id && Waits(q'.heap, i) ==> Waits(q.heap, i))
      && (forall e :: e in q'.heap ==> SeqIn(q.heap, e.sequence) || e.sequence == n)
      && q'.heap != [] && (q'.heap[0].id == id || (q.heap != [] && q'.heap[0] == q.heap[0]))
      && q'.active == q.active && q'.avail == q.avail && q'.max == q.max && q'.next == q.next
  {
    hide QueueOk, Push;
    EnqueueOk(q, id, p, n);
  }

  lemma JoinKeeps(s: System, id: Id)
    requires Inv(s) && Next(s, Join(id)).Some?
    ensures Inv(Next(s, Join(id)).value)
  {
    hide Waits, QueueOk, Holders, EntriesOk, NumbersOk, ActiveOk, LockOk, NoWedge, Busy, SeqIn, Enqueued;
    var s' := Next(s, Join(id)).value;
    NotWaiting(s, id);
    NumberIsFresh(s, id);
    EnqueueFacts(s.q, id, s.tasks[id].priority, s.tasks[id].pc.sequence);
    HoldersSame(s.tasks, id, s'.tasks[id]);
    EntriesKept(s, s', id);
    NumbersKept(s, s', id);
    NotActive(s, id);
    ActiveKept(s, s', id);
    LockKept(s, s', id);
    WedgeKept(s, s', id);
  }

  lemma BeginKeeps(s: System, id: Id, p: Priority)
    requires Inv(s) && Next(s, Begin(id, p)).Some?
    ensures Inv(Next(s, Begin(id, p)).value)
  {
    hide Waits, QueueOk, Holders, EntriesOk, NumbersOk, ActiveOk, LockOk, NoWedge, Busy, SeqIn;
    var s' := Next(s, Begin(id, p)).value;
    NextOk(s.q);
    HoldersSame(s.tasks, id, s'.tasks[id]);
    EntriesKept(s, s', id);
    HeapSeqs(s.q.heap);
    NumbersKept(s, s', id);
    NotActive(s, id);
    ActiveKept(s, s', id);
    LockKept(s, s', id);
    WedgeKept(s, s', id);
  }

  /** Counters and the active map are no part of the heap's order. */
  lemma NextOk(q: Queue)
    requires QueueOk(q)
    ensures forall active, avail, max, next :: QueueOk(Queue(q.heap, q.prios, active, avail, max, next))
  {
  }

  lemma TryBeginKeeps(s: System, id: Id, p: Priority)
    requires Inv(s) && Next(s, TryBegin(id, p)).Some?
    ensures Inv(Next(s, TryBegin(id, p)).value)
  {
    hide Waits, QueueOk, Holders, EntriesOk, NumbersOk, ActiveOk, LockOk, NoWedge, Busy, SeqIn;
    var s' := Next(s, TryBegin(id, p)).value;
    if s' != s {
      HoldersSame(s.tasks, id, s'.tasks[id]);
      EntriesKept(s, s', id);
      HeapSeqs(s.q.heap);
      NumbersKept(s, s', id);
      NotActive(s, id);
      ActiveKept(s, s', id);
      LockTaken(s, s', id);
      WedgeKept(s, s', id);
    }
  }

  lemma TryTakeKeeps(s: System, id: Id)
    requires Inv(s) && Next(s, TryTake(id)).Some?
    ensures Inv(Next(s, TryTake(id)).value)
  {
    hide Waits, QueueOk, Holders, EntriesOk, NumbersOk, ActiveOk, LockOk, NoWedge, Busy, SeqIn;
    var s' := Next(s, TryTake(id)).value;
    NotWaiting(s, id);
    LockHolder(s, id);
    NextOk(s.q);
    HeapSeqs(s.q.heap);
    NotActive(s, id);
    EntriesKept(s, s', id);
    NumbersKept(s, s', id);
    ActiveKept(s, s', id);
    LockFreed(s, s', id);
    if s.q.avail > 0 {
      HoldersMore(s.tasks, id, s'.tasks[id]);
      HolderIsBusy(s', id);
    } else {
      HoldersLeft(s.tasks, id);
      WedgeKept(s, s', id);
    }
  }

  lemma AbandonKeeps(s: System, id: Id)
    requires Inv(s) && Next(s, Abandon(id)).Some?
    ensures Inv(Next(s, Abandon(id)).value)
  {
    hide Waits, QueueOk, Holders, EntriesOk, NumbersOk, ActiveOk, LockOk, NoWedge, Busy, SeqIn;
    var s' := Next(s, Abandon(id)).value;
    HoldersLeft(s.tasks, id);
    EntriesKept(s, s', id);
    HeapSeqs(s.q.heap);
    NumbersKept(s, s', id);
    NotActive(s, id);
    ActiveKept(s, s', id);
    LockKept(s, s', id);
    WedgeKept(s, s', id);
  }

  // ------------------------------------------------------------- releasing

  lemma DeactivateKeeps(s: System, id: Id)
    requires Inv(s) && Next(s, Deactivate(id)).Some?
    ensures Inv(Next(s, Deactivate(id)).value)
  {
    hide Waits, QueueOk, Holders, EntriesOk, NumbersOk, ActiveOk, LockOk, NoWedge, Busy, SeqIn;
    var s' := Next(s, Deactivate(id)).value;
    NotWaiting(s, id);
    NextOk(s.q);
    HoldersSame(s.tasks, id, s'.tasks[id]);
    EntriesKept(s, s', id);
    HeapSeqs(s.q.heap);
    NumbersKept(s, s', id);
    ActiveKept(s, s', id);
    LockKept(s, s', id);
    HolderIsBusy(s', id);
  }

  lemma ReturnKeeps(s: System, id: Id)
    requires Inv(s) && Next(s, Return(id)).Some?
    ensures Inv(Next(s, Return(id)).value)
  {
    hide Waits, QueueOk, Holders, EntriesOk, NumbersOk, ActiveOk, LockOk, NoWedge, Busy, SeqIn;
    var s' := Next(s, Return(id)).value;
    NotWaiting(s, id);
    NextOk(s.q);
    HoldersFewer(s.tasks, id, s'.tasks[id]);
    EntriesKept(s, s', id);
    HeapSeqs(s.q.heap);
    NumbersKept(s, s', id);
    NotActive(s, id);
    ActiveKept(s, s', id);
    LockKept(s, s', id);
    HolderIsBusy(s', id);
  }

  /** A notification leaves nobody asleep. */
  lemma WokenKeeps(s: System, n: nat)
    requires QueueOk(s.q) && EntriesOk(s) && NumbersOk(s) && ActiveOk(s) && PermitsOk(s) && LockOk(s)
    ensures Inv(s.(tasks := WakeAll(s.tasks), notifying := n))
  {
    hide QueueOk, Holders, EntriesOk, NumbersOk, ActiveOk, LockOk;
    var s' := s.(tasks := WakeAll(s.tasks), notifying := n);
    HoldersWoken(s.tasks);
    WokenEntries(s, s');
    WokenNumbers(s, s');
    WokenLock(s, s');
    hide WakeAll;
    assert !HeadAsleep(s') by { NoneAsleep(s, s'); }
  }

  lemma NoneAsleep(s: System, s': System)
    requires s'.tasks == WakeAll(s.tasks)
    ensures !HeadAsleep(s')
  {
  }

  lemma WokenEntries(s: System, s': System)
    requires s' == s.(tasks := WakeAll(s.tasks), notifying := s'.notifying)
    ensures EntriesOk(s) ==> EntriesOk(s')
    ensures ActiveOk(s) ==> ActiveOk(s')
  {
    hide Waits;
  }

  lemma WokenNumbers(s: System, s': System)
    requires s' == s.(tasks := WakeAll(s.tasks), notifying := s'.notifying) && NumbersOk(s)
    ensures NumbersOk(s')
  {
    hide Fresh;
    FreshStays(s, s');
    forall i, j | SameNumber(s', i, j) ensures i == j { assert SameNumber(s, i, j); }
  }

  lemma WokenLock(s: System, s': System)
    requires s' == s.(tasks := WakeAll(s.tasks), notifying := s'.notifying) && LockOk(s)
    ensures LockOk(s')
  {
  }

  lemma FreshStays(s: System, s': System)
    requires s'.q.next >= s.q.next && s'.q.heap == s.q.heap
    ensures forall n :: Fresh(s, n) ==> Fresh(s', n)
  {
  }

  lemma NotifyAfterKeeps(s: System, id: Id)
    requires Inv(s) && Next(s, NotifyAfter(id)).Some?
    ensures Inv(Next(s, NotifyAfter(id)).value)
  {
    hide Waits, QueueOk, Holders, EntriesOk, NumbersOk, ActiveOk, LockOk, NoWedge, Busy, SeqIn;
    var s1 := s.(tasks := s.tasks - {id});
    HoldersLeft(s.tasks, id);
    EntriesKept(s, s1, id);
    HeapSeqs(s.q.heap);
    NumbersKept(s, s1, id);
    NotActive(s, id);
    ActiveKept(s, s1, id);
    LockKept(s, s1, id);
    WokenKeeps(s1, s.notifying);
  }

  // --------------------------------------- changes made from outside the queue

  lemma ReprioritizedFacts(q: Queue, id: Id, p: Priority)
    requires QueueOk(q)
    ensures var q' := Reprioritized(q, id, p);
      && QueueOk(q')
      && (forall i :: Waits(q'.heap, i) ==> Waits(q.heap, i))
      && (forall e :: e in q'.heap ==> SeqIn(q.heap, e.sequence))
      && q'.active.Keys == q.active.Keys && q'.avail == q.avail && q'.max == q.max && q'.next == q.next
      && (id !in q.prios ==> q'.heap == q.heap)
  {
    hide QueueOk, PushAll, Waits, Origin;
    SetPriorityOk(q, id, p);
    var q' := Reprioritized(q, id, p);
    HeapSeqs(q.heap);
    if id in q.prios {
      forall e | e in q'.heap ensures SeqIn(q.heap, e.sequence) {
        var x := OriginOf(q.heap, e, id, p);
      }
    }
  }

  lemma SetPriorityKeeps(s: System, id: Id, p: Priority)
    requires Inv(s) && Next(s, SetPriority(id, p)).Some?
    ensures Inv(Next(s, SetPriority(id, p)).value)
  {
    hide Waits, QueueOk, Holders, EntriesOk, NumbersOk, ActiveOk, LockOk, NoWedge, Busy, SeqIn, Reprioritized;
    var s' := Next(s, SetPriority(id, p)).value;
    ReprioritizedFacts(s.q, id, p);
    OutsideKeeps(s, s', id);
    if id in s.q.prios { NotifyingIsBusy(s'); } else { WedgeKept(s, s', id); }
  }

  /** A change to the heap made while nobody holds the lock. */
  lemma OutsideKeeps(s: System, s': System, id: Id)
    requires EntriesOk(s) && NumbersOk(s) && ActiveOk(s) && LockOk(s)
    requires s'.tasks == s.tasks && s.lock.None? && s'.lock.None? && s'.q.next == s.q.next
    requires forall i :: Waits(s'.q.heap, i) ==> Waits(s.q.heap, i)
    requires forall e :: e in s'.q.heap ==> SeqIn(s.q.heap, e.sequence)
    requires s'.q.active.Keys == s.q.active.Keys
    ensures EntriesOk(s') && NumbersOk(s') && ActiveOk(s') && LockOk(s')
  {
    hide Waits, SeqIn;
    forall e | e in s'.q.heap
      ensures e.sequence < s.q.next && forall i :: i in s.tasks && s.tasks[i].pc.Numbered? ==> e.sequence != s.tasks[i].pc.sequence
    {
      var x := SeqOf(s.q.heap, e.sequence);
    }
    forall i, j | SameNumber(s', i, j) ensures i == j { assert SameNumber(s, i, j); }
    assert forall i :: i in s'.q.active <==> i in s'.q.active.Keys;
  }

  lemma SeqOf(heap: seq<Entry>, n: nat) returns (e: Entry)
    requires SeqIn(heap, n)
    ensures e in heap && e.sequence == n
  {
    e :| e in heap && e.sequence == n;
  }

  lemma NotifyingIsBusy(s: System)
    requires s.notifying > 0 || s.growing != []
    ensures NoWedge(s)
  {
  }

  lemma RemovedFacts(q: Queue, id: Id)
    requires QueueOk(q)
    ensures QueueOk(Removed(q, id))
    ensures forall i :: Waits(Removed(q, id).heap, i) ==> Waits(q.heap, i) && i != id
    ensures forall e :: e in Removed(q, id).heap ==> SeqIn(q.heap, e.sequence)
  {
    hide QueueOk, PushAll, Others;
    RemoveOk(q, id);
  }

  lemma RemoveKeeps(s: System, id: Id)
    requires Inv(s) && Next(s, Remove(id)).Some?
    ensures Inv(Next(s, Remove(id)).value)
  {
    hide Waits, QueueOk, Holders, EntriesOk, NumbersOk, ActiveOk, LockOk, NoWedge, Busy, SeqIn, Others, PushAll;
    var s' := Next(s, Remove(id)).value;
    RemovedFacts(s.q, id);
    OutsideKeeps(s, s', id);
    NotifyingIsBusy(s');
  }

  /** Permits and the ceiling have no part in the rest of the invariant. */
  lemma CeilingKeeps(s: System, s': System)
    requires EntriesOk(s) && NumbersOk(s) && ActiveOk(s) && LockOk(s)
    requires s'.tasks == s.tasks && s'.lock == s.lock && s'.q.next == s.q.next
    requires s'.q.heap == s.q.heap && s'.q.active == s.q.active
    ensures EntriesOk(s') && NumbersOk(s') && ActiveOk(s') && LockOk(s')
  {
    hide Waits, Fresh, SameNumber;
    FreshStays(s, s');
    SameNumbers(s, s');
  }

  lemma SwapMaxKeeps(s: System, max: nat)
    requires Inv(s) && Next(s, SwapMax(max)).Some?
    ensures Inv(Next(s, SwapMax(max)).value)
  {
    hide QueueOk, EntriesOk, NumbersOk, ActiveOk, LockOk, NoWedge, Holders;
    NextOk(s.q);
    var s' := Next(s, SwapMax(max)).value;
    if max > s.q.max { SumSnoc(s.growing, max - s.q.max); }
    CeilingKeeps(s, s');
    NotifyingIsBusy(s');
  }

  lemma GrowKeeps(s: System, k: nat)
    requires Inv(s) && Next(s, Grow(k)).Some?
    ensures Inv(Next(s, Grow(k)).value)
  {
    hide QueueOk, EntriesOk, NumbersOk, ActiveOk, LockOk, NoWedge, Holders;
    NextOk(s.q);
    var s' := Next(s, Grow(k)).value;
    SumWithout(s.growing, k);
    CeilingKeeps(s, s');
    NotifyingIsBusy(s');
  }

  lemma RegisterKeeps(s: System, id: Id)
    requires Inv(s) && Next(s, Register(id)).Some?
    ensures Inv(Next(s, Register(id)).value)
  {
    hide Inv;
    MoveKeeps(s, id, Registered(false));
  }

  lemma WakeKeeps(s: System, id: Id)
    requires Inv(s) && Next(s, Wake(id)).Some?
    ensures Inv(Next(s, Wake(id)).value)
  {
    hide Inv;
    MoveKeeps(s, id, Looping);
  }

  lemma NotifyKeeps(s: System)
    requires Inv(s) && Next(s, Notify).Some?
    ensures Inv(Next(s, Notify).value)
  {
    hide QueueOk, EntriesOk, NumbersOk, ActiveOk, LockOk, NoWedge, PermitsOk, WakeAll;
    WokenKeeps(s, s.notifying - 1);
  }

  lemma SameNumbers(s: System, s': System)
    requires s'.tasks == s.tasks
    ensures forall i, j :: SameNumber(s', i, j) <==> SameNumber(s, i, j)
  {
  }

  // ---------------------------------------------------------------- theorems

  /** Every step of every task, and every change from outside, keeps the
      invariant. */
  lemma StepKeeps(s: System, step: Step)
    requires Inv(s) && Next(s, step).Some?
    ensures Inv(Next(s, step).value)
  {
    hide *;
    match step {
      case Begin(id, p) => BeginKeeps(s, id, p);
      case Join(id) => JoinKeeps(s, id);
      case Register(id) => RegisterKeeps(s, id);
      case Check(id) => CheckKeeps(s, id);
      case Take(id) => TakeKeeps(s, id);
      case Wake(id) => WakeKeeps(s, id);
      case Abandon(id) => AbandonKeeps(s, id);
      case TryBegin(id, p) => TryBeginKeeps(s, id, p);
      case TryTake(id) => TryTakeKeeps(s, id);
      case Deactivate(id) => DeactivateKeeps(s, id);
      case Return(id) => ReturnKeeps(s, id);
      case NotifyAfter(id) => NotifyAfterKeeps(s, id);
      case SetPriority(id, p) => SetPriorityKeeps(s, id, p);
      case Remove(id) => RemoveKeeps(s, id);
      case SwapMax(max) => SwapMaxKeeps(s, max);
      case Grow(k) => GrowKeeps(s, k);
      case Notify => NotifyKeeps(s);
    }
  }
}
