/** What holds of every run of the download queue. */
module QueueTheorems {
  import opened Prelude
  import opened PriorityQueue
  import opened QueueProtocol

  lemma InitialOk(max: nat)
    ensures Inv(Initial(max))
  {
    assert Holders(map[]) == {};
  }

  /** A run of steps from `s` that ends in `t`. */
  ghost predicate Runs(s: System, steps: seq<Step>, t: System)
    decreases |steps|
  {
    if steps == [] then t == s
    else Next(s, steps[0]).Some? && Runs(Next(s, steps[0]).value, steps[1..], t)
  }

  lemma {:induction false} RunKeeps(s: System, steps: seq<Step>, t: System)
    requires Inv(s) && Runs(s, steps, t)
    ensures Inv(t)
    decreases |steps|
  {
    hide Inv, Next;
    if steps != [] {
      StepKeeps(s, steps[0]);
      RunKeeps(Next(s, steps[0]).value, steps[1..], t);
    }
  }

  /** Safety of every reachable state. The queue is not wedged; permits are
      conserved and cover the ceiling; `waiting_priorities` is the heap's; the
      active map is the slots in use. */
  lemma QueueIsSafe(max: nat, steps: seq<Step>, t: System)
    requires Runs(Initial(max), steps, t)
    ensures HeadAsleep(t) ==> Busy(t)
    ensures t.q.avail + |Holders(t.tasks)| == t.total && t.total + Sum(t.growing) >= t.q.max
    ensures Agree(t.q) && Sorted(t.q.heap)
    ensures forall id :: id in t.q.active <==> id in t.tasks && t.tasks[id].pc.Holding?
  {
    hide Next, Runs;
    InitialOk(max);
    RunKeeps(Initial(max), steps, t);
    hide Agree, Sorted, Unique, Waits, Busy;
  }

  /** A waiting task that is given a slot is the entry no other entry beats, and
      the slots in use were below the ceiling it read. */
  lemma GrantsTheBest(s: System, id: Id)
    requires Inv(s) && Next(s, Take(id)).Some? && Next(s, Take(id)).value.tasks[id].pc.Holding?
    ensures s.q.heap != [] && s.q.heap[0].id == id
    ensures forall e :: e in s.q.heap && e.id != id ==> Beats(s.q.heap[0], e) && !Beats(e, s.q.heap[0])
    ensures |s.q.active| < s.tasks[id].pc.ceiling
    ensures |Next(s, Take(id)).value.q.active| <= s.tasks[id].pc.ceiling
  {
    LockHolder(s, id);
    TailOrdered(s.q.heap);
  }

  /** The ceiling a task reads is the one in force when it takes the lock. */
  lemma CeilingIsRead(s: System, step: Step, id: Id)
    requires Inv(s) && (step == Check(id) || (step.TryBegin? && step.id == id)) && Next(s, step).Some?
    ensures var t := Next(s, step).value;
      id in t.tasks ==>
        (t.tasks[id].pc.Trying? ==> t.tasks[id].pc.ceiling == s.q.max)
        && (t.tasks[id].pc.TryLock? ==> t.tasks[id].pc.ceiling == s.q.max)
  {
  }

  /** Taking a slot without queueing never passes a strictly higher waiter. */
  lemma TryNeverOvertakes(s: System, id: Id)
    requires Inv(s) && Next(s, TryTake(id)).Some? && s.q.avail > 0
    ensures Next(s, TryTake(id)).value.tasks[id].pc.Holding?
    ensures |s.q.active| < s.tasks[id].pc.ceiling
    ensures forall e :: e in s.q.heap ==> Rank(e.priority) <= Rank(s.tasks[id].priority)
  {
    hide EntriesOk, NumbersOk, ActiveOk, PermitsOk, NoWedge, Agree;
    LockHolder(s, id);
    hide LockOk;
    if s.q.heap != [] {
      TailOrdered(s.q.heap);
      hide Ordered;
      assert s.q.heap == [s.q.heap[0]] + s.q.heap[1..];
    }
  }

  // --------------------------------------------------------------- progress

  /** Nothing is in use, nothing is under way, and the lock is free. */
  ghost predicate Quiet(s: System) {
    s.q.max > 0 && !Busy(s) && s.lock.None?
  }

  /** A head task with no competition. */
  predicate HeadIs(s: System, id: Id) { s.q.heap != [] && s.q.heap[0].id == id && id in s.tasks }

  lemma QuietIsEmpty(s: System)
    requires Inv(s) && Quiet(s)
    ensures s.q.active == map[] && s.q.avail > 0
  {
    hide QueueOk, EntriesOk, NumbersOk, LockOk, NoWedge;
    assert forall id :: id in s.tasks ==> !Releasing(s.tasks[id].pc);
    assert s.q.active.Keys == {};
    assert Holders(s.tasks) == {};
  }

  /** What the head's task has left to do, counted in its own steps. */
  function Distance(pc: Pc): nat {
    match pc
    case Parked(_) => 4
    case Looping => 3
    case Registered(_) => 2
    case Trying(_, _) => 1
    case _ => 0
  }

  function OwnStep(id: Id, pc: Pc): Step {
    match pc
    case Parked(_) => Wake(id)
    case Looping => Register(id)
    case Registered(_) => Check(id)
    case _ => Take(id)
  }

  /** The way is clear for the head's task. */
  predicate Clear(s: System, id: Id) {
    && HeadIs(s, id) && |s.q.active| < s.q.max && s.q.avail > 0
    && (var pc := s.tasks[id].pc; pc == Parked(true) || pc.Looping? || pc.Registered? || pc.Trying?)
    && (s.tasks[id].pc.Trying? || s.lock.None?)
  }

  /** The head's task has been given a slot; the others still wait. */
  ghost predicate Granted(s: System, t: System, id: Id) {
    && id in t.tasks && t.tasks[id].pc.Holding? && id in t.q.active
    && s.q.heap != [] && t.q.heap == s.q.heap[1..] && t.q.max == s.q.max
    && forall e :: e in t.q.heap && e.id in s.tasks ==> e.id in t.tasks
  }

  lemma {:induction false} ClearIsGranted(s: System, id: Id) returns (steps: seq<Step>, t: System)
    requires Clear(s, id)
    ensures |steps| == Distance(s.tasks[id].pc) && Runs(s, steps, t) && Granted(s, t, id)
    ensures forall k :: 0 <= k < |steps| ==> steps[k] in {Wake(id), Register(id), Check(id), Take(id)}
    decreases Distance(s.tasks[id].pc)
  {
    var step := OwnStep(id, s.tasks[id].pc);
    var s1 := Next(s, step).value;
    if s.tasks[id].pc.Trying? {
      steps, t := [step], s1;
      assert [step][1..] == [] && Runs(s1, [], s1);
    } else {
      var rest;
      rest, t := ClearIsGranted(s1, id);
      steps := [step] + rest;
      assert steps[1..] == rest;
    }
  }

  /** From any quiet state the head's task, if it is alive, needs at most four
      steps of its own to hold a slot. */
  lemma HeadIsGranted(s: System, id: Id) returns (steps: seq<Step>, t: System)
    requires Inv(s) && Quiet(s) && HeadIs(s, id)
    ensures |steps| <= 4 && Runs(s, steps, t) && Granted(s, t, id)
    ensures forall k :: 0 <= k < |steps| ==> steps[k] in {Wake(id), Register(id), Check(id), Take(id)}
  {
    QuietIsEmpty(s);
    HeadIsQueued(s, id);
    hide Inv, Runs;
    steps, t := ClearIsGranted(s, id);
  }

  lemma HeadIsQueued(s: System, id: Id)
    requires Inv(s) && Quiet(s) && HeadIs(s, id)
    ensures Queued(s.tasks[id].pc) && !s.tasks[id].pc.Trying? && s.tasks[id].pc != Parked(false)
  {
    assert s.q.heap[0] in s.q.heap && Waits(s.q.heap, id);
  }

  // ------------------------------------------------- progress from any state

  /** Slots in use and the steps of their release. */
  function Releasers(tasks: Tasks): set<Id> { set id | id in tasks && Releasing(tasks[id].pc) }

  /** Steps that bring nothing new: those under the lock, releases, growth and
      notifications already due, and the waiting tasks' own. */
  predicate Helps(step: Step) {
    || step.Take? || step.TryTake? || step.Deactivate? || step.Return? || step.NotifyAfter?
    || step.Grow? || step.Notify? || step.Wake? || step.Register? || step.Check?
  }

  predicate AllHelp(steps: seq<Step>) { forall k :: 0 <= k < |steps| ==> Helps(steps[k]) }

  /** What is left to release. */
  function Outstanding(s: System): nat { |s.q.active| + |Holders(s.tasks)| + |Releasers(s.tasks)| }

  /** The queue and its waiting tasks are as they were. */
  ghost predicate SameQueue(s: System, t: System) {
    && t.q.heap == s.q.heap && t.q.max == s.q.max
    && forall e :: e in s.q.heap && e.id in s.tasks ==> e.id in t.tasks
  }

  lemma SameQueueTrans(a: System, b: System, c: System)
    requires SameQueue(a, b) && SameQueue(b, c)
    ensures SameQueue(a, c)
  {
  }

  lemma OneStep(s: System, step: Step, rest: seq<Step>, t: System)
    requires Next(s, step).Some? && Runs(Next(s, step).value, rest, t) && Helps(step) && AllHelp(rest)
    ensures Runs(s, [step] + rest, t) && AllHelp([step] + rest)
  {
    hide Next, Helps;
    assert ([step] + rest)[1..] == rest;
  }

  lemma {:induction false} RunsAppend(a: System, x: seq<Step>, b: System, y: seq<Step>, c: System)
    requires Runs(a, x, b) && Runs(b, y, c) && AllHelp(x) && AllHelp(y)
    ensures Runs(a, x + y, c) && AllHelp(x + y)
    decreases |x|
  {
    hide Next, Helps;
    if x == [] {
      assert x + y == y;
    } else {
      RunsAppend(Next(a, x[0]).value, x[1..], b, y, c);
      assert (x + y)[1..] == x[1..] + y;
    }
  }

  function ReleaseStep(id: Id, pc: Pc): Step {
    if pc.Holding? then Deactivate(id) else if pc.Deactivated? then Return(id) else NotifyAfter(id)
  }

  /** One step of a release leaves less outstanding. */
  ghost predicate GoesOn(s: System, step: Step) {
    Helps(step) && Next(s, step).Some? &&
    var t := Next(s, step).value;
    t.lock.None? && SameQueue(s, t) && Outstanding(t) < Outstanding(s)
  }

  lemma DeactivateGoesOn(s: System, id: Id)
    requires ActiveOk(s) && s.lock.None? && id in s.tasks && s.tasks[id].pc.Holding?
    ensures GoesOn(s, Deactivate(id))
  {
    var t := Next(s, Deactivate(id)).value;
    assert t.q.active.Keys == s.q.active.Keys - {id};
    assert Holders(t.tasks) == Holders(s.tasks) && Releasers(t.tasks) == Releasers(s.tasks);
  }

  lemma ReturnGoesOn(s: System, id: Id)
    requires s.lock.None? && id in s.tasks && s.tasks[id].pc.Deactivated?
    ensures GoesOn(s, Return(id))
  {
    var t := Next(s, Return(id)).value;
    assert Holders(t.tasks) == Holders(s.tasks) - {id} && id in Holders(s.tasks);
    assert Releasers(t.tasks) == Releasers(s.tasks);
  }

  lemma NotifyAfterGoesOn(s: System, id: Id)
    requires EntriesOk(s) && s.lock.None? && id in s.tasks && s.tasks[id].pc.Returned?
    ensures GoesOn(s, NotifyAfter(id))
  {
    var t := Next(s, NotifyAfter(id)).value;
    HoldersLeft(s.tasks, id);
    HoldersWoken(s.tasks - {id});
    ReleasersLeft(s.tasks, id);
    WaitersLeft(s, id);
    hide Holders, Releasers;
  }

  lemma ReleasersLeft(tasks: Tasks, id: Id)
    requires id in tasks && Releasing(tasks[id].pc)
    ensures |Releasers(WakeAll(tasks - {id}))| == |Releasers(tasks)| - 1
  {
    assert Releasers(WakeAll(tasks - {id})) == Releasers(tasks) - {id} && id in Releasers(tasks);
  }

  lemma WaitersLeft(s: System, id: Id)
    requires EntriesOk(s) && id in s.tasks && !Queued(s.tasks[id].pc)
    ensures forall e :: e in s.q.heap && e.id in s.tasks ==> e.id in WakeAll(s.tasks - {id})
  {
    forall e | e in s.q.heap && e.id in s.tasks ensures e.id != id { assert Waits(s.q.heap, e.id); }
  }

  lemma ReleaseGoesOn(s: System, id: Id)
    requires Inv(s) && s.lock.None? && id in s.tasks && Releasing(s.tasks[id].pc)
    ensures GoesOn(s, ReleaseStep(id, s.tasks[id].pc))
  {
    hide GoesOn, EntriesOk, ActiveOk;
    match s.tasks[id].pc {
      case Holding => DeactivateGoesOn(s, id);
      case Deactivated => ReturnGoesOn(s, id);
      case Returned => NotifyAfterGoesOn(s, id);
    }
  }

  /** With the lock free, releases, growth and notifications already due lead to
      a quiet state with the same queue. */
  lemma {:induction false} Drains(s: System) returns (steps: seq<Step>, t: System)
    requires Inv(s) && s.lock.None? && s.q.max > 0
    ensures Runs(s, steps, t) && AllHelp(steps) && Inv(t) && Quiet(t) && SameQueue(s, t)
    decreases Outstanding(s), |s.growing|, s.notifying
  {
    hide Inv, Runs, Next, Outstanding, Helps;
    if id :| id in s.tasks && Releasing(s.tasks[id].pc) {
      ReleaseGoesOn(s, id);
      steps, t := DrainsAfter(s, ReleaseStep(id, s.tasks[id].pc));
    } else if s.growing != [] {
      GrowGoesOn(s);
      steps, t := DrainsAfter(s, Grow(0));
    } else if s.notifying > 0 {
      NotifyGoesOn(s);
      steps, t := DrainsAfter(s, Notify);
    } else {
      steps, t := [], s;
      NoSteps(s);
    }
  }

  lemma {:induction false} DrainsAfter(s: System, step: Step) returns (steps: seq<Step>, t: System)
    requires Inv(s) && s.q.max > 0 && Helps(step) && Next(s, step).Some?
    requires var s1 := Next(s, step).value;
      && s1.lock.None? && SameQueue(s, s1)
      && (Outstanding(s1) < Outstanding(s)
          || (Outstanding(s1) == Outstanding(s)
              && (|s1.growing| < |s.growing| || (s1.growing == s.growing && s1.notifying < s.notifying))))
    ensures Runs(s, steps, t) && AllHelp(steps) && Inv(t) && Quiet(t) && SameQueue(s, t)
    decreases Outstanding(s), |s.growing|, s.notifying, 0
  {
    hide Inv, Runs, Next, Outstanding, Helps, AllHelp;
    var s1 := Next(s, step).value;
    StepKeeps(s, step);
    var rest;
    rest, t := Drains(s1);
    steps := [step] + rest;
    OneStep(s, step, rest, t);
    SameQueueTrans(s, s1, t);
  }

  lemma NoSteps(s: System)
    ensures Runs(s, [], s) && AllHelp([]) && SameQueue(s, s)
  {
  }

  lemma GrowGoesOn(s: System)
    requires s.lock.None? && s.growing != []
    ensures Helps(Grow(0)) && Next(s, Grow(0)).Some?
    ensures var t := Next(s, Grow(0)).value;
      t.lock.None? && SameQueue(s, t) && Outstanding(t) == Outstanding(s) && |t.growing| < |s.growing|
  {
  }

  lemma NotifyGoesOn(s: System)
    requires s.lock.None? && s.notifying > 0
    ensures Helps(Notify) && Next(s, Notify).Some?
    ensures var t := Next(s, Notify).value;
      t.lock.None? && SameQueue(s, t) && Outstanding(t) == Outstanding(s) && t.growing == s.growing && t.notifying < s.notifying
  {
    HoldersWoken(s.tasks);
    assert Releasers(WakeAll(s.tasks)) == Releasers(s.tasks);
  }

  /** The lock is always about to be free: its holder takes a slot or gives up. */
  lemma LockIsFreed(s: System, id: Id) returns (steps: seq<Step>, t: System)
    requires Inv(s) && HeadIs(s, id)
    ensures Runs(s, steps, t) && AllHelp(steps) && Inv(t)
    ensures Granted(s, t, id) || (t.lock.None? && SameQueue(s, t))
  {
    if s.lock.None? {
      NoSteps(s);
      return [], s;
    }
    var jd := s.lock.value;
    var step := if s.tasks[jd].pc.Trying? then Take(jd) else TryTake(jd);
    LockHolderSteps(s, id, step);
    hide Inv, Next, Runs, Granted, SameQueue, Helps, AllHelp;
    t := Next(s, step).value;
    StepKeeps(s, step);
    NoSteps(t);
    OneStep(s, step, [], t);
    steps := [step] + [];
  }

  lemma LockHolderSteps(s: System, id: Id, step: Step)
    requires LockOk(s) && EntriesOk(s) && HeadIs(s, id) && s.lock.Some?
    requires step == if s.tasks[s.lock.value].pc.Trying? then Take(s.lock.value) else TryTake(s.lock.value)
    ensures Helps(step) && Next(s, step).Some?
    ensures var t := Next(s, step).value; Granted(s, t, id) || (t.lock.None? && SameQueue(s, t))
  {
    var jd, t := s.lock.value, Next(s, step).value;
    assert Checked(s, jd);
    forall e | e in s.q.heap && e.id in s.tasks ensures e.id in t.tasks { assert Waits(s.q.heap, e.id); }
  }

  /** From every state a live head can be given a slot, by nothing but what is
      already under way, the releases of the slots in use, and its own steps. */
  lemma HeadCanHold(s: System, id: Id) returns (steps: seq<Step>, t: System)
    requires Inv(s) && s.q.max > 0 && HeadIs(s, id)
    ensures Runs(s, steps, t) && AllHelp(steps) && Inv(t) && Granted(s, t, id)
  {
    var x, a := LockIsFreed(s, id);
    if Granted(s, a, id) { return x, a; }
    StillHead(s, a, id);
    hide Inv, Runs, Quiet, SameQueue, Granted, HeadIs, AllHelp, Helps;
    assert a.q.max > 0 by { SameCeiling(s, a); }
    var y, b := Drains(a);
    StillHead(a, b, id);
    var z, c := HeadIsGranted(b, id);
    OwnStepsHelp(id, z);
    RunKeeps(b, z, c);
    RunsAppend(s, x, a, y, b);
    RunsAppend(s, x + y, b, z, c);
    SameQueueTrans(s, a, b);
    GrantedFrom(s, b, c, id);
    steps, t := x + y + z, c;
  }

  lemma SameCeiling(s: System, t: System)
    requires SameQueue(s, t)
    ensures t.q.max == s.q.max
  {
  }

  lemma StillHead(s: System, t: System, id: Id)
    requires HeadIs(s, id) && SameQueue(s, t)
    ensures HeadIs(t, id)
  {
    assert s.q.heap[0] in s.q.heap;
  }

  lemma OwnStepsHelp(id: Id, steps: seq<Step>)
    requires forall k :: 0 <= k < |steps| ==> steps[k] in {Wake(id), Register(id), Check(id), Take(id)}
    ensures AllHelp(steps)
  {
  }

  lemma GrantedFrom(s: System, b: System, c: System, id: Id)
    requires SameQueue(s, b) && Granted(b, c, id)
    ensures Granted(s, c, id)
  {
    forall e | e in c.q.heap && e.id in s.tasks ensures e.id in c.tasks { assert e in b.q.heap[1..]; }
  }

  predicate Dead(s: System, j: nat)
    requires j < |s.q.heap|
  {
    s.q.heap[j].id !in s.tasks
  }

  /** The entries up to the `k`th belong to tasks that are still there. */
  predicate AliveTo(s: System, k: nat) { k < |s.q.heap| && forall j :: 0 <= j <= k ==> !Dead(s, j) }

  lemma HeadAlive(s: System, k: nat)
    requires AliveTo(s, k)
    ensures HeadIs(s, s.q.heap[0].id)
  {
    assert !Dead(s, 0);
  }

  lemma NextAlive(s: System, a: System, k: nat)
    requires AliveTo(s, k) && Granted(s, a, s.q.heap[0].id) && k > 0
    ensures AliveTo(a, k - 1) && a.q.heap[k - 1] == s.q.heap[k]
  {
    forall j | 0 <= j <= k - 1 ensures !Dead(a, j) {
      assert a.q.heap[j] == s.q.heap[j + 1] && !Dead(s, j + 1);
      assert a.q.heap[j] in a.q.heap;
    }
  }

  lemma GrantedMeans(s: System, a: System, id: Id)
    requires Granted(s, a, id)
    ensures id in a.tasks && a.tasks[id].pc.Holding? && a.q.max == s.q.max
  {
  }

  /** Every waiter whose predecessors are alive can be given a slot, wherever it
      stands: nobody has to leave the queue, and no priority has to change. */
  lemma {:induction false} WaiterCanHold(s: System, id: Id, k: nat) returns (steps: seq<Step>, t: System)
    requires Inv(s) && s.q.max > 0 && AliveTo(s, k) && s.q.heap[k].id == id
    ensures Runs(s, steps, t) && AllHelp(steps) && id in t.tasks && t.tasks[id].pc.Holding?
    decreases k
  {
    hide Inv, Runs, AllHelp, Granted, HeadIs;
    var head := s.q.heap[0].id;
    HeadAlive(s, k);
    var x, a := HeadCanHold(s, head);
    GrantedMeans(s, a, head);
    if k == 0 { return x, a; }
    NextAlive(s, a, k);
    hide AliveTo;
    var y, b := WaiterCanHold(a, id, k - 1);
    RunsAppend(s, x, a, y, b);
    steps, t := x + y, b;
  }

  /** `id` stands behind an entry, or is one, whose task is gone. */
  ghost predicate Blocked(s: System, id: Id) {
    exists j, k :: 0 <= j <= k < |s.q.heap| && s.q.heap[k].id == id && Dead(s, j)
  }

  lemma BlockedStays(s: System, id: Id, step: Step)
    requires Inv(s) && Blocked(s, id) && Helps(step) && Next(s, step).Some?
    ensures Blocked(Next(s, step).value, id)
  {
    hide QueueOk, NumbersOk, ActiveOk, PermitsOk, NoWedge, EntriesOk;
    if step.Take? && s.q.avail > 0 {
      BlockedTake(s, id, step.id);
    } else {
      NoNewTasks(s, step);
      hide Next, LockOk;
      var t := Next(s, step).value;
      var j, k :| 0 <= j <= k < |s.q.heap| && s.q.heap[k].id == id && Dead(s, j);
      assert Dead(t, j);
    }
  }

  lemma NoNewTasks(s: System, step: Step)
    requires Helps(step) && Next(s, step).Some? && !(step.Take? && s.q.avail > 0)
    ensures var t := Next(s, step).value; t.q.heap == s.q.heap && t.tasks.Keys <= s.tasks.Keys
  {
  }

  lemma BlockedTake(s: System, id: Id, x: Id)
    requires LockOk(s) && Blocked(s, id) && Next(s, Take(x)).Some? && s.q.avail > 0
    ensures Blocked(Next(s, Take(x)).value, id)
  {
    var t := Next(s, Take(x)).value;
    var j, k :| 0 <= j <= k < |s.q.heap| && s.q.heap[k].id == id && Dead(s, j);
    assert j > 0;
    assert t.q.heap[k - 1] == s.q.heap[k] && t.q.heap[j - 1] == s.q.heap[j];
    assert Dead(t, j - 1);
  }

  lemma {:induction false} RunBlocked(s: System, steps: seq<Step>, t: System, id: Id)
    requires Inv(s) && Blocked(s, id) && AllHelp(steps) && Runs(s, steps, t)
    ensures Inv(t) && Blocked(t, id)
    decreases |steps|
  {
    hide Inv, Next, Helps, Blocked;
    if steps != [] {
      assert Helps(steps[0]);
      StepKeeps(s, steps[0]);
      BlockedStays(s, id, steps[0]);
      RunBlocked(Next(s, steps[0]).value, steps[1..], t, id);
    }
  }

  /** Some run of what is under way, releases and waiting tasks gives `id` a slot. */
  ghost predicate CanHold(s: System, id: Id) {
    exists steps, t :: Runs(s, steps, t) && AllHelp(steps) && id in t.tasks && t.tasks[id].pc.Holding?
  }

  /** In every state the queue can reach with a positive ceiling, a waiter can be
      given a slot exactly when no entry before it, nor its own, belongs to a
      task that is gone: such an entry stays until someone removes it. */
  lemma WaiterExactly(max: nat, before: seq<Step>, s: System, id: Id, k: nat)
    requires Runs(Initial(max), before, s) && s.q.max > 0 && k < |s.q.heap| && s.q.heap[k].id == id
    ensures CanHold(s, id) <==> AliveTo(s, k)
  {
    hide Inv, Runs, AllHelp, Blocked, EntriesOk;
    InitialOk(max);
    RunKeeps(Initial(max), before, s);
    if AliveTo(s, k) {
      var steps, t := WaiterCanHold(s, id, k);
    } else {
      assert Blocked(s, id) by { NotAlive(s, id, k); }
      forall steps, t | Runs(s, steps, t) && AllHelp(steps) ensures !(id in t.tasks && t.tasks[id].pc.Holding?) {
        RunBlocked(s, steps, t, id);
        BlockedWaits(t, id);
      }
    }
  }

  lemma NotAlive(s: System, id: Id, k: nat)
    requires !AliveTo(s, k) && k < |s.q.heap| && s.q.heap[k].id == id
    ensures Blocked(s, id)
  {
  }

  lemma BlockedWaits(t: System, id: Id)
    requires Inv(t) && Blocked(t, id)
    ensures !(id in t.tasks && t.tasks[id].pc.Holding?)
  {
    hide QueueOk, NumbersOk, ActiveOk, PermitsOk, NoWedge, LockOk;
    var j, k :| 0 <= j <= k < |t.q.heap| && t.q.heap[k].id == id && Dead(t, j);
    assert t.q.heap[k] in t.q.heap && Waits(t.q.heap, id);
  }
}
