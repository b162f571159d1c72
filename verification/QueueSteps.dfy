/** The steps of the protocol against the methods of the queue: a method that
    runs undisturbed is a few steps, with the same effect on the queue. */
module QueueSteps {
  import opened Prelude
  import opened PriorityQueue
  import opened QueueProtocol

  /** When a step can be taken: the task is where the step begins, and nobody
      holds the lock if the step needs it. */
  predicate Possible(s: System, step: Step) {
    match step
    case Begin(id, _) => id !in s.tasks && !Waits(s.q.heap, id)
    case Join(id) => id in s.tasks && s.tasks[id].pc.Numbered? && s.lock.None?
    case Register(id) => id in s.tasks && s.tasks[id].pc.Looping?
    case Check(id) => id in s.tasks && s.tasks[id].pc.Registered? && s.lock.None?
    case Take(id) => id in s.tasks && s.tasks[id].pc.Trying? && s.q.heap != []
    case Wake(id) => id in s.tasks && s.tasks[id].pc == Parked(true)
    case Abandon(id) => id in s.tasks && s.tasks[id].pc.Parked?
    case TryBegin(id, _) => id !in s.tasks && !Waits(s.q.heap, id) && s.lock.None?
    case TryTake(id) => id in s.tasks && s.tasks[id].pc.TryLock?
    case Deactivate(id) => id in s.tasks && s.tasks[id].pc.Holding? && s.lock.None?
    case Return(id) => id in s.tasks && s.tasks[id].pc.Deactivated?
    case NotifyAfter(id) => id in s.tasks && s.tasks[id].pc.Returned?
    case SetPriority(_, _) => s.lock.None?
    case Remove(_) => s.lock.None?
    case SwapMax(_) => true
    case Grow(k) => k < |s.growing|
    case Notify => s.notifying > 0
  }

  lemma PossibleExactly(s: System, step: Step)
    ensures Next(s, step).Some? <==> Possible(s, step)
  {
    hide Grant, Enqueued, Reprioritized, Removed, WakeAll, Set, Waits;
  }

  /** The protocol starts as the constructor leaves the queue: nobody is there
      and nothing is under way. */
  lemma InitialExactly(max: nat)
    ensures Initial(max).q == Queue([], map[], map[], max, max, 0)
    ensures Initial(max).tasks == map[] && Initial(max).lock.None? && Initial(max).total == max
    ensures Initial(max).growing == [] && Initial(max).notifying == 0
  {
  }

  /** Taking a number and joining, as `Join` does. */
  lemma JoinIsTwoSteps(s: System, id: Id, p: Priority)
    requires Possible(s, Begin(id, p)) && s.lock.None?
    ensures Next(s, Begin(id, p)).Some? && Next(Next(s, Begin(id, p)).value, Join(id)).Some?
    ensures var t := Next(Next(s, Begin(id, p)).value, Join(id)).value;
      && t.q == Enqueued(s.q.(next := s.q.next + 1), id, p, s.q.next)
      && t == s.(q := t.q, tasks := s.tasks[id := Task(p, Looping)])
  {
    hide Enqueued;
    var t := Next(Next(s, Begin(id, p)).value, Join(id)).value;
    assert t.tasks == s.tasks[id := Task(p, Looping)];
  }

  /** The check of a waiting task: it is granted exactly when `TryGrant` says
      so, with the same queue afterwards; otherwise it sleeps. */
  lemma GrantIsTwoSteps(s: System, id: Id)
    requires Possible(s, Check(id))
    ensures Next(s, Check(id)).Some?
    ensures var t := Next(s, Check(id)).value;
      if s.q.heap != [] && s.q.heap[0].id == id && |s.q.active| < s.q.max then
        && Next(t, Take(id)).Some?
        && var u := Next(t, Take(id)).value;
           if s.q.avail > 0 then
             && u.q == Grant(s.q, id, s.tasks[id].priority)
             && u == s.(q := u.q, tasks := s.tasks[id := s.tasks[id].(pc := Holding)])
           else u == s.(tasks := s.tasks[id := s.tasks[id].(pc := Parked(s.tasks[id].pc.woken))])
      else t == s.(tasks := s.tasks[id := s.tasks[id].(pc := Parked(s.tasks[id].pc.woken))])
  {
    hide Grant;
    var t := Next(s, Check(id)).value;
    if t.tasks[id].pc.Trying? {
      var u := Next(t, Take(id)).value;
      assert s.tasks[id := t.tasks[id]][id := u.tasks[id]] == s.tasks[id := u.tasks[id]];
    }
  }

  /** Taking a slot without queueing: it succeeds exactly when `TryAcquire` does,
      with the same queue afterwards; otherwise nothing has changed. */
  lemma TryIsTwoSteps(s: System, id: Id, p: Priority)
    requires Possible(s, TryBegin(id, p))
    ensures Next(s, TryBegin(id, p)).Some?
    ensures var t := Next(s, TryBegin(id, p)).value;
      if |s.q.active| < s.q.max && (s.q.heap != [] ==> Rank(s.q.heap[0].priority) <= Rank(p)) then
        && Next(t, TryTake(id)).Some?
        && var u := Next(t, TryTake(id)).value;
           if s.q.avail > 0 then
             && u.q == s.q.(active := s.q.active[id := p], avail := s.q.avail - 1)
             && u == s.(q := u.q, tasks := s.tasks[id := Task(p, Holding)])
           else u == s
      else t == s
  {
    hide Rank;
    var t := Next(s, TryBegin(id, p)).value;
    if id in t.tasks {
      var u := Next(t, TryTake(id)).value;
      assert t.tasks - {id} == s.tasks;
      assert t.tasks[id := Task(p, Holding)] == s.tasks[id := Task(p, Holding)];
    }
  }

  /** Giving a slot up, as `Release` does. */
  lemma ReleaseIsTwoSteps(s: System, id: Id)
    requires Possible(s, Deactivate(id))
    ensures Next(s, Deactivate(id)).Some? && Next(Next(s, Deactivate(id)).value, Return(id)).Some?
    ensures var t := Next(Next(s, Deactivate(id)).value, Return(id)).value;
      t == s.(q := s.q.(active := s.q.active - {id}, avail := s.q.avail + 1),
              tasks := s.tasks[id := s.tasks[id].(pc := Returned)])
  {
    var t := Next(s, Deactivate(id)).value;
    assert t == s.(q := s.q.(active := s.q.active - {id}), tasks := s.tasks[id := s.tasks[id].(pc := Deactivated)]);
    assert t.tasks[id := s.tasks[id].(pc := Returned)] == s.tasks[id := s.tasks[id].(pc := Returned)];
  }

  /** After that the task is gone, and the others are told. */
  lemma ReleaseIsTold(s: System, id: Id)
    requires Possible(s, NotifyAfter(id))
    ensures Next(s, NotifyAfter(id)) == Some(s.(tasks := WakeAll(s.tasks - {id})))
  {
    hide WakeAll;
  }

  /** What a waiting task does by itself: it registers before it checks, and
      loops when woken or is dropped. */
  lemma OwnMoves(s: System, id: Id)
    requires id in s.tasks
    ensures s.tasks[id].pc.Looping? ==>
      Next(s, Register(id)) == Some(s.(tasks := s.tasks[id := s.tasks[id].(pc := Registered(false))]))
    ensures s.tasks[id].pc == Parked(true) ==>
      Next(s, Wake(id)) == Some(s.(tasks := s.tasks[id := s.tasks[id].(pc := Looping)]))
    ensures s.tasks[id].pc.Parked? ==> Next(s, Abandon(id)) == Some(s.(tasks := s.tasks - {id}))
  {
  }

  /** Changes from outside take effect at once, and each is followed by a
      notification, or by the permits a raised ceiling needs and then one. */
  lemma OutsideMoves(s: System, id: Id, p: Priority, max: nat)
    ensures s.lock.None? ==>
      && Next(s, SetPriority(id, p))
        == Some(s.(q := Reprioritized(s.q, id, p), notifying := s.notifying + if id in s.q.prios then 1 else 0))
      && Next(s, Remove(id)) == Some(s.(q := Removed(s.q, id), notifying := s.notifying + 1))
    ensures Next(s, SwapMax(max)).Some?
    ensures var t := Next(s, SwapMax(max)).value;
      && t.q == s.q.(max := max) && t.tasks == s.tasks && t.lock == s.lock && t.total == s.total
      && (max > s.q.max ==> t.growing == s.growing + [max - s.q.max] && t.notifying == s.notifying)
      && (max <= s.q.max ==> t.growing == s.growing && t.notifying == s.notifying + 1)
    ensures forall k :: 0 <= k < |s.growing| ==>
      Next(s, Grow(k)) == Some(s.(q := s.q.(avail := s.q.avail + s.growing[k]), total := s.total + s.growing[k],
                                 growing := s.growing[..k] + s.growing[k + 1..], notifying := s.notifying + 1))
  {
    hide Reprioritized, Removed;
  }

  /** A notification reaches every task that has registered, and changes no other. */
  lemma NotifyWakes(s: System)
    requires s.notifying > 0
    ensures Next(s, Notify).Some?
    ensures var t := Next(s, Notify).value;
      && t == s.(tasks := t.tasks, notifying := s.notifying - 1) && t.tasks.Keys == s.tasks.Keys
      && forall id :: id in s.tasks ==> Notified(s.tasks[id], t.tasks[id])
  {
    WakesAll(s.tasks);
    hide WakeAll;
  }

  predicate Notified(t: Task, u: Task) {
    && u.priority == t.priority
    && (t.pc.Registered? ==> u.pc == Registered(true))
    && (t.pc.Parked? ==> u.pc == Parked(true))
    && (t.pc.Trying? ==> u.pc == Trying(true, t.pc.ceiling))
    && (!t.pc.Registered? && !t.pc.Parked? && !t.pc.Trying? ==> u.pc == t.pc)
  }

  lemma WakesAll(tasks: Tasks)
    ensures WakeAll(tasks).Keys == tasks.Keys
    ensures forall id :: id in tasks ==> Notified(tasks[id], WakeAll(tasks)[id])
  {
  }
}
