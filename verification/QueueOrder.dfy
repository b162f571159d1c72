/** Who is served first: higher priority, and within a priority whoever joined
    earlier, over whole runs. */
module QueueOrder {
  import opened Prelude
  import opened PriorityQueue
  import opened QueueProtocol
  import opened QueueTheorems

  /** Critical above High above Normal above Low. */
  predicate Higher(p: Priority, q: Priority) {
    match p
    case Critical => q != Critical
    case High => q == Normal || q == Low
    case Normal => q == Low
    case Low => false
  }

  /** `a` is to be served before `b`. */
  predicate First(a: Entry, b: Entry) {
    Higher(a.priority, b.priority) || (a.priority == b.priority && a.sequence < b.sequence)
  }

  lemma BeatsExactly(a: Entry, b: Entry)
    ensures Rank(a.priority) > Rank(b.priority) <==> Higher(a.priority, b.priority)
    ensures Beats(a, b) <==> First(a, b)
  {
  }

  /** The heap is in serving order. */
  lemma OrderedExactly(heap: seq<Entry>)
    ensures Sorted(heap) <==> forall i, j :: 0 <= i < j < |heap| ==> First(heap[i], heap[j])
  {
    forall a: Entry, b: Entry ensures Beats(a, b) <==> First(a, b) { BeatsExactly(a, b); }
  }

  /** An entry after the priority of `id` has become `p`. */
  function WithPriority(e: Entry, id: Id, p: Priority): Entry {
    if e.id == id then Entry(id, p, e.sequence) else e
  }

  /** A new priority changes nothing else of an entry, and of no other. */
  lemma RepricedExactly(q: Queue, id: Id, p: Priority)
    requires QueueOk(q) && id in q.prios
    ensures forall e :: e in q.heap ==> WithPriority(e, id, p) in Reprioritized(q, id, p).heap
    ensures forall x :: x in Reprioritized(q, id, p).heap ==> Comes(q.heap, x, id, p)
  {
    hide *;
    SetPriorityOk(q, id, p);
    RepricedEntries(q.heap, Reprioritized(q, id, p).heap, id, p);
  }

  lemma RepricedEntries(heap: seq<Entry>, heap': seq<Entry>, id: Id, p: Priority)
    requires Repriced(heap, heap', id, p)
    ensures forall e :: e in heap ==> WithPriority(e, id, p) in heap'
    ensures forall x :: x in heap' ==> Comes(heap, x, id, p)
  {
    hide Origin, Comes;
    forall e | e in heap ensures WithPriority(e, id, p) in heap' {
      assert Changed(e, id, p) in heap';
    }
    forall x | x in heap' ensures Comes(heap, x, id, p) {
      var e := OriginOf(heap, x, id, p);
      ComesFrom(heap, x, e, id, p);
    }
  }

  lemma ComesFrom(heap: seq<Entry>, x: Entry, e: Entry, id: Id, p: Priority)
    requires e in heap && x == Changed(e, id, p)
    ensures Comes(heap, x, id, p)
  {
    assert x == WithPriority(e, id, p);
  }

  ghost predicate Comes(heap: seq<Entry>, x: Entry, id: Id, p: Priority) {
    exists e :: e in heap && x == WithPriority(e, id, p)
  }

  lemma OthersStay(q: Queue, id: Id, p: Priority, x: Entry)
    requires QueueOk(q) && x.id != id
    ensures x in Reprioritized(q, id, p).heap <==> x in q.heap
  {
    if id in q.prios {
      RepricedExactly(q, id, p);
      hide QueueOk, Reprioritized;
      if x in q.heap { assert WithPriority(x, id, p) == x; }
    }
  }

  /** Whoever is granted a slot from the queue is to be served before everyone
      else who waits, and took the slot below the ceiling it read. */
  lemma GrantIsFirst(s: System, id: Id)
    requires Inv(s) && Next(s, Take(id)).Some? && Next(s, Take(id)).value.tasks[id].pc.Holding?
    ensures s.q.heap != [] && s.q.heap[0].id == id
    ensures forall e :: e in s.q.heap && e.id != id ==> First(s.q.heap[0], e)
  {
    GrantsTheBest(s, id);
    hide Inv, Next, Beats;
    forall e | e in s.q.heap && e.id != id ensures First(s.q.heap[0], e) { BeatsExactly(s.q.heap[0], e); }
  }

  /** Whoever takes a slot without queueing passes nobody of higher priority. */
  lemma TryPassesNobodyHigher(s: System, id: Id)
    requires Inv(s) && Next(s, TryTake(id)).Some? && s.q.avail > 0
    ensures forall e :: e in s.q.heap ==> !Higher(e.priority, s.tasks[id].priority)
  {
    TryNeverOvertakes(s, id);
  }

  // -------------------------------------------------------------- over runs

  /** Steps that leave the two entries their priorities and do not take the
      later one out. */
  predicate Spares(step: Step, a: Entry, b: Entry) {
    && !(step.SetPriority? && (step.id == a.id || step.id == b.id))
    && !(step.Remove? && step.id == b.id)
  }

  /** The later entry is there as long as the earlier, which never comes back. */
  ghost predicate InOrder(s: System, a: Entry, b: Entry) {
    && (a in s.q.heap ==> b in s.q.heap)
    && a.sequence < s.q.next
    && forall id :: id in s.tasks && s.tasks[id].pc.Numbered? ==> s.tasks[id].pc.sequence != a.sequence
  }

  lemma HeapAfter(s: System, step: Step, a: Entry, b: Entry)
    requires Inv(s) && Next(s, step).Some? && Spares(step, a, b)
    requires a.priority == b.priority && a.sequence < b.sequence && a.id != b.id && InOrder(s, a, b)
    ensures var heap := Next(s, step).value.q.heap; a in heap ==> a in s.q.heap && b in heap
  {
    hide EntriesOk, ActiveOk, PermitsOk, NoWedge;
    var t := Next(s, step).value;
    match step {
      case Join(id) =>
        hide QueueOk, NumbersOk, LockOk;
        JoinedHeap(s, id);
      case Take(id) =>
        hide NumbersOk;
        if s.q.avail > 0 {
          LockHolder(s, id);
          HeadLeaves(s.q.heap, a, b);
        }
      case SetPriority(id, p) =>
        hide NumbersOk, LockOk;
        OthersStay(s.q, id, p, a);
        OthersStay(s.q, id, p, b);
      case Remove(id) =>
        hide NumbersOk, LockOk;
        RemoveOk(s.q, id);
      case _ =>
        hide QueueOk, NumbersOk, LockOk;
        assert t.q.heap == s.q.heap;
    }
  }

  lemma HeadLeaves(heap: seq<Entry>, a: Entry, b: Entry)
    requires Ordered(heap) && heap != [] && (a in heap ==> b in heap)
    requires a.priority == b.priority && a.sequence < b.sequence && a.id != b.id
    ensures a in heap[1..] ==> a in heap && b in heap[1..]
  {
    TailOrdered(heap);
    BeatsExactly(heap[0], a);
  }

  lemma JoinedHeap(s: System, id: Id)
    requires Next(s, Join(id)).Some?
    ensures id in s.tasks && s.tasks[id].pc.Numbered?
    ensures forall x :: x in Next(s, Join(id)).value.q.heap <==>
      x in s.q.heap || x == Entry(id, s.tasks[id].priority, s.tasks[id].pc.sequence)
  {
    var e := Entry(id, s.tasks[id].priority, s.tasks[id].pc.sequence);
    forall x ensures x in Push(s.q.heap, e) <==> x == e || x in s.q.heap { PushMembers(s.q.heap, e, x); }
  }

  lemma NumbersAfter(s: System, step: Step, n: nat)
    requires Next(s, step).Some? && n < s.q.next
    requires forall id :: id in s.tasks && s.tasks[id].pc.Numbered? ==> s.tasks[id].pc.sequence != n
    ensures var t := Next(s, step).value;
      n < t.q.next && forall id :: id in t.tasks && t.tasks[id].pc.Numbered? ==> t.tasks[id].pc.sequence != n
  {
    hide Push, PushAll, Others, Waits;
  }

  lemma InOrderStays(s: System, step: Step, a: Entry, b: Entry)
    requires Inv(s) && Next(s, step).Some? && Spares(step, a, b)
    requires a.priority == b.priority && a.sequence < b.sequence && a.id != b.id && InOrder(s, a, b)
    ensures InOrder(Next(s, step).value, a, b)
  {
    HeapAfter(s, step, a, b);
    NumbersAfter(s, step, a.sequence);
    hide Inv, Next;
  }

  lemma {:induction false} RunInOrder(s: System, steps: seq<Step>, t: System, a: Entry, b: Entry)
    requires Inv(s) && Runs(s, steps, t) && forall k :: 0 <= k < |steps| ==> Spares(steps[k], a, b)
    requires a.priority == b.priority && a.sequence < b.sequence && a.id != b.id && InOrder(s, a, b)
    ensures InOrder(t, a, b)
    decreases |steps|
  {
    hide Inv, Next, InOrder, Spares;
    if steps != [] {
      assert Spares(steps[0], a, b);
      StepKeeps(s, steps[0]);
      InOrderStays(s, steps[0], a, b);
      RunInOrder(Next(s, steps[0]).value, steps[1..], t, a, b);
    }
  }

  /** First come, first served: of two waiters of one priority, which nobody
      changes, the one numbered later is not granted a slot while the one
      numbered earlier still waits, whatever happens in between. */
  lemma FirstComeFirstServed(max: nat, before: seq<Step>, s: System, steps: seq<Step>, t: System, a: Entry, b: Entry)
    requires Runs(Initial(max), before, s) && a in s.q.heap && b in s.q.heap
    requires a.priority == b.priority && a.sequence < b.sequence
    requires Runs(s, steps, t) && forall k :: 0 <= k < |steps| ==> Spares(steps[k], a, b)
    ensures a in t.q.heap ==> b in t.q.heap
  {
    hide Next, Runs, Spares;
    InitialOk(max);
    RunKeeps(Initial(max), before, s);
    StartsInOrder(s, a, b);
    RunInOrder(s, steps, t, a, b);
  }

  lemma StartsInOrder(s: System, a: Entry, b: Entry)
    requires Inv(s) && a in s.q.heap && b in s.q.heap && a.sequence < b.sequence
    ensures a.id != b.id && InOrder(s, a, b)
  {
    hide EntriesOk, ActiveOk, PermitsOk, NoWedge, LockOk;
  }
}
