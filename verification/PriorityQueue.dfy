/** The data of the download queue: a heap of waiting entries, the active
    downloads, a count of free permits and a ceiling. Each operation is one
    critical section; how they interleave is the subject of QueueProtocol. */
module PriorityQueue {
  import opened Prelude

  type Id = nat
  datatype Priority = Low | Normal | High | Critical

  function Rank(p: Priority): int {
    match p
    case Low => -1
    case Normal => 0
    case High => 1
    case Critical => 2
  }

  datatype Entry = Entry(id: Id, priority: Priority, sequence: nat)

  /** The order of the heap: higher priority first, then the earlier sequence. */
  predicate Beats(a: Entry, b: Entry) {
    Rank(a.priority) > Rank(b.priority) || (a.priority == b.priority && a.sequence < b.sequence)
  }

  /** The heap, listed in the order it would be popped. */
  predicate Sorted(heap: seq<Entry>) { forall i, j :: 0 <= i < j < |heap| ==> Beats(heap[i], heap[j]) }

  /** No two entries share an id or a sequence number. */
  predicate Unique(heap: seq<Entry>) {
    forall a, b :: a in heap && b in heap && (a.id == b.id || a.sequence == b.sequence) ==> a == b
  }

  predicate Ordered(heap: seq<Entry>) { Sorted(heap) && Unique(heap) }

  predicate Waits(heap: seq<Entry>, id: Id) { exists e :: e in heap && e.id == id }

  datatype Queue = Queue(
    heap: seq<Entry>, prios: map<Id, Priority>, active: map<Id, Priority>,
    avail: nat, max: nat, next: nat)

  // ------------------------------------------------------------------ heap

  function Push(heap: seq<Entry>, e: Entry): seq<Entry> {
    if heap == [] || Beats(e, heap[0]) then [e] + heap else [heap[0]] + Push(heap[1..], e)
  }

  function PushAll(heap: seq<Entry>, entries: seq<Entry>): seq<Entry> {
    if entries == [] then heap else Push(PushAll(heap, entries[..|entries| - 1]), entries[|entries| - 1])
  }

  lemma {:induction false} PushMembers(heap: seq<Entry>, e: Entry, x: Entry)
    ensures x in Push(heap, e) <==> x == e || x in heap
  {
    if heap != [] {
      assert heap == [heap[0]] + heap[1..];
      PushMembers(heap[1..], e, x);
    }
  }

  /** A new entry takes its place among the others. */
  lemma {:induction false} PushSorted(heap: seq<Entry>, e: Entry)
    requires Sorted(heap) && forall x :: x in heap ==> x.sequence != e.sequence
    ensures Sorted(Push(heap, e))
  {
    if heap != [] && !Beats(e, heap[0]) {
      PushSorted(heap[1..], e);
      var rest := Push(heap[1..], e);
      forall k | 0 <= k < |rest| ensures Beats(heap[0], rest[k]) {
        PushMembers(heap[1..], e, rest[k]);
        assert heap[0] in heap;
      }
    }
  }

  lemma PushOrdered(heap: seq<Entry>, e: Entry)
    requires Ordered(heap) && forall x :: x in heap ==> x.sequence != e.sequence && x.id != e.id
    ensures Ordered(Push(heap, e))
    ensures forall x :: x in Push(heap, e) <==> x == e || x in heap
  {
    PushSorted(heap, e);
    forall x ensures x in Push(heap, e) <==> x == e || x in heap { PushMembers(heap, e, x); }
  }

  lemma {:induction false} PushAllOrdered(entries: seq<Entry>)
    requires Unique(entries) && forall i, j :: 0 <= i < j < |entries| ==> entries[i] != entries[j]
    ensures Ordered(PushAll([], entries)) && forall x :: x in PushAll([], entries) <==> x in entries
    decreases |entries|
  {
    if entries != [] {
      var n := |entries| - 1;
      var front := entries[..n];
      assert entries == front + [entries[n]];
      PushAllOrdered(front);
      forall x | x in front ensures x.sequence != entries[n].sequence && x.id != entries[n].id {
        assert x in entries && entries[n] in entries;
      }
      PushOrdered(PushAll([], front), entries[n]);
    }
  }

  lemma SortedDistinct(heap: seq<Entry>)
    requires Sorted(heap)
    ensures forall i, j :: 0 <= i < j < |heap| ==> heap[i] != heap[j]
  {
  }

  lemma HeadIn(heap: seq<Entry>)
    requires heap != []
    ensures heap[0] in heap
  {
  }

  /** Entries in one order only: two lists with the same entries are the same. */
  lemma {:induction false} SortedUnique(a: seq<Entry>, b: seq<Entry>)
    requires Sorted(a) && Sorted(b) && forall x :: x in a <==> x in b
    ensures a == b
    decreases |a|
  {
    if a == [] {
      if b != [] { HeadIn(b); }
    } else {
      assert a[0] in a && b[0] in b;
      assert a[0] == b[0];
      assert a == [a[0]] + a[1..] && b == [b[0]] + b[1..];
      forall x ensures x in a[1..] <==> x in b[1..] {
        if x in a[1..] { assert x in a && x != a[0]; }
        if x in b[1..] { assert x in b && x != b[0]; }
      }
      SortedUnique(a[1..], b[1..]);
    }
  }

  lemma Waiter(heap: seq<Entry>, id: Id) returns (e: Entry)
    requires Waits(heap, id)
    ensures e in heap && e.id == id
  {
    e :| e in heap && e.id == id;
  }

  lemma Waiting(heap: seq<Entry>, e: Entry)
    requires e in heap
    ensures Waits(heap, e.id)
  {
  }

  // ------------------------------------------------------------ operations

  function Changed(e: Entry, id: Id, p: Priority): Entry { if e.id == id then e.(priority := p) else e }

  function ChangedAll(entries: seq<Entry>, id: Id, p: Priority): (r: seq<Entry>)
    ensures |r| == |entries| && forall k :: 0 <= k < |r| ==> r[k] == Changed(entries[k], id, p)
  {
    seq(|entries|, (k: nat) requires k < |entries| => Changed(entries[k], id, p))
  }

  function Others(entries: seq<Entry>, id: Id): seq<Entry> {
    if entries == [] then []
    else
      var rest := Others(entries[..|entries| - 1], id);
      if entries[|entries| - 1].id == id then rest else rest + [entries[|entries| - 1]]
  }

  /** Joining the queue: a sequence number, then an entry. */
  function Enqueued(q: Queue, id: Id, p: Priority, sequence: nat): Queue {
    q.(heap := Push(q.heap, Entry(id, p, sequence)), prios := q.prios[id := p])
  }

  /** The head of the queue, with a permit in hand, becomes active. */
  function Grant(q: Queue, id: Id, p: Priority): Queue
    requires q.heap != [] && q.avail > 0
  {
    q.(heap := q.heap[1..], prios := q.prios - {id}, active := q.active[id := p], avail := q.avail - 1)
  }

  function Reprioritized(q: Queue, id: Id, p: Priority): Queue {
    if id in q.prios then q.(heap := PushAll([], ChangedAll(q.heap, id, p)), prios := q.prios[id := p])
    else if id in q.active then q.(active := q.active[id := p])
    else q
  }

  function Removed(q: Queue, id: Id): Queue {
    q.(heap := PushAll([], Others(q.heap, id)), prios := q.prios - {id})
  }

  /** `waiting_priorities` is the priority of every entry in the heap. */
  predicate Agree(q: Queue) {
    && (forall e :: e in q.heap ==> e.id in q.prios && q.prios[e.id] == e.priority)
    && (forall id :: id in q.prios ==> Waits(q.heap, id))
  }

  predicate QueueOk(q: Queue) { Ordered(q.heap) && Agree(q) }

  lemma PushHead(heap: seq<Entry>, e: Entry)
    ensures Push(heap, e) != [] && (Push(heap, e)[0] == e || (heap != [] && Push(heap, e)[0] == heap[0]))
  {
  }

  /** In order, the entries that beat one are those before it. */
  lemma BeatenAfter(h: seq<Entry>, i: nat)
    requires Ordered(h) && i < |h|
    ensures forall e :: e in h ==> (Beats(e, h[i]) <==> e in h[..i])
  {
    forall e | e in h ensures Beats(e, h[i]) <==> e in h[..i] {
      var k :| 0 <= k < |h| && h[k] == e;
      if e in h[..i] { var j :| 0 <= j < i && h[j] == e; }
    }
  }

  lemma EnqueueOk(q: Queue, id: Id, p: Priority, sequence: nat)
    requires QueueOk(q) && !Waits(q.heap, id) && forall x :: x in q.heap ==> x.sequence != sequence
    ensures QueueOk(Enqueued(q, id, p, sequence))
    ensures forall x :: x in Enqueued(q, id, p, sequence).heap <==> x == Entry(id, p, sequence) || x in q.heap
    ensures var heap := Enqueued(q, id, p, sequence).heap; heap != [] && (heap[0] == Entry(id, p, sequence) || (q.heap != [] && heap[0] == q.heap[0]))
  {
    hide Ordered, Waits, Beats, Push;
    var e := Entry(id, p, sequence);
    forall x | x in q.heap ensures x.id != id { Waiting(q.heap, x); }
    PushOrdered(q.heap, e);
    PushHead(q.heap, e);
    var heap' := Push(q.heap, e);
    Waiting(heap', e);
    EnqueueAgrees(q, heap', e);
  }

  lemma EnqueueAgrees(q: Queue, heap': seq<Entry>, e: Entry)
    requires Agree(q) && forall x :: x in heap' <==> x == e || x in q.heap
    requires forall x :: x in q.heap ==> x.id != e.id
    ensures Agree(q.(heap := heap', prios := q.prios[e.id := e.priority]))
  {
    hide Waits;
    Waiting(heap', e);
    forall i | i in q.prios ensures Waits(heap', i) {
      var x := Waiter(q.heap, i);
      Waiting(heap', x);
    }
  }

  lemma TailOrdered(heap: seq<Entry>)
    requires Ordered(heap) && heap != []
    ensures Ordered(heap[1..])
    ensures forall x :: x in heap[1..] <==> x in heap && x.id != heap[0].id
    ensures forall x :: x in heap[1..] ==> Beats(heap[0], x)
  {
    var tail := heap[1..];
    assert heap == [heap[0]] + tail;
    forall k | 0 <= k < |tail| ensures Beats(heap[0], tail[k]) && tail[k] in heap {
      assert tail[k] == heap[k + 1];
    }
    assert heap[0] in heap;
    assert Sorted(tail);
  }

  lemma GrantOk(q: Queue, id: Id, p: Priority)
    requires QueueOk(q) && q.heap != [] && q.heap[0].id == id && q.avail > 0
    ensures QueueOk(Grant(q, id, p))
    ensures forall x :: x in Grant(q, id, p).heap <==> x in q.heap && x.id != id
  {
    TailOrdered(q.heap);
    hide Ordered, Waits, Beats;
    var q' := Grant(q, id, p);
    forall i | i in q'.prios ensures Waits(q'.heap, i) {
      var x := Waiter(q.heap, i);
      Waiting(q'.heap, x);
    }
  }

  lemma {:induction false} OthersMembers(entries: seq<Entry>, id: Id)
    ensures forall x :: x in Others(entries, id) <==> x in entries && x.id != id
    ensures (forall i, j :: 0 <= i < j < |entries| ==> entries[i] != entries[j]) ==>
      forall i, j :: 0 <= i < j < |Others(entries, id)| ==> Others(entries, id)[i] != Others(entries, id)[j]
    decreases |entries|
  {
    if entries != [] {
      var n := |entries| - 1;
      assert entries == entries[..n] + [entries[n]];
      OthersMembers(entries[..n], id);
    }
  }

  lemma RemoveOk(q: Queue, id: Id)
    requires QueueOk(q)
    ensures QueueOk(Removed(q, id))
    ensures forall x :: x in Removed(q, id).heap <==> x in q.heap && x.id != id
  {
    hide PushAll, Others;
    SortedDistinct(q.heap);
    OthersMembers(q.heap, id);
    PushAllOrdered(Others(q.heap, id));
    hide Ordered;
    RemovedAgrees(q, Removed(q, id).heap, id);
  }

  lemma RemovedAgrees(q: Queue, heap': seq<Entry>, id: Id)
    requires Agree(q) && forall x :: x in heap' <==> x in q.heap && x.id != id
    ensures Agree(q.(heap := heap', prios := q.prios - {id}))
  {
    hide Waits;
    forall i | i in q.prios && i != id ensures Waits(heap', i) {
      var x := Waiter(q.heap, i);
      Waiting(heap', x);
    }
  }

  /** The entries of one heap are those of another with one priority changed. */
  ghost predicate Repriced(heap: seq<Entry>, heap': seq<Entry>, id: Id, p: Priority) {
    && (forall e :: e in heap ==> Changed(e, id, p) in heap')
    && (forall x :: x in heap' ==> Origin(heap, x, id, p))
  }

  ghost predicate Origin(heap: seq<Entry>, x: Entry, id: Id, p: Priority) {
    exists e :: e in heap && x == Changed(e, id, p)
  }

  lemma OriginOf(heap: seq<Entry>, x: Entry, id: Id, p: Priority) returns (e: Entry)
    requires Origin(heap, x, id, p)
    ensures e in heap && x == Changed(e, id, p)
  {
    e :| e in heap && x == Changed(e, id, p);
  }

  lemma RepricedWaits(heap: seq<Entry>, heap': seq<Entry>, id: Id, p: Priority, i: Id)
    requires Repriced(heap, heap', id, p)
    ensures Waits(heap', i) <==> Waits(heap, i)
  {
    hide Waits, Origin;
    if Waits(heap, i) {
      var e := Waiter(heap, i);
      Waiting(heap', Changed(e, id, p));
    }
    if Waits(heap', i) {
      var x := Waiter(heap', i);
      var e := OriginOf(heap, x, id, p);
      Waiting(heap, e);
    }
  }

  lemma RepricedAgrees(q: Queue, heap': seq<Entry>, id: Id, p: Priority)
    requires Agree(q) && id in q.prios && Repriced(q.heap, heap', id, p)
    ensures Agree(q.(heap := heap', prios := q.prios[id := p]))
    ensures forall i :: Waits(heap', i) <==> Waits(q.heap, i)
  {
    hide Waits, Origin;
    forall i ensures Waits(heap', i) <==> Waits(q.heap, i) { RepricedWaits(q.heap, heap', id, p, i); }
    forall x | x in heap' ensures x.id in q.prios && (if x.id == id then x.priority == p else q.prios[x.id] == x.priority) {
      var e := OriginOf(q.heap, x, id, p);
    }
  }

  lemma ChangedMembers(entries: seq<Entry>, id: Id, p: Priority)
    requires Unique(entries) && forall i, j :: 0 <= i < j < |entries| ==> entries[i] != entries[j]
    ensures Unique(ChangedAll(entries, id, p))
    ensures forall i, j :: 0 <= i < j < |entries| ==> ChangedAll(entries, id, p)[i] != ChangedAll(entries, id, p)[j]
    ensures Repriced(entries, ChangedAll(entries, id, p), id, p)
  {
    var r := ChangedAll(entries, id, p);
    forall i, j | 0 <= i < j < |entries| ensures r[i].id != r[j].id && r[i].sequence != r[j].sequence {
      assert entries[i] in entries && entries[j] in entries;
    }
    forall e | e in entries ensures Changed(e, id, p) in r {
      var k :| 0 <= k < |entries| && entries[k] == e;
      assert r[k] == Changed(e, id, p);
    }
    forall x | x in r ensures Origin(entries, x, id, p) {
      var k :| 0 <= k < |r| && r[k] == x;
      assert entries[k] in entries && x == Changed(entries[k], id, p);
    }
  }

  lemma HeapRepriced(heap: seq<Entry>, id: Id, p: Priority)
    requires Ordered(heap)
    ensures Ordered(PushAll([], ChangedAll(heap, id, p)))
    ensures Repriced(heap, PushAll([], ChangedAll(heap, id, p)), id, p)
  {
    hide PushAll, Changed, Origin;
    SortedDistinct(heap);
    ChangedMembers(heap, id, p);
    PushAllOrdered(ChangedAll(heap, id, p));
  }

  /** Changing a priority keeps every entry and its place in time. */
  lemma SetPriorityOk(q: Queue, id: Id, p: Priority)
    requires QueueOk(q)
    ensures QueueOk(Reprioritized(q, id, p))
    ensures id in q.prios ==> Repriced(q.heap, Reprioritized(q, id, p).heap, id, p)
    ensures forall i :: Waits(Reprioritized(q, id, p).heap, i) <==> Waits(q.heap, i)
  {
    hide PushAll, ChangedAll, Ordered, Repriced, Waits, Agree;
    if id in q.prios {
      HeapRepriced(q.heap, id, p);
      RepricedAgrees(q, PushAll([], ChangedAll(q.heap, id, p)), id, p);
    } else {
      ActiveAgrees(q, Reprioritized(q, id, p).active);
    }
  }

  lemma ActiveAgrees(q: Queue, active: map<Id, Priority>)
    requires Agree(q)
    ensures Agree(q.(active := active))
  {
  }

  lemma PushAllSnoc(entries: seq<Entry>, k: nat)
    requires k < |entries|
    ensures PushAll([], entries[..k + 1]) == Push(PushAll([], entries[..k]), entries[k])
  {
    assert entries[..k + 1][..k] == entries[..k];
  }

  lemma OthersSnoc(entries: seq<Entry>, k: nat, id: Id)
    requires k < |entries|
    ensures Others(entries[..k + 1], id) == Others(entries[..k], id) + (if entries[k].id == id then [] else [entries[k]])
  {
    assert entries[..k + 1][..k] == entries[..k];
  }

  /** The shared object. `permits` is the semaphore's count. */
  class PriorityQueue {
    var waiting: seq<Entry>
    var waitingPriorities: map<Id, Priority>
    var active: map<Id, Priority>
    var permits: nat
    var maxConcurrent: nat
    var sequence: nat

    function State(): Queue
      reads this
    {
      Queue(waiting, waitingPriorities, active, permits, maxConcurrent, sequence)
    }

    constructor (max: nat)
      ensures State() == Queue([], map[], map[], max, max, 0) && QueueOk(State())
    {
      waiting, waitingPriorities, active, permits, maxConcurrent, sequence := [], map[], map[], max, max, 0;
    }

    method TakeNumber() returns (number: nat)
      modifies this`sequence
      ensures number == old(sequence) && State() == old(State()).(next := number + 1)
    {
      number := sequence;
      sequence := sequence + 1;
    }

    method Enqueue(id: Id, priority: Priority, number: nat)
      modifies this
      ensures State() == Enqueued(old(State()), id, priority, number)
    {
      waiting := Push(waiting, Entry(id, priority, number));
      waitingPriorities := waitingPriorities[id := priority];
    }

    /** How a task joins when nothing comes between its number and its entry. */
    method Join(id: Id, priority: Priority)
      modifies this
      ensures State() == Enqueued(old(State()).(next := old(sequence) + 1), id, priority, old(sequence))
    {
      var number := TakeNumber();
      Enqueue(id, priority, number);
    }

    /** The check of a waiting task, made and acted on under the lock. */
    method TryGrant(id: Id, priority: Priority) returns (granted: bool)
      modifies this
      ensures granted <==> old(waiting != [] && waiting[0].id == id && |active| < maxConcurrent && permits > 0)
      ensures State() == if granted then Grant(old(State()), id, priority) else old(State())
    {
      granted := false;
      if waiting != [] {
        var next := waiting[0];
        if next.id == id && |active| < maxConcurrent {
          if permits > 0 {
            permits := permits - 1;
            waiting := waiting[1..];
            waitingPriorities := waitingPriorities - {id};
            active := active[id := priority];
            granted := true;
          }
        }
      }
    }

    /** Taking a slot without queueing: never past a strictly higher waiter. */
    method TryAcquire(id: Id, priority: Priority) returns (granted: bool)
      modifies this
      ensures granted <==> old(|active| < maxConcurrent && permits > 0 && (waiting != [] ==> Rank(waiting[0].priority) <= Rank(priority)))
      ensures State() == if granted then old(State()).(active := old(active)[id := priority], avail := old(permits) - 1) else old(State())
    {
      if |active| >= maxConcurrent { return false; }
      if waiting != [] && Rank(waiting[0].priority) > Rank(priority) { return false; }
      if permits == 0 { return false; }
      permits := permits - 1;
      active := active[id := priority];
      return true;
    }

    method SetPriority(id: Id, priority: Priority) returns (found: bool)
      modifies this
      ensures State() == Reprioritized(old(State()), id, priority)
      ensures found <==> id in old(waitingPriorities) || id in old(active)
    {
      if id in waitingPriorities {
        var entries := waiting;
        waiting := [];
        for i := 0 to |entries|
          invariant waiting == PushAll([], ChangedAll(entries, id, priority)[..i])
          invariant State() == old(State()).(heap := waiting)
        {
          PushAllSnoc(ChangedAll(entries, id, priority), i);
          if entries[i].id == id {
            waiting := Push(waiting, Entry(entries[i].id, priority, entries[i].sequence));
          } else {
            waiting := Push(waiting, entries[i]);
          }
        }
        assert ChangedAll(entries, id, priority)[..|entries|] == ChangedAll(entries, id, priority);
        waitingPriorities := waitingPriorities[id := priority];
        return true;
      }
      if id in active {
        active := active[id := priority];
        return true;
      }
      return false;
    }

    method Remove(id: Id)
      modifies this
      ensures State() == Removed(old(State()), id)
    {
      waitingPriorities := waitingPriorities - {id};
      var drained := waiting;
      var entries: seq<Entry> := [];
      for i := 0 to |drained|
        invariant entries == Others(drained[..i], id)
        invariant State() == old(State()).(prios := old(waitingPriorities) - {id})
      {
        OthersSnoc(drained, i, id);
        if drained[i].id != id { entries := entries + [drained[i]]; }
      }
      assert drained[..|drained|] == drained;
      waiting := [];
      for i := 0 to |entries|
        invariant waiting == PushAll([], entries[..i])
        invariant State() == old(State()).(heap := waiting, prios := waitingPriorities)
        invariant waitingPriorities == old(waitingPriorities) - {id}
      {
        PushAllSnoc(entries, i);
        waiting := Push(waiting, entries[i]);
      }
      assert entries[..|entries|] == entries;
    }

    /** A slot's release, in the two steps it takes before notifying. */
    method Deactivate(id: Id)
      modifies this`active
      ensures State() == old(State()).(active := old(active) - {id})
    {
      active := active - {id};
    }

    method ReturnPermit()
      modifies this`permits
      ensures State() == old(State()).(avail := old(permits) + 1)
    {
      permits := permits + 1;
    }

    /** Dropping a permit: the slot is given up before the permit returns. */
    method Release(id: Id)
      modifies this
      ensures State() == old(State()).(active := old(active) - {id}, avail := old(permits) + 1)
    {
      Deactivate(id);
      ReturnPermit();
    }

    /** The new ceiling, and how many permits must then be added for it. */
    method SwapMax(max: nat) returns (grow: nat)
      modifies this`maxConcurrent
      ensures State() == old(State()).(max := max) && grow == Max(max - old(maxConcurrent), 0)
    {
      var previous := maxConcurrent;
      maxConcurrent := max;
      grow := if max > previous then max - previous else 0;
    }

    /** One more than the number of waiting entries that beat this one. */
    method QueuePosition(id: Id) returns (r: Option<nat>)
      requires QueueOk(State())
      ensures r.Some? <==> id in waitingPriorities
      ensures r.Some? ==> 1 <= r.value <= |waiting| && waiting[r.value - 1].id == id
      ensures r.Some? ==> forall e :: e in waiting ==> (Beats(e, waiting[r.value - 1]) <==> e in waiting[..r.value - 1])
    {
      if id !in waitingPriorities { return None; }
      ghost var mine := Waiter(waiting, id);
      var i := 0;
      while waiting[i].id != id
        invariant 0 <= i < |waiting| && mine !in waiting[..i]
        decreases |waiting| - i
      {
        assert waiting == waiting[..i] + [waiting[i]] + waiting[i + 1..];
        i := i + 1;
      }
      BeatenAfter(waiting, i);
      return Some(i + 1);
    }
  }
}
