/** What a session does with an honest server, whose streams may break as often as
    retries allow: it completes. With right snapshots that
    gives the remote file; with a snapshot of a partial file that is gone it
    puts a wrong file in place. */
module SegmentCompletion {
  import opened Prelude
  import opened Segments
  import opened Resume
  import opened SegmentTasks
  import opened SegmentSessions

  lemma {:induction false} LeadsAppend(cfg: Config, a: World, x: seq<Event>, b: World, y: seq<Event>, c: World)
    requires Leads(cfg, a, x, b) && Leads(cfg, b, y, c)
    ensures Leads(cfg, a, x + y, c)
    decreases |x|
  {
    hide Next;
    if x == [] {
      assert x + y == y;
    } else {
      LeadsAppend(cfg, Next(cfg, a, x[0]).value, x[1..], b, y, c);
      assert (x + y)[1..] == x[1..] + y;
    }
  }

  lemma LeadsOne(cfg: Config, a: World, e: Event, b: World)
    requires Next(cfg, a, e) == Some(b)
    ensures Leads(cfg, a, [e], b)
  {
    hide Next;
    assert [e][1..] == [];
    assert Leads(cfg, b, [], b);
  }

  /** Only work on the segments: nothing is launched. */
  predicate AllWork(events: seq<Event>) { forall k :: 0 <= k < |events| ==> events[k].Work? }

  function At(w: World, file: seq<byte>, s: Session): World { w.(part := Some(file), run := Some(s)) }

  lemma OneAct(cfg: Config, w: World, file: seq<byte>, s: Session, i: nat, act: Act, file': seq<byte>, s': Session)
    requires Shaped(s) && i < |s.tasks| && Run(cfg, file, s, i, act) == Some((file', s'))
    requires act.Ask? ==> Honest(cfg, act.reply)
    ensures Leads(cfg, At(w, file, s), [Work(On(i, act))], At(w, file', s'))
  {
    hide Honest, Run;
    LeadsOne(cfg, At(w, file, s), Work(On(i, act)), At(w, file', s'));
  }

  lemma TwoRuns(cfg: Config, a: World, x: seq<Event>, b: World, y: seq<Event>, c: World)
    requires Leads(cfg, a, x, b) && Leads(cfg, b, y, c) && AllWork(x) && AllWork(y)
    ensures Leads(cfg, a, x + y, c) && AllWork(x + y)
  {
    LeadsAppend(cfg, a, x, b, y, c);
  }

  /** The answer of a server that serves the range asked for. */
  function FullReply(cfg: Config, seg: Segment, got: nat): Reply
    requires seg.start + got <= seg.end < |cfg.remote|
  {
    var none := Validators(None, None);
    Reply(206, Some(ContentRange(seg.start + got, seg.end, None)), true, Context(false, none, none),
          cfg.remote[seg.start + got..seg.end + 1])
  }

  /** A session in which every task is still to be run, or is done and full. */
  ghost predicate Ready(cfg: Config, s: Session) {
    && Shaped(s) && Partition(s.segs, |cfg.remote|)
    && s.downloaded == TotalCounted(s.tasks, s.progress)
    && forall i :: 0 <= i < |s.tasks| ==> ReadyTask(s.segs[i], s.tasks[i], s.progress[i])
  }

  predicate ReadyTask(seg: Segment, t: Task, p: nat) {
    if t.Waiting? then p == seg.downloaded < seg.Size()
    else (t.Skipped? || t == Finished(None)) && p == seg.Size() && seg.downloaded <= seg.Size()
  }

  lemma CountFits(cfg: Config, s: Session, i: nat)
    requires Ready(cfg, s) && i < |s.tasks| && s.tasks[i].Waiting?
    ensures s.downloaded + (s.segs[i].Size() - s.segs[i].downloaded) <= |cfg.remote|
    ensures s.segs[i].end < |cfg.remote|
    ensures Shaped(s) && s.progress[i] == s.segs[i].downloaded < s.segs[i].Size()
    ensures TotalCounted(s.tasks[i := Finished(None)], s.progress[i := s.segs[i].Size()])
         == s.downloaded + (s.segs[i].Size() - s.segs[i].downloaded)
  {
    hide TotalCounted;
    var tasks, progress := s.tasks[i := Finished(None)], s.progress[i := s.segs[i].Size()];
    TilesAt(s.segs, 0, 0, |cfg.remote|, i);
    TotalUpdate(s.tasks, s.progress, i, Finished(None), s.segs[i].Size());
    CounterBound(s.segs, tasks, progress, |cfg.remote|);
  }

  /** How the streams of one segment break: after so many bytes each, while
      there is something left to fetch. */
  predicate Breakable(breaks: seq<nat>, left: nat)
    decreases |breaks|
  {
    breaks == [] || (left > 0 && breaks[0] <= left && Breakable(breaks[1..], left - breaks[0]))
  }

  /** How often the stream of segment `i` broke. */
  function Breaks(events: seq<Event>, i: nat): nat {
    if events == [] then 0
    else (if events[0] == Work(On(i, StreamFails(true))) then 1 else 0) + Breaks(events[1..], i)
  }

  lemma {:induction false} BreaksAdd(x: seq<Event>, y: seq<Event>, i: nat)
    ensures Breaks(x + y, i) == Breaks(x, i) + Breaks(y, i)
    decreases |x|
  {
    if x == [] {
      assert x + y == y;
    } else {
      BreaksAdd(x[1..], y, i);
      assert (x + y)[1..] == x[1..] + y;
    }
  }

  lemma WriteTwice(file: seq<byte>, off: nat, a: seq<byte>, b: seq<byte>)
    requires off + |a| + |b| <= |file|
    ensures WriteAt(WriteAt(file, off, a), off + |a|, b) == WriteAt(file, off, a + b)
  {
    var once, twice := WriteAt(file, off, a + b), WriteAt(WriteAt(file, off, a), off + |a|, b);
    assert |once| == |twice| == |file|;
    forall k | 0 <= k < |file| ensures once[k] == twice[k] {
      WrittenAt(file, off, a + b, k);
      WrittenAt(file, off, a, k);
      WrittenAt(WriteAt(file, off, a), off + |a|, b, k);
    }
  }

  lemma WrittenAt(file: seq<byte>, off: nat, data: seq<byte>, k: nat)
    requires off + |data| <= |file| && k < |file|
    ensures |WriteAt(file, off, data)| == |file|
    ensures WriteAt(file, off, data)[k] == if off <= k < off + |data| then data[k - off] else file[k]
  {
    if off <= k < off + |data| { assert WriteAt(file, off, data)[off + (k - off)] == data[k - off]; }
  }

  /** A task about to ask, with `got` of its segment written and counted. */
  predicate AtTop(cfg: Config, file: seq<byte>, s: Session, i: nat, got: nat, attempt: nat) {
    && Shaped(s) && i < |s.tasks| && s.tasks[i] == Top(got, attempt) && s.progress[i] == got
    && got <= s.segs[i].Size() && s.segs[i].end < |cfg.remote| == |file| && |cfg.remote| < TWO_64
    && s.downloaded + (s.segs[i].Size() - got) <= |cfg.remote|
  }

  /** The session after segment `i` has been fetched to `got`. */
  function Fetched(s: Session, i: nat, t: Task, got: nat): Session
    requires Shaped(s) && i < |s.tasks| && s.progress[i] <= got
  {
    s.(tasks := s.tasks[i := t], progress := s.progress[i := got], downloaded := s.downloaded + (got - s.progress[i]))
  }

  /** The rest of the range asked for. */
  function Rest(cfg: Config, seg: Segment, got: nat): seq<byte>
    requires seg.start + got <= seg.end + 1 <= |cfg.remote|
  {
    cfg.remote[seg.start + got..seg.end + 1]
  }

  /** One request, of whose answer `n` bytes are written and counted. */
  lemma OneAnswer(cfg: Config, w: World, file: seq<byte>, s: Session, i: nat, got: nat, attempt: nat, n: nat)
      returns (events: seq<Event>, file': seq<byte>, s': Session)
    requires AtTop(cfg, file, s, i, got, attempt) && 0 < s.segs[i].Size() - got && n <= s.segs[i].Size() - got
    ensures Leads(cfg, At(w, file, s), events, At(w, file', s')) && AllWork(events)
    ensures forall j :: Breaks(events, j) == 0
    ensures file' == WriteAt(file, s.segs[i].start + got, Rest(cfg, s.segs[i], got)[..n])
    ensures s' == Fetched(s, i, Streaming(got + n, attempt, Rest(cfg, s.segs[i], got)[n..]), got + n)
  {
    hide TotalCounted, Leads, OnReply, Honest, WriteAt, AllWork, At, FullReply, Breaks;
    var seg, body := s.segs[i], Rest(cfg, s.segs[i], got);
    FullReplyFits(cfg, seg, got, attempt);
    var s1 := SetTask(s, i, Streaming(got, attempt, body));
    var s2 := SetTask(s1, i, Written(got + n, attempt, body[n..], n));
    var s3 := SetTask(s2, i, Published(got + n, attempt, body[n..], n)).(progress := s.progress[i := got + n]);
    s' := SetTask(s3, i, Streaming(got + n, attempt, body[n..])).(downloaded := s.downloaded + n);
    file' := WriteAt(file, seg.start + got, body[..n]);
    assert s1 == SetTask(s, i, Streaming(got, attempt, body)).(fatal := s.fatal || false);
    OneAct(cfg, w, file, s, i, Ask(true, FullReply(cfg, seg, got)), file, s1);
    OneAct(cfg, w, file, s1, i, Write(n), file', s2);
    OneAct(cfg, w, file', s2, i, Publish, file', s3);
    OneAct(cfg, w, file', s3, i, Count, file', s');
    assert s'.tasks == s.tasks[i := Streaming(got + n, attempt, body[n..])];
    events := Chain(cfg, i,
      [At(w, file, s), At(w, file, s1), At(w, file', s2), At(w, file', s3), At(w, file', s')],
      [Ask(true, FullReply(cfg, seg, got)), Write(n), Publish, Count]);
  }

  lemma FullReplyFits(cfg: Config, seg: Segment, got: nat, attempt: nat)
    requires seg.start + got <= seg.end < |cfg.remote| < TWO_64
    ensures Honest(cfg, FullReply(cfg, seg, got))
    ensures OnReply(cfg, seg, got, attempt, true, FullReply(cfg, seg, got)) == (Streaming(got, attempt, Rest(cfg, seg, got)), false)
  {
    hide ContentRange, ParseContentRange;
    ContentRangeRoundTrip(seg.start + got, seg.end, None);
  }

  /** The last request: the rest comes without a break, if there is any left. */
  lemma LastAnswer(cfg: Config, w: World, file: seq<byte>, s: Session, i: nat, got: nat, attempt: nat)
      returns (events: seq<Event>, file': seq<byte>, s': Session)
    requires AtTop(cfg, file, s, i, got, attempt)
    ensures Leads(cfg, At(w, file, s), events, At(w, file', s')) && AllWork(events)
    ensures forall j :: Breaks(events, j) == 0
    ensures file' == WriteAt(file, s.segs[i].start + got, Rest(cfg, s.segs[i], got))
    ensures s' == Fetched(s, i, Finished(None), s.segs[i].Size())
  {
    hide TotalCounted, Leads, OnReply, Honest, AllWork, At, FullReply, Breaks, WriteAt;
    var seg := s.segs[i];
    if got == seg.Size() {
      events, file', s' := NothingLeft(cfg, w, file, s, i, got, attempt);
    } else {
      var n := seg.Size() - got;
      var x, file1, s1 := OneAnswer(cfg, w, file, s, i, got, attempt, n);
      assert Rest(cfg, seg, got)[..n] == Rest(cfg, seg, got);
      file', s' := file1, SetTask(s1, i, Finished(None));
      assert s'.tasks == s.tasks[i := Finished(None)];
      OneAct(cfg, w, file1, s1, i, StreamEnds, file1, s');
      var y := Chain(cfg, i, [At(w, file1, s1), At(w, file', s')], [StreamEnds]);
      TwoRuns(cfg, At(w, file, s), x, At(w, file1, s1), y, At(w, file', s'));
      forall j ensures Breaks(x + y, j) == 0 { BreaksAdd(x, y, j); }
      events := x + y;
    }
  }

  lemma NothingLeft(cfg: Config, w: World, file: seq<byte>, s: Session, i: nat, got: nat, attempt: nat)
      returns (events: seq<Event>, file': seq<byte>, s': Session)
    requires AtTop(cfg, file, s, i, got, attempt) && got == s.segs[i].Size()
    ensures Leads(cfg, At(w, file, s), events, At(w, file', s')) && AllWork(events)
    ensures forall j :: Breaks(events, j) == 0
    ensures file' == WriteAt(file, s.segs[i].start + got, Rest(cfg, s.segs[i], got))
    ensures s' == Fetched(s, i, Finished(None), got)
  {
    hide TotalCounted, Leads, OnReply, AllWork, At, Breaks, WriteAt;
    file', s' := file, SetTask(s, i, Finished(None));
    WriteNothing(file, s.segs[i].start + got);
    OneAct(cfg, w, file, s, i, Ask(true, NoReply(false)), file, s');
    events := Chain(cfg, i, [At(w, file, s), At(w, file', s')], [Ask(true, NoReply(false))]);
    assert s'.progress == s.progress;
  }

  lemma WriteNothing(file: seq<byte>, off: nat)
    requires off <= |file|
    ensures WriteAt(file, off, []) == file
  {
  }

  /** A request whose stream breaks after `n` bytes: it is asked for again. */
  lemma BrokenAnswer(cfg: Config, w: World, file: seq<byte>, s: Session, i: nat, got: nat, attempt: nat, n: nat)
      returns (events: seq<Event>, file': seq<byte>, s': Session)
    requires AtTop(cfg, file, s, i, got, attempt) && 0 < s.segs[i].Size() - got && n <= s.segs[i].Size() - got
    requires attempt < cfg.maxAttempts
    ensures Leads(cfg, At(w, file, s), events, At(w, file', s')) && AllWork(events)
    ensures forall j :: Breaks(events, j) == if j == i then 1 else 0
    ensures file' == WriteAt(file, s.segs[i].start + got, Rest(cfg, s.segs[i], got)[..n])
    ensures s' == Fetched(s, i, Top(got + n, attempt + 1), got + n) && AtTop(cfg, file', s', i, got + n, attempt + 1)
  {
    hide TotalCounted, Leads, OnReply, Honest, AllWork, At, FullReply, WriteAt;
    var x, file1, s1 := OneAnswer(cfg, w, file, s, i, got, attempt, n);
    file', s' := file1, SetTask(s1, i, Top(got + n, attempt + 1));
    assert s'.tasks == s.tasks[i := Top(got + n, attempt + 1)];
    OneAct(cfg, w, file1, s1, i, StreamFails(true), file1, s');
    var y := [Work(On(i, StreamFails(true)))];
    assert y[1..] == [];
    assert AllWork(y) by { OneIsWork(On(i, StreamFails(true))); }
    TwoRuns(cfg, At(w, file, s), x, At(w, file1, s1), y, At(w, file', s'));
    forall j ensures Breaks(x + y, j) == if j == i then 1 else 0 { BreaksAdd(x, y, j); }
    events := x + y;
    assert |file'| == |file| by { WrittenSize(file, s.segs[i].start + got, Rest(cfg, s.segs[i], got)[..n]); }
  }

  lemma OneIsWork(step: Step)
    ensures AllWork([Work(step)])
  {
  }

  lemma WrittenSize(file: seq<byte>, off: nat, data: seq<byte>)
    requires off + |data| <= |file|
    ensures |WriteAt(file, off, data)| == |file|
  {
  }

  /** From a first request on, with streams that break as planned. */
  lemma {:induction false} FromTop(cfg: Config, w: World, file: seq<byte>, s: Session, i: nat, got: nat, attempt: nat, breaks: seq<nat>)
      returns (events: seq<Event>, file': seq<byte>, s': Session)
    requires AtTop(cfg, file, s, i, got, attempt)
    requires attempt + |breaks| <= cfg.maxAttempts && Breakable(breaks, s.segs[i].Size() - got)
    ensures Leads(cfg, At(w, file, s), events, At(w, file', s')) && AllWork(events)
    ensures forall j :: Breaks(events, j) == if j == i then |breaks| else 0
    ensures file' == WriteAt(file, s.segs[i].start + got, Rest(cfg, s.segs[i], got))
    ensures s' == Fetched(s, i, Finished(None), s.segs[i].Size())
    decreases |breaks|
  {
    hide Leads, AllWork, At, WriteAt, Breaks;
    if breaks == [] {
      events, file', s' := LastAnswer(cfg, w, file, s, i, got, attempt);
    } else {
      var n, seg := breaks[0], s.segs[i];
      var x, file1, s1 := BrokenAnswer(cfg, w, file, s, i, got, attempt, n);
      var y;
      y, file', s' := FromTop(cfg, w, file1, s1, i, got + n, attempt + 1, breaks[1..]);
      TwoRuns(cfg, At(w, file, s), x, At(w, file1, s1), y, At(w, file', s'));
      forall j ensures Breaks(x + y, j) == if j == i then |breaks| else 0 { BreaksAdd(x, y, j); }
      events := x + y;
      WriteTwice(file, seg.start + got, Rest(cfg, seg, got)[..n], Rest(cfg, seg, got + n));
      assert Rest(cfg, seg, got)[..n] + Rest(cfg, seg, got + n) == Rest(cfg, seg, got);
      assert s'.tasks == s.tasks[i := Finished(None)] && s'.progress == s.progress[i := seg.Size()];
    }
  }

  /** One waiting segment, whose stream breaks as planned and no more often than
      retries are allowed: it ends full and without an error. */
  lemma OneSegment(cfg: Config, w: World, file: seq<byte>, s: Session, i: nat, breaks: seq<nat>)
      returns (events: seq<Event>, file': seq<byte>, s': Session)
    requires Ready(cfg, s) && i < |s.tasks| && s.tasks[i].Waiting? && |cfg.remote| < TWO_64 && |file| == |cfg.remote|
    requires |breaks| <= cfg.maxAttempts && Breakable(breaks, s.segs[i].Size() - s.segs[i].downloaded)
    ensures Leads(cfg, At(w, file, s), events, At(w, file', s')) && AllWork(events)
    ensures forall j :: Breaks(events, j) == if j == i then |breaks| else 0
    ensures s' == s.(tasks := s.tasks[i := Finished(None)], progress := s.progress[i := s.segs[i].Size()],
                     downloaded := s.downloaded + (s.segs[i].Size() - s.segs[i].downloaded))
    ensures s.segs[i].end < |cfg.remote|
    ensures file' == WriteAt(file, s.segs[i].start + s.segs[i].downloaded,
                             cfg.remote[s.segs[i].start + s.segs[i].downloaded..s.segs[i].end + 1])
  {
    hide TotalCounted, Leads, AllWork, At, WriteAt, Breaks, Ready;
    CountFits(cfg, s, i);
    var d := s.segs[i].downloaded;
    var s1 := SetTask(s, i, Top(d, 0));
    OneAct(cfg, w, file, s, i, Start, file, s1);
    var x := Chain(cfg, i, [At(w, file, s), At(w, file, s1)], [Start]);
    var y;
    y, file', s' := FromTop(cfg, w, file, s1, i, d, 0, breaks);
    TwoRuns(cfg, At(w, file, s), x, At(w, file, s1), y, At(w, file', s'));
    forall j ensures Breaks(x + y, j) == if j == i then |breaks| else 0 { BreaksAdd(x, y, j); }
    events := x + y;
    assert s'.tasks == s.tasks[i := Finished(None)];
  }

  lemma {:induction false} Chain(cfg: Config, i: nat, worlds: seq<World>, acts: seq<Act>) returns (events: seq<Event>)
    requires |worlds| == |acts| + 1
    requires forall k :: 0 <= k < |acts| ==> Leads(cfg, worlds[k], [Work(On(i, acts[k]))], worlds[k + 1])
    requires forall k :: 0 <= k < |acts| ==> !acts[k].StreamFails?
    ensures Leads(cfg, worlds[0], events, worlds[|acts|]) && AllWork(events) && forall j :: Breaks(events, j) == 0
    decreases |acts|
  {
    hide Leads;
    if acts == [] {
      NoEvents(cfg, worlds[0]);
      events := [];
    } else {
      var rest := Chain(cfg, i, worlds[1..], acts[1..]);
      events := [Work(On(i, acts[0]))] + rest;
      assert events[1..] == rest;
      TwoRuns(cfg, worlds[0], [Work(On(i, acts[0]))], worlds[1], rest, worlds[|acts|]);
    }
  }

  lemma NoEvents(cfg: Config, w: World)
    ensures Leads(cfg, w, [], w)
  {
  }

  // -------------------------------------------------------- a whole session

  /** Byte `b` is claimed by a segment. */
  predicate ClaimedBy(seg: Segment, b: int) { seg.start <= b < seg.start + seg.downloaded && b <= seg.end }

  /** Claimed bytes are not written again. */
  ghost predicate Untouched(segs: seq<Segment>, file: seq<byte>, file': seq<byte>) {
    && |file'| == |file|
    && forall j, b :: 0 <= j < |segs| && ClaimedBy(segs[j], b) && b < |file| ==> file'[b] == file[b]
  }

  lemma WriteUntouched(segs: seq<Segment>, remote: seq<byte>, file: seq<byte>, i: nat)
    requires Partition(segs, |remote|) && i < |segs| && |file| == |remote| && segs[i].downloaded < segs[i].Size()
    ensures segs[i].end < |remote|
    ensures var off := segs[i].start + segs[i].downloaded;
      Untouched(segs, file, WriteAt(file, off, remote[off..segs[i].end + 1]))
  {
    TilesAt(segs, 0, 0, |remote|, i);
    hide WriteAt, Partition;
    var off := segs[i].start + segs[i].downloaded;
    var data := remote[off..segs[i].end + 1];
    assert |WriteAt(file, off, data)| == |file|;
    forall j, b | 0 <= j < |segs| && ClaimedBy(segs[j], b) && b < |file|
      ensures WriteAt(file, off, data)[b] == file[b]
    {
      ClaimIsKept(segs, file, i, data, j, b);
    }
  }

  lemma ClaimIsKept(segs: seq<Segment>, file: seq<byte>, i: nat, data: seq<byte>, j: nat, b: nat)
    requires Partition(segs, |file|) && i < |segs| && j < |segs| && ClaimedBy(segs[j], b) && b < |file|
    requires segs[i].start + segs[i].downloaded + |data| == segs[i].end + 1
    ensures var file' := WriteAt(file, segs[i].start + segs[i].downloaded, data); b < |file'| && file'[b] == file[b]
  {
    hide WriteAt, Partition;
    ClaimedElsewhere(segs, |file|, i, j, b);
    WriteElsewhere(file, segs[i].start + segs[i].downloaded, data, b);
  }

  lemma WriteElsewhere(file: seq<byte>, off: nat, data: seq<byte>, b: nat)
    requires b < |file| && !(off <= b < off + |data|)
    ensures b < |WriteAt(file, off, data)| && WriteAt(file, off, data)[b] == file[b]
  {
  }

  /** What one segment claims another has not still to fetch. */
  lemma ClaimedElsewhere(segs: seq<Segment>, total: nat, i: nat, j: nat, b: nat)
    requires Partition(segs, total) && i < |segs| && j < |segs| && ClaimedBy(segs[j], b) && b < total
    ensures !(segs[i].start + segs[i].downloaded <= b <= segs[i].end)
  {
    var k := TilesCover(segs, 0, 0, total, b);
    assert j == k;
  }

  lemma SegmentKeepsReady(cfg: Config, s: Session, i: nat)
    requires Ready(cfg, s) && i < |s.tasks| && s.tasks[i].Waiting?
    ensures Ready(cfg, s.(tasks := s.tasks[i := Finished(None)], progress := s.progress[i := s.segs[i].Size()],
                          downloaded := s.downloaded + (s.segs[i].Size() - s.segs[i].downloaded)))
  {
    hide TotalCounted;
    CountFits(cfg, s, i);
  }

  /** A plan of breaks for the segments that wait, within the retries allowed. */
  ghost predicate Plan(cfg: Config, s: Session, breaks: seq<seq<nat>>) {
    && Shaped(s) && |breaks| == |s.tasks|
    && forall i :: 0 <= i < |s.tasks| && s.tasks[i].Waiting? ==> Planned(cfg, s.segs[i], breaks[i])
  }

  predicate Planned(cfg: Config, seg: Segment, breaks: seq<nat>) {
    |breaks| <= cfg.maxAttempts && seg.downloaded <= seg.Size() && Breakable(breaks, seg.Size() - seg.downloaded)
  }

  /** All the segments from `k` on, one after another. */
  lemma {:induction false} AllSegments(cfg: Config, w: World, file: seq<byte>, s: Session, k: nat, breaks: seq<seq<nat>>)
      returns (events: seq<Event>, file': seq<byte>, s': Session)
    requires Ready(cfg, s) && |cfg.remote| < TWO_64 && |file| == |cfg.remote| && k <= |s.tasks|
    requires forall j :: 0 <= j < k ==> !s.tasks[j].Waiting?
    requires Plan(cfg, s, breaks)
    ensures Leads(cfg, At(w, file, s), events, At(w, file', s')) && AllWork(events)
    ensures forall j :: 0 <= j < |s.tasks| ==> Breaks(events, j) == if s.tasks[j].Waiting? then |breaks[j]| else 0
    ensures Ready(cfg, s') && s'.segs == s.segs && forall j :: 0 <= j < |s'.tasks| ==> !s'.tasks[j].Waiting?
    ensures Untouched(s.segs, file, file')
    decreases |s.tasks| - k
  {
    hide Leads, At, WriteAt, TotalCounted, AllWork, Breakable;
    if k == |s.tasks| {
      NoEvents(cfg, At(w, file, s));
      assert AllWork([]) by { NoWork(); }
      return [], file, s;
    } else if !s.tasks[k].Waiting? {
      events, file', s' := AllSegments(cfg, w, file, s, k + 1, breaks);
    } else {
      hide Breaks;
      var first, file1, s1 := OneSegment(cfg, w, file, s, k, breaks[k]);
      SegmentKeepsReady(cfg, s, k);
      WriteUntouched(s.segs, cfg.remote, file, k);
      var rest;
      rest, file', s' := AllSegments(cfg, w, file1, s1, k + 1, breaks);
      events := first + rest;
      TwoRuns(cfg, At(w, file, s), first, At(w, file1, s1), rest, At(w, file', s'));
      forall j | 0 <= j < |s.tasks| ensures Breaks(events, j) == if s.tasks[j].Waiting? then |breaks[j]| else 0 {
        BreaksAdd(first, rest, j);
      }
    }
  }

  lemma NoWork()
    ensures AllWork([])
  {
  }

  lemma OpenedIsReady(cfg: Config, segs: seq<Segment>)
    requires Sound(segs, |cfg.remote|)
    ensures Ready(cfg, Opened(segs))
  {
    hide TotalCounted;
    SpawnedCount(segs);
  }

  lemma ReadyJoins(cfg: Config, s: Session)
    requires Ready(cfg, s) && forall j :: 0 <= j < |s.tasks| ==> !s.tasks[j].Waiting?
    ensures AllDone(s) && Join(cfg, s) == Complete
  {
    hide TotalCounted;
    FullAddsUp(s.segs, s.tasks, s.progress, |cfg.remote|);
  }

  /** The streams of the waiting segments broke as often as planned, no others. */
  ghost predicate BrokeAsPlanned(segs: seq<Segment>, breaks: seq<seq<nat>>, events: seq<Event>) {
    |breaks| == |segs|
    && forall j :: 0 <= j < |segs| ==> Breaks(events, j) == if segs[j].state == Completed then 0 else |breaks[j]|
  }

  /** A session left to an honest server and not killed puts a file in place,
      keeping the bytes it was told are there, however its streams break within
      the retries allowed. */
  lemma SessionCompletes(cfg: Config, w: World, launch: Event, breaks: seq<seq<nat>>) returns (events: seq<Event>, w': World)
    requires |cfg.remote| < TWO_64 && launch.Launch? && Next(cfg, w, launch).Some?
    requires Sound(Chosen(w, launch.choice, launch.reloaded, launch.initial), |cfg.remote|)
    requires Plan(cfg, Opened(Chosen(w, launch.choice, launch.reloaded, launch.initial)), breaks)
    ensures Leads(cfg, w, events, w') && OneSession(launch, events)
    ensures BrokeAsPlanned(Chosen(w, launch.choice, launch.reloaded, launch.initial), breaks, events)
    ensures w'.final.Some?
    ensures Untouched(Chosen(w, launch.choice, launch.reloaded, launch.initial), OpenedFile(cfg, w), w'.final.value)
  {
    hide Leads, Ready, Untouched, Sound, SetLen, Join, AllDone, AllWork, IsInitial, OneSession;
    var w1 := Next(cfg, w, launch).value;
    var file, s := w1.part.value, w1.run.value;
    OpenedIsReady(cfg, s.segs);
    assert w1 == At(w1, file, s);
    var work, file', s' := AllSegments(cfg, w1, file, s, 0, breaks);
    ReadyJoins(cfg, s');
    var w2 := At(w1, file', s');
    w' := Next(cfg, w2, Finish).value;
    LeadsOne(cfg, w, launch, w1);
    LeadsOne(cfg, w2, Finish, w');
    LeadsAppend(cfg, w1, work, w2, [Finish], w');
    LeadsAppend(cfg, w, [launch], w1, work + [Finish], w');
    events := [launch] + (work + [Finish]);
    WorkIsOneSession(launch, work);
    forall j ensures Breaks(events, j) == Breaks(work, j) { BreaksOfSession(launch, work, j); }
  }

  lemma BreaksOfSession(launch: Event, work: seq<Event>, j: nat)
    requires launch.Launch?
    ensures Breaks([launch] + (work + [Finish]), j) == Breaks(work, j)
  {
    BreaksAdd([launch], work + [Finish], j);
    BreaksAdd(work, [Finish], j);
    assert [launch][1..] == [] && [Finish][1..] == [];
  }

  /** One launch, and nothing launched after it. */
  predicate OneSession(launch: Event, events: seq<Event>) {
    events != [] && events[0] == launch && NoLaunch(events[1..])
  }

  predicate NoLaunch(events: seq<Event>) { forall k :: 0 <= k < |events| ==> !events[k].Launch? }

  lemma WorkIsOneSession(launch: Event, work: seq<Event>)
    requires AllWork(work)
    ensures OneSession(launch, [launch] + (work + [Finish]))
  {
    assert ([launch] + (work + [Finish]))[1..] == work + [Finish];
  }

  lemma {:induction false} NoLaunchIsTruthful(cfg: Config, w: World, events: seq<Event>)
    requires NoLaunch(events)
    ensures AllTruthful(cfg, w, events)
    decreases |events|
  {
    hide Next;
    if events != [] && Next(cfg, w, events[0]).Some? {
      NoLaunchIsTruthful(cfg, Next(cfg, w, events[0]).value, events[1..]);
    }
  }

  lemma OneSessionIsTruthful(cfg: Config, w: World, launch: Event, events: seq<Event>)
    requires OneSession(launch, events) && Truthful(cfg, w, launch)
    ensures AllTruthful(cfg, w, events)
  {
    hide Next, Truthful;
    if Next(cfg, w, launch).Some? { NoLaunchIsTruthful(cfg, Next(cfg, w, launch).value, events[1..]); }
  }

  /** From any world that such sessions can reach, with none running, a session
      started afresh or from any snapshot of the present partial file can end
      with the remote file in place, wherever the streams of its segments break, if
      no segment's breaks more often than retries are allowed. */
  lemma CanAlwaysComplete(cfg: Config, w: World, choice: Option<seq<Segment>>, reloaded: bool, initial: seq<Segment>,
                          breaks: seq<seq<nat>>)
      returns (events: seq<Event>, w': World)
    requires WorldOk(cfg, w) && w.run.None? && |cfg.remote| < TWO_64 && IsInitial(initial, |cfg.remote|)
    requires choice.Some? ==> choice.value in w.current
    requires Plan(cfg, Opened(Chosen(w, choice, reloaded, initial)), breaks)
    ensures Leads(cfg, w, events, w') && w'.final == Some(cfg.remote)
    ensures BrokeAsPlanned(Chosen(w, choice, reloaded, initial), breaks, events)
  {
    var launch := Launch(choice, reloaded, initial);
    InitialIsSound(initial, cfg.remote, []);
    if choice.Some? { ReloadIsSound(choice.value, |cfg.remote|); }
    CarefulIsTruthful(cfg, w, launch);
    hide Leads, Sound, SetLen, IsInitial, Untouched, AllTruthful, OneSession, Truthful, Plan, BrokeAsPlanned;
    events, w' := SessionCompletes(cfg, w, launch, breaks);
    OneSessionIsTruthful(cfg, w, launch, events);
    RunKeeps(cfg, w, events, w');
  }

  // ------------------------------------------------------ restoring, exactly

  /** A session that restores `c`, with no other launched after it, ends in `w'`. */
  ghost predicate Restores(cfg: Config, w: World, c: seq<Segment>, reloaded: bool, initial: seq<Segment>,
                           events: seq<Event>, w': World) {
    Leads(cfg, w, events, w') && OneSession(Launch(Some(c), reloaded, initial), events)
  }

  /** What is put in place is not the remote file. */
  predicate Wrong(cfg: Config, w: World) { w.final.Some? && w.final.value != cfg.remote }

  ghost predicate CanGoWrong(cfg: Config, w: World, c: seq<Segment>, reloaded: bool, initial: seq<Segment>) {
    exists events, w' :: Restores(cfg, w, c, reloaded, initial, events, w') && Wrong(cfg, w')
  }

  /** A restored snapshot that is true of the file can only end well. */
  lemma TrueSnapshotIsSafe(cfg: Config, w: World, c: seq<Segment>, reloaded: bool, initial: seq<Segment>,
                           events: seq<Event>, w': World)
    requires WorldOk(cfg, w) && w.part.Some?
    requires Claims(cfg.remote, OpenedFile(cfg, w), c) && Restores(cfg, w, c, reloaded, initial, events, w')
    ensures !Wrong(cfg, w')
  {
    OneSessionIsTruthful(cfg, w, Launch(Some(c), reloaded, initial), events);
    hide Leads, AllTruthful, OneSession, Claims;
    RunKeeps(cfg, w, events, w');
  }

  lemma NoBreaks(cfg: Config, segs: seq<Segment>) returns (breaks: seq<seq<nat>>)
    requires Sound(segs, |cfg.remote|)
    ensures Plan(cfg, Opened(segs), breaks)
  {
    OpenedIsReady(cfg, segs);
    breaks := seq(|segs|, _ => []);
  }

  lemma FalseClaim(remote: seq<byte>, file: seq<byte>, c: seq<Segment>) returns (k: nat, b: nat)
    requires Sound(c, |remote|) && |file| == |remote| && !Claims(remote, file, c)
    ensures k < |c| && ClaimedBy(c[k], b) && b < |remote| && file[b] != remote[b]
  {
    k :| 0 <= k < |c| && !Equals(file, remote, c[k].start, c[k].start + c[k].downloaded);
    b :| c[k].start <= b < c[k].start + c[k].downloaded && !Same(file, remote, b);
    TilesAt(c, 0, 0, |remote|, k);
  }

  /** A restored snapshot that is false of the file can end badly, with an honest
      server and no interruption. */
  lemma FalseSnapshotGoesWrong(cfg: Config, w: World, c: seq<Segment>, reloaded: bool, initial: seq<Segment>)
      returns (events: seq<Event>, w': World)
    requires w.run.None? && w.part.Some? && c in w.saved && Sound(c, |cfg.remote|)
    requires |cfg.remote| < TWO_64 && IsInitial(initial, |cfg.remote|)
    requires !Claims(cfg.remote, OpenedFile(cfg, w), c)
    ensures Restores(cfg, w, c, reloaded, initial, events, w') && Wrong(cfg, w')
  {
    hide Leads, Sound, IsInitial, Claims, OneSession, SetLen;
    var file := OpenedFile(cfg, w);
    var k, b := FalseClaim(cfg.remote, file, c);
    ReloadIsSound(c, |cfg.remote|);
    var launch := Launch(Some(c), reloaded, initial);
    var breaks := NoBreaks(cfg, Chosen(w, Some(c), reloaded, initial));
    events, w' := SessionCompletes(cfg, w, launch, breaks);
    assert ClaimedBy(Chosen(w, Some(c), reloaded, initial)[k], b);
  }

  /** Restoring a stored snapshot over an existing partial file can put a wrong
      file in place exactly when the snapshot claims a byte that is not in the
      file as it is opened. */
  lemma RestoreIsSafeExactly(cfg: Config, w: World, c: seq<Segment>, reloaded: bool, initial: seq<Segment>)
    requires WorldOk(cfg, w) && w.run.None? && w.part.Some? && c in w.saved
    requires |cfg.remote| < TWO_64 && IsInitial(initial, |cfg.remote|)
    ensures CanGoWrong(cfg, w, c, reloaded, initial) <==> !Claims(cfg.remote, OpenedFile(cfg, w), c)
  {
    hide Restores, Wrong, Claims, IsInitial, Sound;
    if Claims(cfg.remote, OpenedFile(cfg, w), c) {
      forall events, w' | Restores(cfg, w, c, reloaded, initial, events, w') ensures !Wrong(cfg, w') {
        TrueSnapshotIsSafe(cfg, w, c, reloaded, initial, events, w');
      }
    } else {
      var events, w' := FalseSnapshotGoesWrong(cfg, w, c, reloaded, initial);
    }
  }

  /** What a caller can check: a snapshot taken of the present partial file is
      safe to restore. */
  lemma CurrentSnapshotIsSafe(cfg: Config, w: World, c: seq<Segment>, reloaded: bool, initial: seq<Segment>)
    requires WorldOk(cfg, w) && w.run.None? && c in w.current
    requires |cfg.remote| < TWO_64 && IsInitial(initial, |cfg.remote|)
    ensures !CanGoWrong(cfg, w, c, reloaded, initial)
  {
    hide CanGoWrong, Claims, Sound, Running, IsInitial;
    CarefulIsTruthful(cfg, w, Launch(Some(c), reloaded, initial));
    RestoreIsSafeExactly(cfg, w, c, reloaded, initial);
  }

  /** Every byte a snapshot claims is zero in the remote file. */
  ghost predicate ClaimsZeros(remote: seq<byte>, c: seq<Segment>) {
    forall k, b :: 0 <= k < |c| && ClaimedBy(c[k], b) && 0 <= b < |remote| ==> remote[b] == 0
  }

  lemma ZerosClaims(remote: seq<byte>, c: seq<Segment>)
    requires Sound(c, |remote|)
    ensures Claims(remote, Zeros(|remote|), c) <==> ClaimsZeros(remote, c)
  {
    var file := Zeros(|remote|);
    if Claims(remote, file, c) {
      forall k, b | 0 <= k < |c| && ClaimedBy(c[k], b) && 0 <= b < |remote| ensures remote[b] == 0 {
        assert Equals(file, remote, c[k].start, c[k].start + c[k].downloaded);
        assert Same(file, remote, b);
      }
    } else {
      var k, b := FalseClaim(remote, file, c);
    }
  }

  /** A partial file just created holds only zeros. A snapshot can be restored
      over it exactly if the remote file is zero wherever the snapshot claims. */
  lemma FreshPartIsSafeExactly(cfg: Config, w: World, c: seq<Segment>, reloaded: bool, initial: seq<Segment>)
    requires WorldOk(cfg, w) && w.run.None? && w.part == Some(Zeros(|cfg.remote|)) && c in w.saved
    requires |cfg.remote| < TWO_64 && IsInitial(initial, |cfg.remote|)
    ensures CanGoWrong(cfg, w, c, reloaded, initial) <==> !ClaimsZeros(cfg.remote, c)
  {
    hide CanGoWrong, Claims, ClaimsZeros, Sound, IsInitial;
    RestoreIsSafeExactly(cfg, w, c, reloaded, initial);
    ZerosClaims(cfg.remote, c);
    assert OpenedFile(cfg, w) == Zeros(|cfg.remote|);
  }

  /** The program's own check, that some partial file exists, is not enough.
      The partial file is lost, and stored snapshots are not, when a finished file
      is renamed and when a segmented download falls back to a single stream. A
      session killed right after creating a new partial file leaves a world in
      which restoring such a snapshot can put a wrong file in place exactly if the
      snapshot claims a non-zero byte. */
  lemma StaleSnapshotExactly(cfg: Config, w: World, c: seq<Segment>, initial: seq<Segment>) returns (w2: World)
    requires WorldOk(cfg, w) && w.part.None? && c in w.saved && |cfg.remote| < TWO_64
    requires IsInitial(initial, |cfg.remote|)
    ensures Leads(cfg, w, [Launch(None, false, initial), Kill], w2)
    ensures CanGoWrong(cfg, w2, c, true, initial) <==> !ClaimsZeros(cfg.remote, c)
  {
    hide Leads, IsInitial, CanGoWrong, ClaimsZeros;
    var launch := Launch(None, false, initial);
    var w1 := Next(cfg, w, launch).value;
    w2 := Next(cfg, w1, Kill).value;
    EmptyIsZeros(|cfg.remote|);
    LeadsOne(cfg, w, launch, w1);
    LeadsOne(cfg, w1, Kill, w2);
    LeadsAppend(cfg, w, [launch], w1, [Kill], w2);
    assert [launch] + [Kill] == [launch, Kill];
    LaunchKeeps(cfg, w, launch);
    EventKeeps(cfg, w1, Kill);
    hide WorldOk;
    FreshPartIsSafeExactly(cfg, w2, c, true, initial);
  }

  lemma EmptyIsZeros(n: nat)
    ensures SetLen([], n) == Zeros(n)
  {
  }
}
