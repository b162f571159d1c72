/** Any number of sessions of one segmented download: each may be killed at any
    moment, snapshots may be stored at any moment, and a later session may start
    from any of them. */
module SegmentSessions {
  import opened Prelude
  import opened Segments
  import opened Resume
  import opened SegmentTasks

  /** The disk, every snapshot ever stored, those stored since the partial file
      was last created, and the running session. */
  datatype World = World(
    part: Option<seq<byte>>, final: Option<seq<byte>>,
    saved: set<seq<Segment>>, current: set<seq<Segment>>, run: Option<Session>)

  datatype Event =
    | Launch(choice: Option<seq<Segment>>, reloaded: bool, initial: seq<Segment>)
    | Work(step: Step)
    | Persist
    | Kill
    | Finish
    | Lose(part: Option<seq<byte>>)

  /** What `InitSegments` builds. */
  ghost predicate IsInitial(segs: seq<Segment>, total: nat) {
    && Partition(segs, total) && total > 0
    && forall k :: 0 <= k < |segs| ==> segs[k].downloaded == 0 && segs[k].state == Pending
  }

  function Spawn(segs: seq<Segment>): (r: seq<Task>)
    ensures |r| == |segs|
  {
    seq(|segs|, (k: nat) requires k < |segs| => if segs[k].state == Completed then Skipped else Waiting)
  }

  /** Saved segments are restored only while the partial file exists. */
  function Chosen(w: World, choice: Option<seq<Segment>>, reloaded: bool, initial: seq<Segment>): seq<Segment> {
    if choice.Some? && w.part.Some? then (if reloaded then ReloadAll(choice.value) else choice.value) else initial
  }

  /** The partial file as a session opens it. */
  function OpenedFile(cfg: Config, w: World): seq<byte> {
    SetLen(if w.part.Some? then w.part.value else [], |cfg.remote|)
  }

  function Opened(segs: seq<Segment>): Session {
    Session(segs, Spawn(segs), Progress(segs), Downloaded(segs), false, false, false)
  }

  /** The world after an event; `None` when it cannot happen. */
  ghost function Next(cfg: Config, w: World, e: Event): Option<World> {
    match e
    case Launch(choice, reloaded, initial) =>
      if w.run.Some? || (choice.Some? && choice.value !in w.saved) || !IsInitial(initial, |cfg.remote|) then None
      else
        var segs := Chosen(w, choice, reloaded, initial);
        Some(w.(part := Some(OpenedFile(cfg, w)), current := if w.part.Some? then w.current else {}, run := Some(Opened(segs))))
    case Work(step) =>
      if w.run.None? || w.part.None? || !Shaped(w.run.value) || (step.On? && step.act.Ask? && !Honest(cfg, step.act.reply)) then None
      else
        var r := Apply(cfg, w.part.value, w.run.value, step);
        if r.None? then None else Some(w.(part := Some(r.value.0), run := Some(r.value.1)))
    case Persist =>
      if w.run.None? then None
      else
        var c := Snapshot(w.run.value.segs, w.run.value.progress);
        Some(w.(saved := w.saved + {c}, current := w.current + {c}))
    case Kill => if w.run.None? then None else Some(w.(run := None))
    case Finish =>
      if w.run.None? || !AllDone(w.run.value) then None
      else
        var outcome := Join(cfg, w.run.value);
        if outcome == Complete then Some(w.(part := None, final := w.part, current := {}, run := None))
        else if outcome == RestartWithoutRanges && !w.run.value.cancelled then
          Some(w.(part := None, current := {}, run := None))
        else Some(w.(run := None))
    case Lose(part) => if w.run.Some? then None else Some(w.(part := part, current := {}))
  }

  // ---------------------------------------------------------- the invariant

  /** Every byte a snapshot claims is in the file. */
  ghost predicate Claims(remote: seq<byte>, file: seq<byte>, c: seq<Segment>) {
    forall k :: 0 <= k < |c| ==> Equals(file, remote, c[k].start, c[k].start + c[k].downloaded)
  }

  /** A snapshot still describes a split of the file. */
  ghost predicate Sound(c: seq<Segment>, total: nat) { Partition(c, total) && Bounded(c) && Marked(c) }

  ghost predicate WorldOk(cfg: Config, w: World) {
    && (w.final.Some? ==> w.final.value == cfg.remote)
    && (forall c :: c in w.saved ==> Sound(c, |cfg.remote|))
    && w.current <= w.saved
    && (w.part.None? ==> w.current == {} && w.run.None?)
    && (forall c :: c in w.current ==> w.part.Some? && Claims(cfg.remote, w.part.value, c))
    && (w.run.Some? ==> |w.part.value| == |cfg.remote| && Running(cfg, w.part.value, w.run.value))
  }

  /** A session restores only what is true of the partial file it opens. */
  ghost predicate Truthful(cfg: Config, w: World, e: Event) {
    e.Launch? && e.choice.Some? && w.part.Some? ==> Claims(cfg.remote, OpenedFile(cfg, w), e.choice.value)
  }

  /** A session restores only a snapshot of the partial file it opens: what the
      program itself could check, and does not. */
  predicate Careful(w: World, e: Event) {
    e.Launch? && e.choice.Some? && w.part.Some? ==> e.choice.value in w.current
  }

  lemma ClaimsStay(remote: seq<byte>, file: seq<byte>, file': seq<byte>, c: seq<Segment>)
    requires Claims(remote, file, c) && Improves(file, file', remote)
    ensures Claims(remote, file', c)
  {
    hide Equals, Improves;
    forall k | 0 <= k < |c| ensures Equals(file', remote, c[k].start, c[k].start + c[k].downloaded) {
      EqualsStays(remote, file, file', c[k].start, c[k].start + c[k].downloaded);
    }
  }

  lemma {:induction false} SpawnedCount(segs: seq<Segment>)
    ensures TotalCounted(Spawn(segs), Progress(segs)) == Downloaded(segs)
  {
    if segs != [] {
      var n := |segs| - 1;
      SpawnedCount(segs[..n]);
      assert Spawn(segs)[..n] == Spawn(segs[..n]) && Progress(segs)[..n] == Progress(segs[..n]);
    }
  }

  /** Opening a session on segments whose claims hold. */
  lemma OpenedIsRunning(cfg: Config, file: seq<byte>, segs: seq<Segment>)
    requires Sound(segs, |cfg.remote|) && Claims(cfg.remote, file, segs)
    ensures Running(cfg, file, Opened(segs))
  {
    hide Equals, TotalCounted;
    SpawnedCount(segs);
  }

  lemma ReloadIsSound(c: seq<Segment>, total: nat)
    requires Sound(c, total)
    ensures Sound(ReloadAll(c), total)
    ensures forall remote, file :: Claims(remote, file, c) ==> Claims(remote, file, ReloadAll(c))
  {
    hide Equals;
    SameTiles(c, ReloadAll(c), 0, 0, total);
  }

  lemma InitialIsSound(segs: seq<Segment>, remote: seq<byte>, file: seq<byte>)
    requires IsInitial(segs, |remote|)
    ensures Sound(segs, |remote|) && Claims(remote, file, segs)
  {
    forall k | 0 <= k < |segs| ensures 1 <= segs[k].Size() { TilesAt(segs, 0, 0, |remote|, k); }
  }

  lemma SetLenImproves(remote: seq<byte>, file: seq<byte>)
    ensures Improves(file, SetLen(file, |remote|), remote)
  {
  }

  lemma CarefulIsTruthful(cfg: Config, w: World, e: Event)
    requires WorldOk(cfg, w) && Careful(w, e)
    ensures Truthful(cfg, w, e)
  {
    hide Running, Claims, Sound, Improves, SetLen;
    if e.Launch? && e.choice.Some? && w.part.Some? {
      SetLenImproves(cfg.remote, w.part.value);
      ClaimsStay(cfg.remote, w.part.value, OpenedFile(cfg, w), e.choice.value);
    }
  }

  lemma LaunchKeeps(cfg: Config, w: World, e: Event)
    requires WorldOk(cfg, w) && e.Launch? && Truthful(cfg, w, e) && Next(cfg, w, e).Some?
    ensures WorldOk(cfg, Next(cfg, w, e).value)
  {
    hide Running, Claims, Sound, Improves, IsInitial, SetLen;
    var w' := Next(cfg, w, e).value;
    var file := if w.part.Some? then w.part.value else [];
    var file' := w'.part.value;
    SetLenImproves(cfg.remote, file);
    forall c | c in w'.current ensures Claims(cfg.remote, file', c) { ClaimsStay(cfg.remote, file, file', c); }
    InitialIsSound(e.initial, cfg.remote, file');
    if e.choice.Some? && w.part.Some? { ReloadIsSound(e.choice.value, |cfg.remote|); }
    OpenedIsRunning(cfg, file', Chosen(w, e.choice, e.reloaded, e.initial));
  }

  /** A step only adds right bytes, and keeps the file's length. */
  lemma StepImproves(cfg: Config, file: seq<byte>, s: Session, step: Step)
    requires Running(cfg, file, s) && |file| == |cfg.remote| && Apply(cfg, file, s, step).Some?
    ensures Improves(file, Apply(cfg, file, s, step).value.0, cfg.remote)
    ensures |Apply(cfg, file, s, step).value.0| == |file|
  {
    hide WriteAt, TotalCounted, Improves, Equals, OnReply;
    Unchanged(file, cfg.remote);
    if step.On? && (step.act.Write? || step.act.WriteFails?) {
      TaskAt(cfg, file, s, step.i);
      var t := s.tasks[step.i];
      BytesWritten(cfg.remote, file, s.segs[step.i], t.got, t.body, step.act.n);
    }
  }

  lemma WorkKeeps(cfg: Config, w: World, e: Event)
    requires WorldOk(cfg, w) && e.Work? && Next(cfg, w, e).Some?
    ensures WorldOk(cfg, Next(cfg, w, e).value)
  {
    hide Running, Claims, Sound, Improves, Apply, Honest;
    var file, file' := w.part.value, Next(cfg, w, e).value.part.value;
    StepKeeps(cfg, file, w.run.value, e.step);
    StepImproves(cfg, file, w.run.value, e.step);
    forall c | c in w.current ensures Claims(cfg.remote, file', c) { ClaimsStay(cfg.remote, file, file', c); }
  }

  /** What is stored claims only what is in the file, whenever it is stored. */
  lemma SnapshotIsSound(cfg: Config, file: seq<byte>, s: Session)
    requires Running(cfg, file, s)
    ensures Sound(Snapshot(s.segs, s.progress), |cfg.remote|)
    ensures Claims(cfg.remote, file, Snapshot(s.segs, s.progress))
  {
    hide Equals, TotalCounted;
    ReloadKeeps(s.segs, s.progress, |cfg.remote|);
    forall k | 0 <= k < |s.segs|
      ensures Equals(file, cfg.remote, s.segs[k].start, s.segs[k].start + s.progress[k])
    {
      TaskAt(cfg, file, s, k);
    }
  }

  lemma EventKeeps(cfg: Config, w: World, e: Event)
    requires WorldOk(cfg, w) && Truthful(cfg, w, e) && Next(cfg, w, e).Some?
    ensures WorldOk(cfg, Next(cfg, w, e).value)
  {
    hide Running, Claims, Sound, Join;
    match e {
      case Launch(_, _, _) => LaunchKeeps(cfg, w, e);
      case Work(_) => WorkKeeps(cfg, w, e);
      case Persist => SnapshotIsSound(cfg, w.part.value, w.run.value);
      case Kill =>
      case Finish => JoinIsRight(cfg, w.part.value, w.run.value);
      case Lose(_) =>
    }
  }

  /** A run of events from `w` that ends in `w'`. */
  ghost predicate Leads(cfg: Config, w: World, events: seq<Event>, w': World)
    decreases |events|
  {
    if events == [] then w' == w
    else Next(cfg, w, events[0]).Some? && Leads(cfg, Next(cfg, w, events[0]).value, events[1..], w')
  }

  ghost predicate AllTruthful(cfg: Config, w: World, events: seq<Event>)
    decreases |events|
  {
    events != [] && Next(cfg, w, events[0]).Some? ==>
      Truthful(cfg, w, events[0]) && AllTruthful(cfg, Next(cfg, w, events[0]).value, events[1..])
  }

  ghost predicate AllCareful(cfg: Config, w: World, events: seq<Event>)
    decreases |events|
  {
    events != [] && Next(cfg, w, events[0]).Some? ==>
      Careful(w, events[0]) && AllCareful(cfg, Next(cfg, w, events[0]).value, events[1..])
  }

  lemma {:induction false} RunKeeps(cfg: Config, w: World, events: seq<Event>, w': World)
    requires WorldOk(cfg, w) && Leads(cfg, w, events, w') && AllTruthful(cfg, w, events)
    ensures WorldOk(cfg, w')
    decreases |events|
  {
    hide WorldOk, Next, Truthful;
    if events != [] {
      EventKeeps(cfg, w, events[0]);
      RunKeeps(cfg, Next(cfg, w, events[0]).value, events[1..], w');
    }
  }

  lemma {:induction false} CarefulRunIsTruthful(cfg: Config, w: World, events: seq<Event>)
    requires WorldOk(cfg, w) && AllCareful(cfg, w, events)
    ensures AllTruthful(cfg, w, events)
    decreases |events|
  {
    hide WorldOk, Next, Truthful, Careful;
    if events != [] && Next(cfg, w, events[0]).Some? {
      CarefulIsTruthful(cfg, w, events[0]);
      EventKeeps(cfg, w, events[0]);
      CarefulRunIsTruthful(cfg, Next(cfg, w, events[0]).value, events[1..]);
    }
  }

  /** Before anything has been stored. */
  function Start(part: Option<seq<byte>>): World { World(part, None, {}, {}, None) }

  lemma StartIsOk(cfg: Config, part: Option<seq<byte>>)
    ensures WorldOk(cfg, Start(part))
  {
  }

  /** Over any number of sessions, interleavings, kills and restarts, from
      whatever partial file was there, as long as each restored snapshot is true
      of the file it is restored over: every stored snapshot splits the file, the
      snapshots of the present partial file claim only right bytes, and a file
      that is put in place is the remote file. */
  lemma SessionsAreSafe(cfg: Config, part: Option<seq<byte>>, events: seq<Event>, w': World)
    requires Leads(cfg, Start(part), events, w') && AllTruthful(cfg, Start(part), events)
    ensures w'.final.Some? ==> w'.final.value == cfg.remote
    ensures forall c :: c in w'.saved ==> Partition(c, |cfg.remote|) && Bounded(c)
    ensures forall c :: c in w'.current ==> w'.part.Some? && Claims(cfg.remote, w'.part.value, c)
  {
    StartIsOk(cfg, part);
    RunKeeps(cfg, Start(part), events, w');
  }

  /** The same when each restored snapshot was taken of the partial file present,
      which could be checked before the restart. */
  lemma CarefulSessionsAreSafe(cfg: Config, part: Option<seq<byte>>, events: seq<Event>, w': World)
    requires Leads(cfg, Start(part), events, w') && AllCareful(cfg, Start(part), events)
    ensures w'.final.Some? ==> w'.final.value == cfg.remote
  {
    StartIsOk(cfg, part);
    CarefulRunIsTruthful(cfg, Start(part), events);
    SessionsAreSafe(cfg, part, events, w');
  }
}
