/** A segmented download of a file that changes on the server: what its
    requests, and the validators stored with its segments, protect. */
module SegmentVersions {
  import opened Prelude
  import opened Segments
  import opened Resume
  import opened SegmentTasks
  import opened SegmentSessions
  import opened SegmentCompletion
  import StreamSession

  type Version = StreamSession.Version
  type History = StreamSession.History

  function Tags(v: Version): Validators { StreamSession.ValidatorsOf(v) }

  /** An answer of a server whose file is `v`: a partial one only if the
      condition of the request, if any, names `v`. */
  ghost predicate AnswerFrom(v: Version, ifRange: Option<Header>, reply: Reply) {
    && Honest(Config(v.content, 0), reply)
    && (reply.Reply? && reply.status == 206 && ifRange.Some? ==> ifRange.value == v.etag)
  }

  /** One step of a session that has probed version `h`, while the server goes
      on to later versions: the primary URL is asked for `h` by its tag, mirrors
      are taken to serve `h`. */
  ghost predicate Served(vs: History, h: nat, step: Step)
    requires h < |vs|
  {
    step.On? && step.act.Ask? ==>
      if step.act.primary then exists g :: h <= g < |vs| && AnswerFrom(vs[g], Some(vs[h].etag), step.act.reply)
      else AnswerFrom(vs[h], None, step.act.reply)
  }

  /** Steps served by a changing file are steps of the fixed file probed. */
  lemma ServedIsHonest(vs: History, h: nat, step: Step, maxAttempts: nat)
    requires StreamSession.DistinctTags(vs) && h < |vs| && Served(vs, h, step) && step.On? && step.act.Ask?
    ensures Honest(Config(vs[h].content, maxAttempts), step.act.reply)
  {
    hide ParseContentRange;
    if step.act.primary && step.act.reply.Reply? && step.act.reply.status == 206 {
      var g :| h <= g < |vs| && AnswerFrom(vs[g], Some(vs[h].etag), step.act.reply);
      assert g == h;
    }
  }

  /** One session, from a file in any state, in steps served by a changing file. */
  ghost predicate Steps(vs: History, h: nat, file: seq<byte>, s: Session, steps: seq<Step>, file': seq<byte>, s': Session,
                        maxAttempts: nat)
    requires h < |vs|
    decreases |steps|
  {
    if steps == [] then file' == file && s' == s
    else
      && Shaped(s) && Served(vs, h, steps[0])
      && var r := Apply(Config(vs[h].content, maxAttempts), file, s, steps[0]);
      r.Some? && Steps(vs, h, r.value.0, r.value.1, steps[1..], file', s', maxAttempts)
  }

  lemma {:induction false} StepsKeep(vs: History, h: nat, file: seq<byte>, s: Session, steps: seq<Step>,
                                     file': seq<byte>, s': Session, maxAttempts: nat)
    requires StreamSession.DistinctTags(vs) && h < |vs| && |file| == |vs[h].content|
    requires Running(Config(vs[h].content, maxAttempts), file, s)
    requires Steps(vs, h, file, s, steps, file', s', maxAttempts)
    ensures Running(Config(vs[h].content, maxAttempts), file', s') && |file'| == |vs[h].content|
    decreases |steps|
  {
    hide Running, Apply, Served, StreamSession.DistinctTags, Honest;
    if steps != [] {
      var cfg := Config(vs[h].content, maxAttempts);
      var r := Apply(cfg, file, s, steps[0]).value;
      if steps[0].On? && steps[0].act.Ask? { ServedIsHonest(vs, h, steps[0], maxAttempts); }
      StepKeeps(cfg, file, s, steps[0]);
      StepImproves(cfg, file, s, steps[0]);
      StepsKeep(vs, h, r.0, r.1, steps[1..], file', s', maxAttempts);
    }
  }

  /** A session over a file that changes at any time: started on segments that
      claim only bytes of the version it has probed, whatever it reports complete
      is that version, whole, and nothing of another. */
  lemma SessionIsOneVersion(vs: History, h: nat, file: seq<byte>, segs: seq<Segment>, steps: seq<Step>,
                            file': seq<byte>, s': Session, maxAttempts: nat)
    requires StreamSession.DistinctTags(vs) && h < |vs| && |file| == |vs[h].content|
    requires Sound(segs, |vs[h].content|) && Claims(vs[h].content, file, segs)
    requires Steps(vs, h, file, Opened(segs), steps, file', s', maxAttempts)
    requires AllDone(s') && Join(Config(vs[h].content, maxAttempts), s') == Complete
    ensures file' == vs[h].content
  {
    hide Running, Claims, Sound, Steps, StreamSession.DistinctTags, AllDone, Join;
    var cfg := Config(vs[h].content, maxAttempts);
    OpenedIsRunning(cfg, file, segs);
    StepsKeep(vs, h, file, Opened(segs), steps, file', s', maxAttempts);
    JoinIsRight(cfg, file', s');
  }

  // ------------------------------------------------------- what is stored

  /** Validators and segments are stored by separate writes. */
  datatype Store = Store(validators: Validators, segments: Option<seq<Segment>>)

  /** Stored segments are discarded unless the stored validators match. */
  function Kept(store: Store, probed: Validators): Option<seq<Segment>> {
    if ValidatorsMatch(store.validators, probed) then store.segments else None
  }

  /** Stored segments are kept exactly if neither the stored entity tag nor the
      stored date, where there is one, is missing now or another. */
  lemma KeptExactly(store: Store, probed: Validators)
    ensures Kept(store, probed) == store.segments || Kept(store, probed).None?
    ensures store.segments.Some? ==>
      (Kept(store, probed).None? <==>
         || (store.validators.etag.Some? && probed.etag != store.validators.etag)
         || (store.validators.lastModified.Some? && probed.lastModified != store.validators.lastModified))
  {
    MatchExactly(store.validators, probed);
  }

  /** Stored together with the validators of its own version, a snapshot of the
      present partial file is discarded for every later version, and safe. */
  lemma StoredTogether(vs: History, u: nat, h: nat, w: World, c: seq<Segment>, maxAttempts: nat, initial: seq<Segment>)
    requires StreamSession.DistinctTags(vs) && u <= h < |vs| && |vs[h].content| < TWO_64
    requires WorldOk(Config(vs[u].content, maxAttempts), w) && w.run.None? && c in w.current
    requires IsInitial(initial, |vs[h].content|)
    ensures Kept(Store(Tags(vs[u]), Some(c)), Tags(vs[h])) == if h == u then Some(c) else None
    ensures h == u ==> !CanGoWrong(Config(vs[h].content, maxAttempts), w, c, true, initial)
  {
    hide CanGoWrong, WorldOk, IsInitial;
    if h == u { CurrentSnapshotIsSafe(Config(vs[u].content, maxAttempts), w, c, true, initial); }
  }

  /** The world of `w` as a session on another version finds it. */
  function Changed(w: World): World { World(w.part, None, w.saved, {}, None) }

  lemma ClaimsThrough(a: seq<byte>, b: seq<byte>, file: seq<byte>, c: seq<Segment>)
    requires |a| == |b| == |file| && Sound(c, |a|) && Claims(a, file, c)
    ensures Claims(b, file, c) <==> Claims(b, a, c)
  {
    if !Claims(b, file, c) {
      var k, i := FalseClaim(b, file, c);
      assert Equals(file, a, c[k].start, c[k].start + c[k].downloaded) && Same(file, a, i);
      assert !Same(a, b, i);
      assert !Equals(a, b, c[k].start, c[k].start + c[k].downloaded);
    }
    if !Claims(b, a, c) {
      var k, i := FalseClaim(b, a, c);
      assert Equals(file, a, c[k].start, c[k].start + c[k].downloaded) && Same(file, a, i);
      assert !Same(file, b, i);
      assert !Equals(file, b, c[k].start, c[k].start + c[k].downloaded);
    }
  }

  /** A download and what its caller keeps: validators in memory, what has been
      collected to be saved, and what is saved. */
  datatype Keeper = Keeper(
    world: World, memory: Validators, collected: Option<(Validators, seq<Segment>)>, store: Store)

  /** The steps of a session and of the caller beside it. Saving is two writes,
      each of which may fail. */
  datatype Deed = Go(step: Step) | Report | Collect | SaveStatus | SaveSegments

  /** What a deed leads to; `None` when it cannot happen. Progress is reported
      only after a chunk of this session has been written and counted. */
  ghost function After(cfg: Config, tags: Validators, k: Keeper, d: Deed): Option<Keeper> {
    match d
    case Go(step) =>
      var w := Next(cfg, k.world, Work(step));
      if w.None? then None else Some(k.(world := w.value))
    case Report =>
      if k.world.run.Some? && k.world.run.value.downloaded > 0 then Some(k.(memory := tags)) else None
    case Collect =>
      var w := Next(cfg, k.world, Persist);
      if w.None? then None
      else Some(k.(world := w.value, collected := Some((k.memory, Snapshot(k.world.run.value.segs, k.world.run.value.progress)))))
    case SaveStatus =>
      if k.collected.None? then None else Some(k.(store := k.store.(validators := k.collected.value.0)))
    case SaveSegments =>
      if k.collected.None? then None
      else Some(k.(store := k.store.(segments := Some(k.collected.value.1)), collected := None))
  }

  ghost predicate Deeds(cfg: Config, tags: Validators, k: Keeper, ds: seq<Deed>, k': Keeper)
    decreases |ds|
  {
    if ds == [] then k' == k
    else After(cfg, tags, k, ds[0]).Some? && Deeds(cfg, tags, After(cfg, tags, k, ds[0]).value, ds[1..], k')
  }

  /** A session that has found `now` where `was` had been served: the segments
      stored, a snapshot of the partial file of `was`, have been discarded and
      new ones made, and the partial file is kept. */
  ghost predicate Reopened(was: Version, now: Version, w: World, c: seq<Segment>, initial: seq<Segment>, maxAttempts: nat,
                           k: Keeper) {
    && was.etag != now.etag && |was.content| == |now.content| < TWO_64
    && WorldOk(Config(was.content, maxAttempts), w) && w.run.None? && c in w.current
    && IsInitial(initial, |now.content|)
    && Next(Config(now.content, maxAttempts), Changed(w), Launch(None, false, initial)) == Some(k.world)
    && k.memory == Tags(was) && k.collected.None? && k.store == Store(Tags(was), Some(c))
  }

  /** A process killed now leaves what is saved; the next, which finds `now`,
      restores what is kept and can put a wrong file in place. */
  ghost predicate Misleads(now: Version, initial: seq<Segment>, maxAttempts: nat, k: Keeper) {
    var c := Kept(k.store, Tags(now));
    c.Some? && CanGoWrong(Config(now.content, maxAttempts), k.world.(run := None), c.value, true, initial)
  }

  predicate TagOf(was: Version, now: Version, v: Validators) { v == Tags(was) || v == Tags(now) }

  /** What such a session keeps, from the partial file `old`. */
  ghost predicate KeeperOk(was: Version, now: Version, c: seq<Segment>, initial: seq<Segment>, maxAttempts: nat,
                           before: seq<byte>, k: Keeper) {
    && WorldOk(Config(now.content, maxAttempts), k.world) && k.world.run.Some? && k.world.part.Some?
    && c in k.world.saved && Improves(before, k.world.part.value, now.content)
    && k.world.run.value.segs == initial
    && TagOf(was, now, k.memory) && TagOf(was, now, k.store.validators)
    && (k.collected.Some? ==> TagOf(was, now, k.collected.value.0) && k.collected.value.1 in k.world.current)
    && (k.store.segments == Some(c) || (k.store.segments.Some? && k.store.segments.value in k.world.current))
    && (k.world.run.value.downloaded == 0 ==>
          k.memory == k.store.validators == Tags(was) && (k.collected.Some? ==> k.collected.value.0 == Tags(was)))
  }

  lemma ReopenedIsOk(was: Version, now: Version, w: World, c: seq<Segment>, initial: seq<Segment>, maxAttempts: nat, k: Keeper)
    requires Reopened(was, now, w, c, initial, maxAttempts, k)
    ensures w.part.Some? && Sound(c, |now.content|) && Claims(was.content, w.part.value, c)
    ensures KeeperOk(was, now, c, initial, maxAttempts, w.part.value, k)
  {
    hide IsInitial, Running, Claims, Sound, Improves, Next;
    var cfg := Config(now.content, maxAttempts);
    ChangedIsOk(Config(was.content, maxAttempts), cfg, w);
    LaunchKeeps(cfg, Changed(w), Launch(None, false, initial));
    SetLenImproves(now.content, w.part.value);
    LaunchIs(cfg, Changed(w), initial);
  }

  lemma LaunchIs(cfg: Config, w: World, initial: seq<Segment>)
    requires Next(cfg, w, Launch(None, false, initial)).Some? && w.part.Some?
    ensures var w1 := Next(cfg, w, Launch(None, false, initial)).value;
      && w1.part == Some(SetLen(w.part.value, |cfg.remote|)) && w1.saved == w.saved && w1.current == w.current
      && w1.run == Some(Opened(initial))
  {
  }

  lemma StepSame(cfg: Config, file: seq<byte>, s: Session, step: Step)
    requires Shaped(s) && Apply(cfg, file, s, step).Some?
    ensures Apply(cfg, file, s, step).value.1.segs == s.segs
    ensures Apply(cfg, file, s, step).value.1.downloaded >= s.downloaded
  {
    hide OnReply, WriteAt, ParseContentRange, ValidateRangedResponse;
    if step.On? && step.i < |s.tasks| { ActSame(cfg, file, s, step.i, step.act); }
  }

  lemma ActSame(cfg: Config, file: seq<byte>, s: Session, i: nat, act: Act)
    requires Shaped(s) && i < |s.tasks| && SegmentTasks.Run(cfg, file, s, i, act).Some?
    ensures SegmentTasks.Run(cfg, file, s, i, act).value.1.segs == s.segs
    ensures SegmentTasks.Run(cfg, file, s, i, act).value.1.downloaded >= s.downloaded
  {
    hide OnReply, WriteAt;
  }

  lemma GoKeeps(was: Version, now: Version, c: seq<Segment>, initial: seq<Segment>, maxAttempts: nat, before: seq<byte>,
                k: Keeper, step: Step)
    requires KeeperOk(was, now, c, initial, maxAttempts, before, k)
    requires After(Config(now.content, maxAttempts), Tags(now), k, Go(step)).Some?
    ensures KeeperOk(was, now, c, initial, maxAttempts, before, After(Config(now.content, maxAttempts), Tags(now), k, Go(step)).value)
  {
    hide Running, Claims, Sound, Apply, Honest, Improves;
    var cfg := Config(now.content, maxAttempts);
    WorkKeeps(cfg, k.world, Work(step));
    StepImproves(cfg, k.world.part.value, k.world.run.value, step);
    StepSame(cfg, k.world.part.value, k.world.run.value, step);
    ImprovesOn(before, k.world.part.value, Next(cfg, k.world, Work(step)).value.part.value, now.content);
  }

  lemma ImprovesOn(a: seq<byte>, b: seq<byte>, c: seq<byte>, remote: seq<byte>)
    requires Improves(a, b, remote) && Improves(b, c, remote)
    ensures Improves(a, c, remote)
  {
  }

  lemma DeedKeeps(was: Version, now: Version, c: seq<Segment>, initial: seq<Segment>, maxAttempts: nat, before: seq<byte>,
                  k: Keeper, d: Deed)
    requires KeeperOk(was, now, c, initial, maxAttempts, before, k)
    requires After(Config(now.content, maxAttempts), Tags(now), k, d).Some?
    ensures KeeperOk(was, now, c, initial, maxAttempts, before, After(Config(now.content, maxAttempts), Tags(now), k, d).value)
  {
    if d.Go? {
      hide *;
      GoKeeps(was, now, c, initial, maxAttempts, before, k, d.step);
    } else {
      if d.Collect? { EventKeeps(Config(now.content, maxAttempts), k.world, Persist); }
      hide WorldOk, Improves, Snapshot;
    }
  }

  lemma {:induction false} DeedsKeep(was: Version, now: Version, c: seq<Segment>, initial: seq<Segment>, maxAttempts: nat,
                                     before: seq<byte>, k: Keeper, ds: seq<Deed>, k': Keeper)
    requires KeeperOk(was, now, c, initial, maxAttempts, before, k)
    requires Deeds(Config(now.content, maxAttempts), Tags(now), k, ds, k')
    ensures KeeperOk(was, now, c, initial, maxAttempts, before, k')
    decreases |ds|
  {
    hide KeeperOk, After;
    if ds != [] {
      DeedKeeps(was, now, c, initial, maxAttempts, before, k, ds[0]);
      DeedsKeep(was, now, c, initial, maxAttempts, before, After(Config(now.content, maxAttempts), Tags(now), k, ds[0]).value, ds[1..], k');
    }
  }

  /** Whenever the process is killed, the next can be misled exactly if the new
      validators have been saved, the new segments have not, and the old ones
      claim a byte that is not in the partial file as it is by then; so never if
      the versions agree on what the old segments claim. */
  lemma StoredApartExactly(was: Version, now: Version, w: World, c: seq<Segment>, initial: seq<Segment>, maxAttempts: nat,
                           k: Keeper, ds: seq<Deed>, k': Keeper)
    requires Reopened(was, now, w, c, initial, maxAttempts, k)
    requires Deeds(Config(now.content, maxAttempts), Tags(now), k, ds, k')
    ensures k'.world.part.Some?
    ensures Misleads(now, initial, maxAttempts, k') <==>
              k'.store == Store(Tags(now), Some(c)) && !Claims(now.content, k'.world.part.value, c)
    ensures Claims(now.content, was.content, c) ==> !Misleads(now, initial, maxAttempts, k')
  {
    ReopenedIsOk(was, now, w, c, initial, maxAttempts, k);
    hide Claims, Improves, Sound, Deeds;
    DeedsKeep(was, now, c, initial, maxAttempts, w.part.value, k, ds, k');
    KilledIsExact(was, now, c, initial, maxAttempts, w.part.value, k');
    if Claims(now.content, was.content, c) {
      ClaimsOn(now.content, was.content, w.part.value, c);
      ClaimsStay(now.content, w.part.value, k'.world.part.value, c);
    }
  }

  lemma KilledIsExact(was: Version, now: Version, c: seq<Segment>, initial: seq<Segment>, maxAttempts: nat,
                      before: seq<byte>, k: Keeper)
    requires was.etag != now.etag && |now.content| < TWO_64 && IsInitial(initial, |now.content|)
    requires KeeperOk(was, now, c, initial, maxAttempts, before, k)
    ensures Misleads(now, initial, maxAttempts, k) <==>
              k.store == Store(Tags(now), Some(c)) && !Claims(now.content, k.world.part.value, c)
  {
    hide IsInitial, CanGoWrong, Claims, Sound, Running, Improves;
    var cfg, w := Config(now.content, maxAttempts), k.world.(run := None);
    if k.store.validators == Tags(now) {
      assert OpenedFile(cfg, w) == k.world.part.value;
      RestoreIsSafeExactly(cfg, w, k.store.segments.value, true, initial);
    }
  }

  lemma ClaimsOn(b: seq<byte>, a: seq<byte>, file: seq<byte>, c: seq<Segment>)
    requires Claims(b, a, c) && Claims(a, file, c)
    ensures Claims(b, file, c)
  {
    forall k | 0 <= k < |c| ensures Equals(file, b, c[k].start, c[k].start + c[k].downloaded) {
      assert Equals(a, b, c[k].start, c[k].start + c[k].downloaded);
      assert Equals(file, a, c[k].start, c[k].start + c[k].downloaded);
      forall i | c[k].start <= i < c[k].start + c[k].downloaded ensures Same(file, b, i) {
        assert Same(a, b, i) && Same(file, a, i);
      }
    }
  }

  // ------------------------------------------------ whether it comes to that

  ghost predicate CanMislead(now: Version, initial: seq<Segment>, maxAttempts: nat, k: Keeper) {
    exists ds, k' :: Deeds(Config(now.content, maxAttempts), Tags(now), k, ds, k') && Misleads(now, initial, maxAttempts, k')
  }

  /** A claimed byte in which the versions differ, and which the first chunk of
      the new version need not be. */
  predicate Spoiled(was: Version, now: Version, c: seq<Segment>, initial: seq<Segment>, j: nat, b: nat) {
    && j < |c| && ClaimedBy(c[j], b) && b < |was.content| && b < |now.content| && was.content[b] != now.content[b]
    && (|initial| > 1 || b != 0)
  }

  /** Some run of such a session, killed somewhere, misleads the next exactly if
      the versions differ in a claimed byte, other than the first of a session
      of one segment: a chunk has been written before anything new is saved. */
  lemma CanMisleadExactly(was: Version, now: Version, w: World, c: seq<Segment>, initial: seq<Segment>, maxAttempts: nat, k: Keeper)
    requires Reopened(was, now, w, c, initial, maxAttempts, k)
    ensures CanMislead(now, initial, maxAttempts, k) <==> exists j, b :: Spoiled(was, now, c, initial, j, b)
  {
    hide Deeds, Misleads, Reopened;
    if j, b :| Spoiled(was, now, c, initial, j, b) {
      var ds, k' := Misleading(was, now, w, c, initial, maxAttempts, k, j, b);
    }
    if CanMislead(now, initial, maxAttempts, k) {
      var ds, k' :| Deeds(Config(now.content, maxAttempts), Tags(now), k, ds, k') && Misleads(now, initial, maxAttempts, k');
      var j, b := MisledBy(was, now, w, c, initial, maxAttempts, k, ds, k');
    }
  }

  /** The first byte of a session of one segment is the first one written. */
  lemma FirstIsRight(cfg: Config, file: seq<byte>, s: Session)
    requires Running(cfg, file, s) && |s.segs| == 1 && s.downloaded > 0
    ensures Same(file, cfg.remote, 0)
  {
    OneCounted(s.tasks, s.progress);
    assert TaskOk(cfg.remote, file, s.segs[0], s.tasks[0], s.progress[0]);
    assert s.segs[0].start == 0;
  }

  lemma OneCounted(tasks: seq<Task>, progress: seq<nat>)
    requires |tasks| == |progress| == 1
    ensures TotalCounted(tasks, progress) == Counted(tasks[0], progress[0])
  {
    assert TotalCounted(tasks[..0], progress[..0]) == 0;
  }

  lemma MisledBy(was: Version, now: Version, w: World, c: seq<Segment>, initial: seq<Segment>, maxAttempts: nat,
                 k: Keeper, ds: seq<Deed>, k': Keeper) returns (j: nat, b: nat)
    requires Reopened(was, now, w, c, initial, maxAttempts, k)
    requires Deeds(Config(now.content, maxAttempts), Tags(now), k, ds, k') && Misleads(now, initial, maxAttempts, k')
    ensures Spoiled(was, now, c, initial, j, b)
  {
    ReopenedIsOk(was, now, w, c, initial, maxAttempts, k);
    StoredApartExactly(was, now, w, c, initial, maxAttempts, k, ds, k');
    DeedsKeep(was, now, c, initial, maxAttempts, w.part.value, k, ds, k');
    hide Deeds, Misleads, Sound, Running, IsInitial, Next;
    var cfg, file, s := Config(now.content, maxAttempts), k'.world.part.value, k'.world.run.value;
    j, b := FalseClaim(now.content, file, c);
    if |initial| == 1 { FirstIsRight(cfg, file, s); }
    StillOld(was.content, now.content, w.part.value, file, c, j, b);
    assert |initial| >= 1 by { SomeSegment(initial, |now.content|); }
  }

  lemma SomeSegment(initial: seq<Segment>, n: nat)
    requires IsInitial(initial, n)
    ensures |initial| >= 1 && initial[0].start == 0 && (|initial| > 1 ==> initial[1].start > 0)
  {
    if |initial| > 1 { TilesAt(initial, 0, 0, n, 0); TilesAt(initial, 0, 0, n, 1); }
  }

  /** A claimed byte that is wrong is one of the old version, and the versions
      differ in it. */
  lemma StillOld(a: seq<byte>, b: seq<byte>, before: seq<byte>, file: seq<byte>, c: seq<Segment>, j: nat, i: nat)
    requires |a| == |b| == |file| && Claims(a, before, c) && Improves(before, file, b)
    requires j < |c| && ClaimedBy(c[j], i) && i < |b| && file[i] != b[i]
    ensures a[i] != b[i]
  {
    assert Equals(before, a, c[j].start, c[j].start + c[j].downloaded);
    assert Same(before, a, i);
    assert a[i] == b[i] ==> Same(before, b, i);
  }

  lemma {:induction false} WorkIsDeeds(cfg: Config, tags: Validators, k: Keeper, events: seq<Event>, w': World) returns (ds: seq<Deed>)
    requires Leads(cfg, k.world, events, w') && AllWork(events)
    ensures Deeds(cfg, tags, k, ds, k.(world := w'))
    decreases |events|
  {
    hide Next;
    if events == [] {
      ds := [];
    } else {
      var k1 := k.(world := Next(cfg, k.world, events[0]).value);
      var rest := WorkIsDeeds(cfg, tags, k1, events[1..], w');
      ds := [Go(events[0].step)] + rest;
      assert ds[1..] == rest;
    }
  }

  lemma {:induction false} DeedsAppend(cfg: Config, tags: Validators, a: Keeper, x: seq<Deed>, b: Keeper, y: seq<Deed>, c: Keeper)
    requires Deeds(cfg, tags, a, x, b) && Deeds(cfg, tags, b, y, c)
    ensures Deeds(cfg, tags, a, x + y, c)
    decreases |x|
  {
    hide After;
    if x == [] {
      assert x + y == y;
    } else {
      DeedsAppend(cfg, tags, After(cfg, tags, a, x[0]).value, x[1..], b, y, c);
      assert (x + y)[1..] == x[1..] + y;
    }
  }

  /** A report, and the first of the two writes. */
  lemma SavesStatus(cfg: Config, tags: Validators, k: Keeper) returns (k': Keeper)
    requires k.world.run.Some? && k.world.run.value.downloaded > 0
    ensures Deeds(cfg, tags, k, [Report, Collect, SaveStatus], k')
    ensures k'.store == k.store.(validators := tags) && k'.world.part == k.world.part && k'.world.run == k.world.run
    ensures k'.collected == Some((tags, Snapshot(k.world.run.value.segs, k.world.run.value.progress)))
  {
    var k1 := After(cfg, tags, k, Report).value;
    var k2 := After(cfg, tags, k1, Collect).value;
    k' := After(cfg, tags, k2, SaveStatus).value;
    assert [Report, Collect, SaveStatus][1..] == [Collect, SaveStatus];
    assert [Collect, SaveStatus][1..] == [SaveStatus] && [SaveStatus][1..] == [];
    hide After;
    assert Deeds(cfg, tags, k', [], k');
    assert Deeds(cfg, tags, k2, [SaveStatus], k');
    assert Deeds(cfg, tags, k1, [Collect, SaveStatus], k');
  }

  /** One byte of one waiting segment is fetched, written and counted. */
  lemma OneByte(cfg: Config, w: World, file: seq<byte>, s: Session, i: nat)
      returns (events: seq<Event>, file': seq<byte>, s': Session)
    requires SegmentCompletion.Ready(cfg, s) && i < |s.tasks| && s.tasks[i].Waiting? && |cfg.remote| < TWO_64
    ensures Leads(cfg, At(w, file, s), events, At(w, file', s')) && AllWork(events)
    ensures s'.downloaded == s.downloaded + 1 && s.segs[i].start + s.segs[i].downloaded < |cfg.remote|
    ensures file' == WriteAt(file, s.segs[i].start + s.segs[i].downloaded, [cfg.remote[s.segs[i].start + s.segs[i].downloaded]])
  {
    hide TotalCounted, Leads, OnReply, Honest, WriteAt, AllWork, At, FullReply, SegmentCompletion.Ready;
    CountFits(cfg, s, i);
    var seg := s.segs[i];
    var d := seg.downloaded;
    var body := cfg.remote[seg.start + d..seg.end + 1];
    FullReplyFits(cfg, seg, d, 0);
    var s1 := SetTask(s, i, Top(d, 0));
    var s2 := SetTask(s1, i, Streaming(d, 0, body));
    var s3 := SetTask(s2, i, Written(d + 1, 0, body[1..], 1));
    var s4 := SetTask(s3, i, Published(d + 1, 0, body[1..], 1)).(progress := s.progress[i := d + 1]);
    s' := SetTask(s4, i, Streaming(d + 1, 0, body[1..])).(downloaded := s.downloaded + 1);
    file' := WriteAt(file, seg.start + d, body[..1]);
    assert body[..1] == [cfg.remote[seg.start + d]];
    OneAct(cfg, w, file, s, i, Start, file, s1);
    assert s2 == SetTask(s1, i, Streaming(d, 0, body)).(fatal := s1.fatal || false);
    OneAct(cfg, w, file, s1, i, Ask(true, FullReply(cfg, seg, d)), file, s2);
    OneAct(cfg, w, file, s2, i, Write(1), file', s3);
    OneAct(cfg, w, file', s3, i, Publish, file', s4);
    OneAct(cfg, w, file', s4, i, Count, file', s');
    events := Chain(cfg, i,
      [At(w, file, s), At(w, file, s1), At(w, file, s2), At(w, file', s3), At(w, file', s4), At(w, file', s')],
      [Start, Ask(true, FullReply(cfg, seg, d)), Write(1), Publish, Count]);
  }

  /** When nothing comes between the two writes, validators and segments are saved
      of the same moment, and the next session on the same version is given just
      these segments. Without something collected there is nothing to save. */
  lemma SavesBoth(cfg: Config, tags: Validators, k: Keeper) returns (k': Keeper)
    requires k.world.run.Some? && k.world.run.value.downloaded > 0
    ensures Deeds(cfg, tags, k, [Report, Collect, SaveStatus] + [SaveSegments], k')
    ensures var c := Snapshot(k.world.run.value.segs, k.world.run.value.progress);
      k'.store == Store(tags, Some(c)) && Kept(k'.store, tags) == Some(c)
    ensures k'.collected.None? && k'.world.part == k.world.part && k'.world.run == k.world.run
    ensures After(cfg, tags, k', SaveStatus).None? && After(cfg, tags, k', SaveSegments).None?
  {
    var k1 := SavesStatus(cfg, tags, k);
    k' := After(cfg, tags, k1, SaveSegments).value;
    assert [SaveSegments][1..] == [];
    hide After;
    assert Deeds(cfg, tags, k', [], k');
    assert Deeds(cfg, tags, k1, [SaveSegments], k');
    DeedsAppend(cfg, tags, k, [Report, Collect, SaveStatus], k1, [SaveSegments], k');
  }

  /** The run that misleads: one byte is fetched, beside byte `b`, reported, and
      the new validators are saved. */
  lemma Misleading(was: Version, now: Version, w: World, c: seq<Segment>, initial: seq<Segment>, maxAttempts: nat,
                   k: Keeper, j: nat, b: nat) returns (ds: seq<Deed>, k': Keeper)
    requires Reopened(was, now, w, c, initial, maxAttempts, k) && Spoiled(was, now, c, initial, j, b)
    ensures Deeds(Config(now.content, maxAttempts), Tags(now), k, ds, k') && Misleads(now, initial, maxAttempts, k')
  {
    var cfg := Config(now.content, maxAttempts);
    ReopenedIsOk(was, now, w, c, initial, maxAttempts, k);
    LaunchIs(cfg, Changed(w), initial);
    SomeSegment(initial, |now.content|);
    InitialIsSound(initial, now.content, []);
    OpenedIsReady(cfg, initial);
    var i := if b != 0 then 0 else 1;
    var file := k.world.part.value;
    hide Deeds, Misleads, Leads, Running, Improves, SegmentCompletion.Ready, AllWork;
    assert k.world == At(k.world, file, Opened(initial));
    var events, file', s' := OneByte(cfg, k.world, file, Opened(initial), i);
    var x := WorkIsDeeds(cfg, Tags(now), k, events, At(k.world, file', s'));
    var k1 := k.(world := At(k.world, file', s'));
    k' := SavesStatus(cfg, Tags(now), k1);
    ds := x + [Report, Collect, SaveStatus];
    DeedsAppend(cfg, Tags(now), k, x, k1, [Report, Collect, SaveStatus], k');
    StoredApartExactly(was, now, w, c, initial, maxAttempts, k, ds, k');
    NotClaimed(was.content, now.content, w.part.value, file', c, j, b);
  }

  lemma NotClaimed(a: seq<byte>, remote: seq<byte>, before: seq<byte>, file: seq<byte>, c: seq<Segment>, j: nat, b: nat)
    requires Claims(a, before, c) && j < |c| && ClaimedBy(c[j], b) && b < |a| && b < |remote| && a[b] != remote[b]
    requires b < |file| && (b < |before| ==> file[b] == before[b])
    ensures !Claims(remote, file, c)
  {
    assert Equals(before, a, c[j].start, c[j].start + c[j].downloaded);
    assert Same(before, a, b);
    assert !Same(file, remote, b);
    assert !Equals(file, remote, c[j].start, c[j].start + c[j].downloaded);
  }

  lemma ChangedIsOk(a: Config, b: Config, w: World)
    requires WorldOk(a, w) && |a.remote| == |b.remote|
    ensures WorldOk(b, Changed(w))
    ensures forall c :: c in w.current ==> c in w.saved && Sound(c, |a.remote|) && w.part.Some? && Claims(a.remote, w.part.value, c)
  {
    hide Claims, Sound;
  }
}
