/** What a single-connection session keeps, whatever the server serves when and
    wherever the session is cut off. */
module StreamSafety {
  import opened Prelude
  import opened Resume
  import opened StreamSession

  // ------------------------------------------------------------- one answer

  /** An answer read to its clean end, of the announced length if there is one. */
  predicate Received(r: GetReply) {
    && r.Answered? && Success(r.status) && r.ending.Ended?
    && (r.length.Some? ==> |Concat(r.chunks)| == r.length.value)
  }

  /** An answer taken for the rest of a partial file of `from` bytes. */
  predicate Accepted(from: nat, r: GetReply, ctx: Context) {
    r.Answered? && ValidateRangedResponse(from, None, r.status, r.contentRange, ctx).None?
  }

  /** Where the range of a partial answer ends. */
  function LastByte(r: GetReply): nat
    requires r.Answered? && r.contentRange.Some? && ParseContentRange(r.contentRange.value).Some?
  {
    ParseContentRange(r.contentRange.value).value.end
  }

  lemma AcceptedIsPartial(from: nat, r: GetReply, ctx: Context)
    requires Accepted(from, r, ctx)
    ensures r.status == 206 && r.contentRange.Some? && ParseContentRange(r.contentRange.value).Some?
    ensures ParseContentRange(r.contentRange.value).value.start == from
  {
    hide ParseContentRange;
  }

  /** A body received to its end is the one announced. */
  lemma ReceivedIsWhole(v: Version, from: nat, ifRange: Option<Header>, subsets: bool, r: GetReply)
    requires Honest(v, from, ifRange, subsets, r) && Received(r)
    ensures Concat(r.chunks) == Whole(v, r)
  {
    hide ParseContentRange, Concat, Whole;
  }

  /** What an accepted answer carries: at most the bytes from `from` to the end
      of its range, and all of them if it is received to its end. */
  lemma AcceptedBody(v: Version, from: nat, ifRange: Option<Header>, subsets: bool, r: GetReply, ctx: Context)
    requires Honest(v, from, ifRange, subsets, r) && Accepted(from, r, ctx)
    ensures r.Answered? && r.status == 206 && r.contentRange.Some? && ParseContentRange(r.contentRange.value).Some?
    ensures from > 0 && (ifRange.Some? ==> ifRange.value == v.etag)
    ensures from <= LastByte(r) < |v.content| && (!subsets ==> LastByte(r) == |v.content| - 1)
    ensures Concat(r.chunks) <= v.content[from..LastByte(r) + 1]
    ensures r.length.Some? ==> r.length.value == LastByte(r) + 1 - from
    ensures Received(r) ==> Concat(r.chunks) == v.content[from..LastByte(r) + 1]
  {
    hide ParseContentRange, Concat, ValidateRangedResponse;
    AcceptedIsPartial(from, r, ctx);
    if Received(r) { ReceivedIsWhole(v, from, ifRange, subsets, r); }
  }

  /** A partial file completed by an accepted answer is the version served
      exactly when it began that version and the answer reached its end. */
  lemma CompletedExactly(v: Version, p: seq<byte>, ifRange: Option<Header>, subsets: bool, r: GetReply, ctx: Context)
    requires Honest(v, |p|, ifRange, subsets, r) && Accepted(|p|, r, ctx) && Received(r)
    ensures r.Answered? && r.contentRange.Some? && ParseContentRange(r.contentRange.value).Some?
    ensures p + Concat(r.chunks) == v.content <==> p <= v.content && LastByte(r) + 1 == |v.content|
  {
    hide Honest, Accepted, Received, Concat;
    AcceptedBody(v, |p|, ifRange, subsets, r, ctx);
    var tail := v.content[|p|..LastByte(r) + 1];
    assert (p + tail)[..|p|] == p && |p + tail| == LastByte(r) + 1;
    if p <= v.content && LastByte(r) + 1 == |v.content| { assert p + tail == v.content; }
  }

  /** The end of the range is never looked at: from a server that may stop
      short, what a prefix is completed to is whole exactly when it did not. */
  lemma SubsetExactly(v: Version, p: seq<byte>, ifRange: Option<Header>, r: GetReply, ctx: Context)
    requires Honest(v, |p|, ifRange, true, r) && Accepted(|p|, r, ctx) && Received(r) && p <= v.content
    ensures r.Answered? && r.contentRange.Some? && ParseContentRange(r.contentRange.value).Some?
    ensures p + Concat(r.chunks) == v.content <==> LastByte(r) + 1 == |v.content|
  {
    hide Honest, Accepted, Received, Concat;
    CompletedExactly(v, p, ifRange, true, r, ctx);
  }

  /** From a server that sends all it is asked for, what a partial file is
      completed to is the version served exactly when it began that version. */
  lemma PrefixExactly(v: Version, p: seq<byte>, ifRange: Option<Header>, r: GetReply, ctx: Context)
    requires Honest(v, |p|, ifRange, false, r) && Accepted(|p|, r, ctx) && Received(r)
    ensures p + Concat(r.chunks) == v.content <==> p <= v.content
  {
    hide Honest, Accepted, Received, Concat;
    CompletedExactly(v, p, ifRange, false, r, ctx);
    AcceptedBody(v, |p|, ifRange, false, r, ctx);
  }

  /** What the partial file becomes when an answer from version `v` is received. */
  function Expected(v: Version, r: GetReply): seq<byte> {
    if r.Answered? && r.status == 206 && r.contentRange.Some? && ParseContentRange(r.contentRange.value).Some?
       && LastByte(r) < |v.content| then v.content[..LastByte(r) + 1]
    else v.content
  }

  lemma FreshBody(v: Version, ifRange: Option<Header>, subsets: bool, r: GetReply)
    requires Honest(v, 0, ifRange, subsets, r) && r.Answered? && Success(r.status)
    ensures r.status != 206 && Concat(r.chunks) <= v.content && Whole(v, r) == v.content == Expected(v, r)
    ensures r.length.Some? ==> r.length.value == |v.content|
  {
    hide Concat, ParseContentRange;
  }

  // ------------------------------------------------------------ what can mix

  /** Nothing that `given` says has changed in `v`. */
  predicate Passes(given: Validators, v: Version) {
    && (given.etag.Some? ==> given.etag.value == v.etag)
    && (given.lastModified.Some? ==> given.lastModified == v.lastModified)
  }

  lemma MatchIsPass(given: Validators, v: Version)
    ensures ValidatorsMatch(given, ValidatorsOf(v)) <==> Passes(given, v)
  {
    MatchExactly(given, ValidatorsOf(v));
  }

  /** A session that is to compare `given` and finds `part` can mix versions: a
      version it may still meet has kept what `given` says, is longer than the
      partial file, and does not begin with it. */
  ghost predicate CanMix(vs: History, given: Validators, part: Option<seq<byte>>, now: nat) {
    part.Some? && exists v :: now <= v < |vs| && Passes(given, vs[v]) && Mixes(part.value, vs[v])
  }

  predicate Mixes(p: seq<byte>, v: Version) { |p| < |v.content| && !(p <= v.content) }

  /** Validators of a version served no later than `now`. */
  ghost predicate FromPast(vs: History, given: Validators, now: nat) {
    exists u :: 0 <= u <= now && u < |vs| && given == ValidatorsOf(vs[u])
  }

  ghost predicate OfOneVersion(vs: History, part: Option<seq<byte>>) {
    part.Some? ==> exists v :: 0 <= v < |vs| && part.value <= vs[v].content
  }

  lemma MixLater(vs: History, given: Validators, part: Option<seq<byte>>, now: nat, later: nat)
    requires CanMix(vs, given, part, later) && now <= later
    ensures CanMix(vs, given, part, now)
  {
  }

  lemma PastStays(vs: History, given: Validators, now: nat, later: nat)
    requires FromPast(vs, given, now) && now <= later
    ensures FromPast(vs, given, later)
  {
  }

  /** A prefix of the version being served cannot be mixed under validators of
      that version or any earlier one. */
  lemma PrefixIsSafe(vs: History, given: Validators, p: seq<byte>, now: nat)
    requires DistinctTags(vs) && now < |vs| && p <= vs[now].content && FromPast(vs, given, now)
    ensures !CanMix(vs, given, Some(p), now)
  {
  }

  /** A match against the version just probed carries over to its validators. */
  lemma MatchIsSafe(vs: History, given: Validators, part: Option<seq<byte>>, before: nat, now: nat)
    requires DistinctTags(vs) && before <= now < |vs| && !CanMix(vs, given, part, before)
    requires Passes(given, vs[now])
    ensures !CanMix(vs, ValidatorsOf(vs[now]), part, now)
  {
  }

  // ------------------------------------------------------------ the invariant

  /** What a session keeps of its own variables, from its entry `a`. */
  ghost predicate Orderly(cfg: Config, a: World, w: World) {
    var vs, s := cfg.versions, w.s;
    && a.now <= w.now < |vs|
    && (s.phase.Opening? ==> s == a.s && w.now == a.now)
    && (s.probe.Some? ==> FromPast(vs, s.cell, w.now))
    && (s.probe.None? && !s.phase.Opening? ==> s.cell == UNKNOWN || (s.cell == a.s.cell && s.phase.Failed? && !s.touched))
    && (s.allowResume ==> s.touched && Ranges(s))
    && (!s.touched ==> s.part == a.s.part && !s.reported && s.attempt == 0)
    && s.stored == (if s.reported then s.cell else a.s.stored)
    && s.attempt <= cfg.maxAttempts
  }

  /** While streaming, the partial file is what it was continued from and the
      chunks so far, and all of it will be what the version served calls for. */
  ghost predicate Streams(v: Version, s: Session) {
    match s.phase
    case Writing(reply, from, next, total) =>
      && s.touched && s.part.Some? && reply.Answered? && next <= |reply.chunks| && from <= |s.part.value|
      && s.part.value == s.part.value[..from] + Concat(reply.chunks[..next])
      && s.part.value[..from] + Concat(reply.chunks) <= v.content
      && (reply.ending.Ended? && (total.Some? ==> from + |Concat(reply.chunks)| == total.value) ==>
            s.part.value[..from] + Concat(reply.chunks) == Expected(v, reply))
    case Written(reply) => s.touched && s.part == Some(Expected(v, reply))
    case Placed(reply) => s.touched && s.part.None? && s.final == Some(Expected(v, reply))
    case _ => true
  }

  /** What the validators at hand say of the partial file. */
  ghost predicate Guarded(cfg: Config, a: World, w: World) {
    var vs, s := cfg.versions, w.s;
    && (s.touched && s.probe.Some? ==> !CanMix(vs, s.cell, s.part, w.now))
    && (!s.reported && FromPast(vs, a.s.stored, a.now) && !CanMix(vs, a.s.stored, a.s.part, a.now) ==>
          !CanMix(vs, s.stored, s.part, w.now))
    && (OfOneVersion(vs, a.s.part) ==> OfOneVersion(vs, s.part))
    && (s.final.Some? ==> s.phase.Placed?)
  }

  ghost predicate Keeps(cfg: Config, a: World, w: World) {
    Orderly(cfg, a, w) && Streams(cfg.versions[w.now], w.s) && Guarded(cfg, a, w)
  }

  /** A partial file that is now a prefix of the version served is guarded. */
  lemma PrefixIsGuarded(cfg: Config, a: World, w: World)
    requires DistinctTags(cfg.versions) && Orderly(cfg, a, w)
    requires w.s.part.Some? && w.s.part.value <= cfg.versions[w.now].content && w.s.final.None?
    ensures Guarded(cfg, a, w)
  {
    hide CanMix;
    var vs, s, p := cfg.versions, w.s, w.s.part.value;
    if s.probe.Some? { PrefixIsSafe(vs, s.cell, p, w.now); }
    if !s.reported && FromPast(vs, a.s.stored, a.now) {
      PastStays(vs, a.s.stored, a.now, w.now);
      PrefixIsSafe(vs, a.s.stored, p, w.now);
    }
  }

  /** Time alone spoils nothing. */
  lemma GuardedLater(cfg: Config, a: World, w: World, now: nat, s': Session)
    requires Orderly(cfg, a, w) && Guarded(cfg, a, w) && w.now <= now < |cfg.versions|
    requires s' == w.s.(allowResume := s'.allowResume, phase := s'.phase) && !w.s.phase.Placed?
    ensures Guarded(cfg, a, World(now, s'))
  {
    hide FromPast, OfOneVersion;
  }

  // --------------------------------------------------------------- each event

  /** A session about to start, whose comparison guards against mixing. */
  ghost predicate Ready(cfg: Config, a: World) {
    && DistinctTags(cfg.versions) && a.now < |cfg.versions|
    && a.s == Entry(a.s.part, a.s.cell, a.s.stored)
    && !CanMix(cfg.versions, a.s.cell, a.s.part, a.now)
  }

  lemma EntryKeeps(cfg: Config, a: World)
    requires Ready(cfg, a)
    ensures Keeps(cfg, a, a)
  {
    hide CanMix, OfOneVersion;
  }

  lemma ProbeKeeps(cfg: Config, a: World, w: World, e: Event)
    requires Ready(cfg, a) && Keeps(cfg, a, w) && e.Probe? && Allowed(cfg, w, e)
    ensures Keeps(cfg, a, Step(cfg, w, e))
  {
    hide OfOneVersion, Streams;
    var vs := cfg.versions;
    var s' := OnProbe(w.s, e.probed);
    if s'.touched { MatchIsSafe(vs, w.s.cell, w.s.part, a.now, e.now); }
    assert Streams(vs[e.now], s') by { NotStreaming(vs[e.now], s'); }
  }

  lemma NotStreaming(v: Version, s: Session)
    requires s.phase.Opening? || s.phase.Asking? || s.phase.Failed?
    ensures Streams(v, s)
  {
  }

  /** A partial file whose continuation is accepted begins the version served. */
  lemma AcceptedContinues(cfg: Config, a: World, w: World, n: nat, r: GetReply)
    requires DistinctTags(cfg.versions) && Orderly(cfg, a, w) && w.now <= n < |cfg.versions|
    requires w.s.touched && w.s.probe.Some? && !CanMix(cfg.versions, w.s.cell, w.s.part, w.now)
    requires Honest(cfg.versions[n], From(w.s), IfRange(w.s), cfg.subsets, r)
    requires From(w.s) > 0 && r.Answered? && Success(r.status) && Verdict(w.s, r).None?
    ensures r.status == 206 && w.s.part.value + Concat(r.chunks) <= cfg.versions[n].content
    ensures Received(r) ==> w.s.part.value + Concat(r.chunks) == Expected(cfg.versions[n], r)
    ensures r.length.Some? ==> (Received(r) <==> r.ending.Ended? && |Concat(r.chunks)| == r.length.value)
  {
    hide Honest, Concat, ValidateRangedResponse, ParseContentRange;
    var p, v := w.s.part.value, cfg.versions[n];
    var u :| 0 <= u <= w.now && w.s.cell == ValidatorsOf(cfg.versions[u]);
    AcceptedBody(v, |p|, IfRange(w.s), cfg.subsets, r, Context(IfRange(w.s).Some?, w.s.cell, r.validators));
    assert u == n && Passes(w.s.cell, v);
    var tail := v.content[|p|..LastByte(r) + 1];
    assert p + tail == v.content[..LastByte(r) + 1];
    PrefixOfPrefix(p, Concat(r.chunks), tail, v.content);
  }

  lemma PrefixOfPrefix(a: seq<byte>, b: seq<byte>, c: seq<byte>, d: seq<byte>)
    requires b <= c && a + c <= d
    ensures a + b <= d
  {
    assert (a + c)[..|a + b|] == a + b;
  }

  /** Opening the file for an answer that is to be stored. */
  lemma OpenKeeps(cfg: Config, a: World, w: World, n: nat, r: GetReply)
    requires Ready(cfg, a) && Keeps(cfg, a, w) && w.s.phase.Asking? && w.now <= n < |cfg.versions|
    requires Honest(cfg.versions[n], From(w.s), IfRange(w.s), cfg.subsets, r)
    requires r.Answered? && Success(r.status) && Verdict(w.s, r).None?
    ensures Keeps(cfg, a, World(n, OnAsk(w.s, r, true)))
  {
    hide Honest, Concat, ValidateRangedResponse, ParseContentRange, Expected, CanMix, Guarded, FromPast;
    var v, s' := cfg.versions[n], OnAsk(w.s, r, true);
    assert r.chunks[..0] == [];
    assert w.s.final.None? by { Unplaced(cfg, a, w); }
    if From(w.s) > 0 {
      assert !CanMix(cfg.versions, w.s.cell, w.s.part, w.now) by { TouchedIsGuarded(cfg, a, w); }
      AcceptedContinues(cfg, a, w, n, r);
      assert s'.part.value[..From(w.s)] == s'.part.value && Concat(r.chunks[..0]) == [] by { ConcatNone(r.chunks); }
    } else {
      FreshBody(v, IfRange(w.s), cfg.subsets, r);
      assert [] + Concat(r.chunks) == Concat(r.chunks);
      assert Concat(r.chunks[..0]) == [] by { ConcatNone(r.chunks); }
      if Received(r) { ReceivedIsWhole(v, 0, IfRange(w.s), cfg.subsets, r); }
    }
    assert FromPast(cfg.versions, s'.cell, n) || s'.probe.None? by {
      if s'.probe.Some? { PastStays(cfg.versions, s'.cell, w.now, n); }
    }
    PrefixIsGuarded(cfg, a, World(n, s'));
  }

  lemma ConcatNone(chunks: seq<seq<byte>>)
    ensures Concat(chunks[..0]) == []
  {
  }

  lemma Unplaced(cfg: Config, a: World, w: World)
    requires Guarded(cfg, a, w) && !w.s.phase.Placed?
    ensures w.s.final.None?
  {
  }

  lemma TouchedIsGuarded(cfg: Config, a: World, w: World)
    requires Guarded(cfg, a, w) && w.s.touched && w.s.probe.Some?
    ensures !CanMix(cfg.versions, w.s.cell, w.s.part, w.now)
  {
  }

  lemma AskKeeps(cfg: Config, a: World, w: World, e: Event)
    requires Ready(cfg, a) && Keeps(cfg, a, w) && e.Ask? && Allowed(cfg, w, e)
    ensures Keeps(cfg, a, Step(cfg, w, e))
  {
    hide Honest, Guarded, Streams, Verdict, CanMix, FromPast;
    var s' := OnAsk(w.s, e.answer, e.opens);
    if s'.phase.Writing? {
      OpenKeeps(cfg, a, w, e.now, e.answer);
    } else {
      GuardedLater(cfg, a, w, e.now, s');
      NotStreaming(cfg.versions[e.now], s');
      if s'.probe.Some? { PastStays(cfg.versions, s'.cell, w.now, e.now); }
    }
  }

  /** A step of streaming leaves a prefix of the version served. */
  lemma StreamStep(cfg: Config, a: World, w: World, s': Session)
    requires Ready(cfg, a) && Keeps(cfg, a, w) && w.s.phase.Writing?
    requires s'.part.Some? && s'.part.value <= cfg.versions[w.now].content
    requires s'.cell == w.s.cell && s'.probe == w.s.probe && s'.final == w.s.final && s'.touched
    requires s'.stored == (if s'.reported then s'.cell else w.s.stored) && (w.s.reported ==> s'.reported)
    requires !s'.phase.Opening? && (s'.allowResume ==> Ranges(s')) && s'.attempt <= cfg.maxAttempts
    ensures Orderly(cfg, a, World(w.now, s')) && Guarded(cfg, a, World(w.now, s'))
  {
    assert w.s.final.None? by { Unplaced(cfg, a, w); }
    hide Guarded, FromPast;
    PrefixIsGuarded(cfg, a, World(w.now, s'));
  }

  lemma ChunkArrives(start: seq<byte>, chunks: seq<seq<byte>>, i: nat, content: seq<byte>)
    requires i < |chunks| && start + Concat(chunks) <= content
    ensures start + Concat(chunks[..i + 1]) == start + Concat(chunks[..i]) + chunks[i]
    ensures start + Concat(chunks[..i + 1]) <= content
  {
    hide Concat;
    OneMoreChunk(chunks, i);
    ConcatPrefix(chunks, i + 1);
    Reassociate(start, Concat(chunks[..i]), chunks[i]);
    PrefixOfPrefix(start, Concat(chunks[..i + 1]), Concat(chunks), content);
  }

  lemma OneMoreChunk(chunks: seq<seq<byte>>, i: nat)
    requires i < |chunks|
    ensures Concat(chunks[..i + 1]) == Concat(chunks[..i]) + chunks[i]
  {
    assert chunks[..i + 1][..i] == chunks[..i];
  }

  lemma Reassociate(a: seq<byte>, b: seq<byte>, c: seq<byte>)
    ensures a + (b + c) == a + b + c
  {
  }

  lemma {:induction false} ConcatPrefix(chunks: seq<seq<byte>>, i: nat)
    requires i <= |chunks|
    ensures Concat(chunks[..i]) <= Concat(chunks)
    decreases |chunks| - i
  {
    if i == |chunks| {
      assert chunks[..i] == chunks;
    } else {
      hide Concat;
      ConcatPrefix(chunks, i + 1);
      OneMoreChunk(chunks, i);
    }
  }

  /** Whatever of the next chunk is written, the file is a prefix of the
      version served; with all of it, of what was sent so far. */
  lemma ChunkFits(v: Version, s: Session)
    requires Streams(v, s) && s.phase.Writing?
    ensures s.part.value + NextChunk(s) <= v.content
    ensures NextChunk(s) != [] ==> s.phase.next < |s.phase.reply.chunks|
    ensures s.phase.next < |s.phase.reply.chunks| ==>
      s.part.value + NextChunk(s) == s.part.value[..s.phase.from] + Concat(s.phase.reply.chunks[..s.phase.next + 1])
  {
    hide Concat, Expected;
    var start, chunks := s.part.value[..s.phase.from], s.phase.reply.chunks;
    if s.phase.next < |chunks| {
      ChunkArrives(start, chunks, s.phase.next, v.content);
    } else {
      assert chunks[..s.phase.next] == chunks;
      assert s.part.value + [] == s.part.value;
    }
  }

  lemma ChunkKeeps(cfg: Config, a: World, w: World)
    requires Ready(cfg, a) && Keeps(cfg, a, w) && Enabled(w.s, Chunk)
    ensures Keeps(cfg, a, Step(cfg, w, Chunk))
  {
    hide Concat, Expected, Guarded, FromPast;
    var v, s' := cfg.versions[w.now], OnChunk(cfg.maxAttempts, w.s);
    ChunkFits(v, w.s);
    StreamStep(cfg, a, w, s');
    assert s'.part.value[..w.s.phase.from] == w.s.part.value[..w.s.phase.from];
  }

  lemma FaultKeeps(cfg: Config, a: World, w: World, size: nat)
    requires Ready(cfg, a) && Keeps(cfg, a, w) && Enabled(w.s, Fault(size))
    ensures Keeps(cfg, a, Step(cfg, w, Fault(size)))
  {
    hide Concat, Expected, Guarded, FromPast;
    ChunkFits(cfg.versions[w.now], w.s);
    StreamStep(cfg, a, w, OnFault(cfg.maxAttempts, w.s, size));
  }

  lemma FinishKeeps(cfg: Config, a: World, w: World)
    requires Ready(cfg, a) && Keeps(cfg, a, w) && Enabled(w.s, Finish)
    ensures Keeps(cfg, a, Step(cfg, w, Finish))
  {
    hide Concat, Expected, Guarded, FromPast;
    var chunks := w.s.phase.reply.chunks;
    assert chunks[..w.s.phase.next] == chunks;
    StreamStep(cfg, a, w, OnFinish(cfg.maxAttempts, w.s));
    assert |w.s.part.value| == |w.s.part.value[..w.s.phase.from]| + |Concat(chunks)|;
  }

  lemma EventKeeps(cfg: Config, a: World, w: World, e: Event)
    requires Ready(cfg, a) && Keeps(cfg, a, w) && Allowed(cfg, w, e)
    ensures Keeps(cfg, a, Step(cfg, w, e))
  {
    hide *;
    match e {
      case Probe(_, _) => ProbeKeeps(cfg, a, w, e);
      case Ask(_, _, _) => AskKeeps(cfg, a, w, e);
      case Chunk => ChunkKeeps(cfg, a, w) by { AllowedIsEnabled(cfg, w, e); }
      case Report => ReportKeeps(cfg, a, w) by { AllowedIsEnabled(cfg, w, e); }
      case Fault(size) => FaultKeeps(cfg, a, w, size) by { AllowedIsEnabled(cfg, w, e); }
      case Finish => FinishKeeps(cfg, a, w) by { AllowedIsEnabled(cfg, w, e); }
      case Place => PlaceKeeps(cfg, a, w) by { AllowedIsEnabled(cfg, w, e); }
      case Stop(reason) => StopKeeps(cfg, a, w, reason) by { AllowedIsEnabled(cfg, w, e); }
    }
  }

  lemma AllowedIsEnabled(cfg: Config, w: World, e: Event)
    requires Allowed(cfg, w, e)
    ensures Enabled(w.s, e)
  {
  }

  lemma ReportKeeps(cfg: Config, a: World, w: World)
    requires Ready(cfg, a) && Keeps(cfg, a, w) && Enabled(w.s, Report)
    ensures Keeps(cfg, a, Step(cfg, w, Report))
  {
    hide Concat, Expected, Guarded, FromPast;
    ChunkFits(cfg.versions[w.now], w.s);
    StreamStep(cfg, a, w, Reported(w.s));
  }

  lemma PlaceKeeps(cfg: Config, a: World, w: World)
    requires Ready(cfg, a) && Keeps(cfg, a, w) && Enabled(w.s, Place)
    ensures Keeps(cfg, a, Step(cfg, w, Place))
  {
    hide Expected, FromPast;
  }

  lemma StopKeeps(cfg: Config, a: World, w: World, reason: Error)
    requires Ready(cfg, a) && Keeps(cfg, a, w) && Enabled(w.s, Stop(reason))
    ensures Keeps(cfg, a, Step(cfg, w, Stop(reason)))
  {
    hide Expected, FromPast, CanMix, OfOneVersion;
  }

  /** Every state a session can reach, and so every state in which it may be
      killed, keeps all of this. */
  lemma {:induction false} RunKeeps(cfg: Config, a: World, es: seq<Event>)
    requires Ready(cfg, a) && Fair(cfg, a, es)
    ensures Keeps(cfg, a, Run(cfg, a, es))
    decreases |es|
  {
    hide Ready, Keeps, Allowed, Step;
    if es == [] {
      EntryKeeps(cfg, a);
    } else {
      RunKeeps(cfg, a, es[..|es| - 1]);
      EventKeeps(cfg, a, Run(cfg, a, es[..|es| - 1]), es[|es| - 1]);
    }
  }
}
