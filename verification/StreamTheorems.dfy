/** When a single-connection download can end in a file that mixes versions, or
    stops short: exact conditions, each with a run that shows its failure. */
module StreamTheorems {
  import opened Prelude
  import opened Resume
  import opened StreamSession
  import opened StreamSafety

  /** The file put in place is not the version then served. */
  predicate Wrong(cfg: Config, w: World) {
    w.s.final.Some? && w.now < |cfg.versions| && w.s.final.value != cfg.versions[w.now].content
  }

  ghost predicate Reaches(cfg: Config, a: World, w: World) { exists es :: Fair(cfg, a, es) && Run(cfg, a, es) == w }

  ghost predicate CanGoWrong(cfg: Config, a: World) { exists w :: Reaches(cfg, a, w) && Wrong(cfg, w) }

  /** A session about to start, over files whose sizes fit 64 bits. */
  ghost predicate Begins(cfg: Config, a: World) {
    && DistinctTags(cfg.versions) && a.now < |cfg.versions|
    && (forall i :: 0 <= i < |cfg.versions| ==> |cfg.versions[i].content| < TWO_64)
    && a.s == Entry(a.s.part, a.s.cell, a.s.stored)
  }

  lemma Stays(cfg: Config, a: World)
    ensures Reaches(cfg, a, a)
  {
    assert Fair(cfg, a, []) && Run(cfg, a, []) == a;
  }

  lemma Onward(cfg: Config, a: World, w: World, e: Event)
    requires Reaches(cfg, a, w) && Allowed(cfg, w, e)
    ensures Reaches(cfg, a, Step(cfg, w, e))
  {
    hide Allowed, Step;
    var es :| Fair(cfg, a, es) && Run(cfg, a, es) == w;
    RunSnoc(cfg, a, es, e);
  }

  lemma ReachedKeeps(cfg: Config, a: World, w: World)
    requires Ready(cfg, a) && Reaches(cfg, a, w)
    ensures Keeps(cfg, a, w)
  {
    hide Ready, Keeps;
    var es :| Fair(cfg, a, es) && Run(cfg, a, es) == w;
    RunKeeps(cfg, a, es);
  }

  // -------------------------------------------- where an answer came from

  function AnswerOf(s: Session): Option<GetReply> {
    match s.phase
    case Writing(reply, _, _, _) => Some(reply)
    case Written(reply) => Some(reply)
    case Placed(reply) => Some(reply)
    case _ => None
  }

  /** An answer that makes something else than the version served: a partial one
      of a server that stops short, after a retry or to a resumed session. */
  ghost predicate FromShort(cfg: Config, a: World, v: Version, ranges: bool, cell: Validators, attempt: nat, r: GetReply) {
    && (r.Answered? && r.status == 206 ==>
          r.contentRange.Some? && ParseContentRange(r.contentRange.value).Some? && LastByte(r) < |v.content|)
    && (Expected(v, r) != v.content ==>
          && cfg.subsets && 2 <= |Expected(v, r)| < |v.content| && ranges && cell == ValidatorsOf(v)
          && (attempt == 0 ==> Resumed(a, v) && |a.s.part.value| < |Expected(v, r)|))
  }

  /** The session that began as `a` resumes its partial file if it meets `v`. */
  predicate Resumed(a: World, v: Version) {
    a.s.part.Some? && a.s.part.value != [] && Passes(a.s.cell, v)
  }

  ghost predicate Sourced(cfg: Config, a: World, w: World) {
    && (w.now < |cfg.versions| && AnswerOf(w.s).Some? ==>
          FromShort(cfg, a, cfg.versions[w.now], Ranges(w.s), w.s.cell, w.s.attempt, AnswerOf(w.s).value))
    && (w.s.phase.Asking? && w.s.attempt == 0 && w.s.allowResume ==>
          w.s.part == a.s.part && a.s.part.Some? && a.s.part.value != [] && ValidatorsMatch(a.s.cell, w.s.cell))
  }

  lemma AskIsSourced(cfg: Config, a: World, w: World, e: Event)
    requires Ready(cfg, a) && Keeps(cfg, a, w) && Sourced(cfg, a, w) && e.Ask? && Allowed(cfg, w, e)
    ensures Sourced(cfg, a, Step(cfg, w, e))
  {
    hide Honest, Guarded, Streams, ParseContentRange, ValidateRangedResponse, Concat, Expected;
    var r, v, s' := e.answer, cfg.versions[e.now], OnAsk(w.s, e.answer, e.opens);
    if s'.phase.Writing? {
      if From(w.s) > 0 {
        AcceptedBody(v, From(w.s), IfRange(w.s), cfg.subsets, r, Context(IfRange(w.s).Some?, w.s.cell, r.validators));
        assert Expected(v, r) == v.content[..LastByte(r) + 1] by { PartialIsExpected(v, r); }
        SameTag(cfg, a, w, e.now);
      } else {
        FreshBody(v, IfRange(w.s), cfg.subsets, r);
      }
    }
  }

  lemma PartialIsExpected(v: Version, r: GetReply)
    requires r.Answered? && r.status == 206 && r.contentRange.Some? && ParseContentRange(r.contentRange.value).Some?
    requires LastByte(r) < |v.content|
    ensures Expected(v, r) == v.content[..LastByte(r) + 1]
  {
  }

  /** The version whose tag a range request names is the version probed. */
  lemma SameTag(cfg: Config, a: World, w: World, n: nat)
    requires Orderly(cfg, a, w) && From(w.s) > 0 && w.now <= n < |cfg.versions|
    ensures IfRange(w.s).Some?
    ensures IfRange(w.s).value == cfg.versions[n].etag && DistinctTags(cfg.versions) ==> w.s.cell == ValidatorsOf(cfg.versions[n])
  {
  }

  lemma EventIsSourced(cfg: Config, a: World, w: World, e: Event)
    requires Ready(cfg, a) && Keeps(cfg, a, w) && Sourced(cfg, a, w) && Allowed(cfg, w, e)
    ensures Sourced(cfg, a, Step(cfg, w, e))
  {
    if e.Ask? {
      hide *;
      AskIsSourced(cfg, a, w, e);
    } else {
      hide FromShort, Guarded, Streams, Concat;
    }
  }

  lemma {:induction false} RunIsSourced(cfg: Config, a: World, es: seq<Event>)
    requires Ready(cfg, a) && Fair(cfg, a, es)
    ensures Sourced(cfg, a, Run(cfg, a, es))
    decreases |es|
  {
    hide Ready, Keeps, Allowed, Step;
    if es == [] {
      assert Sourced(cfg, a, a) by { EntryIsSourced(cfg, a); }
    } else {
      RunIsSourced(cfg, a, es[..|es| - 1]);
      RunKeeps(cfg, a, es[..|es| - 1]);
      EventIsSourced(cfg, a, Run(cfg, a, es[..|es| - 1]), es[|es| - 1]);
    }
  }

  lemma EntryIsSourced(cfg: Config, a: World)
    requires Ready(cfg, a)
    ensures Sourced(cfg, a, a)
  {
  }

  /** The file a session puts in place is the version served exactly when it was
      fetched from the start or the range it ended with reached the end. */
  lemma PlacedExactly(cfg: Config, a: World, w: World)
    requires Ready(cfg, a) && Reaches(cfg, a, w) && w.s.phase.Placed?
    ensures w.s.final.Some? && w.now < |cfg.versions|
    ensures w.s.phase.reply.Answered? && w.s.phase.reply.status == 206 ==>
      w.s.phase.reply.contentRange.Some? && ParseContentRange(w.s.phase.reply.contentRange.value).Some?
    ensures w.s.final.value == cfg.versions[w.now].content <==>
      !w.s.phase.reply.Answered? || w.s.phase.reply.status != 206 || LastByte(w.s.phase.reply) + 1 == |cfg.versions[w.now].content|
  {
    ReachedIsSourced(cfg, a, w);
    hide *;
    PlacedFile(cfg, a, w);
    ShortIsPart(cfg, a, cfg.versions[w.now], Ranges(w.s), w.s.cell, w.s.attempt, w.s.phase.reply);
  }

  lemma ReachedIsSourced(cfg: Config, a: World, w: World)
    requires Ready(cfg, a) && Reaches(cfg, a, w)
    ensures Keeps(cfg, a, w) && Sourced(cfg, a, w)
  {
    hide Ready, Keeps, Sourced;
    var es :| Fair(cfg, a, es) && Run(cfg, a, es) == w;
    RunKeeps(cfg, a, es);
    RunIsSourced(cfg, a, es);
  }

  lemma PlacedFile(cfg: Config, a: World, w: World)
    requires Keeps(cfg, a, w) && Sourced(cfg, a, w) && w.s.phase.Placed?
    ensures a.now <= w.now < |cfg.versions| && w.s.attempt <= cfg.maxAttempts
    ensures w.s.final == Some(Expected(cfg.versions[w.now], w.s.phase.reply))
    ensures FromShort(cfg, a, cfg.versions[w.now], Ranges(w.s), w.s.cell, w.s.attempt, w.s.phase.reply)
  {
    hide Expected, FromShort, Guarded;
  }

  lemma ShortIsPart(cfg: Config, a: World, v: Version, ranges: bool, cell: Validators, attempt: nat, r: GetReply)
    requires FromShort(cfg, a, v, ranges, cell, attempt, r)
    ensures r.Answered? && r.status == 206 ==>
      r.contentRange.Some? && ParseContentRange(r.contentRange.value).Some?
    ensures Expected(v, r) == v.content <==> !r.Answered? || r.status != 206 || LastByte(r) + 1 == |v.content|
  {
    hide ParseContentRange;
    if r.Answered? && r.status == 206 && LastByte(r) + 1 == |v.content| { assert v.content[..|v.content|] == v.content; }
  }

  // ------------------------------------------------------------- witness runs

  /** The answer of a server that sends bytes `from` to `end`. */
  function RangeReply(v: Version, from: nat, end: nat): GetReply
    requires from <= end < |v.content|
  {
    var body := v.content[from..end + 1];
    Answered(206, Some(ContentRange(from, end, Some(|v.content|))), Some(|body|), ValidatorsOf(v), [body], Ended)
  }

  lemma ConcatOne(chunk: seq<byte>)
    ensures Concat([chunk]) == chunk
  {
    assert [chunk][..0] == [];
  }

  lemma RangeReplyIsHonest(v: Version, from: nat, end: nat, subsets: bool, ctx: Context)
    requires 0 < from <= end < |v.content| < TWO_64 && (subsets || end == |v.content| - 1)
    ensures Honest(v, from, Some(v.etag), subsets, RangeReply(v, from, end))
    ensures ValidateRangedResponse(from, None, 206, RangeReply(v, from, end).contentRange, ctx).None?
  {
    hide ContentRange, ParseContentRange, Concat;
    ContentRangeRoundTrip(from, end, Some(|v.content|));
    ConcatOne(v.content[from..end + 1]);
  }

  /** A resumable session, answered with a range of the version it named, puts
      in place what it had followed by that range. */
  lemma RangedCompletes(cfg: Config, a: World, w: World, h: nat, end: nat) returns (w': World)
    requires Reaches(cfg, a, w) && w.s.phase.Asking? && From(w.s) > 0 && w.now <= h < |cfg.versions|
    requires w.s.cell.etag == Some(cfg.versions[h].etag)
    requires From(w.s) <= end < |cfg.versions[h].content| < TWO_64 && (cfg.subsets || end == |cfg.versions[h].content| - 1)
    ensures Reaches(cfg, a, w') && w'.now == h
    ensures w'.s.final == Some(w.s.part.value + cfg.versions[h].content[From(w.s)..end + 1])
    ensures w'.s.phase.Placed? && w'.s.probe == w.s.probe
  {
    hide Reaches, Honest, ValidateRangedResponse, ContentRange;
    var v, from := cfg.versions[h], From(w.s);
    var r := RangeReply(v, from, end);
    RangeReplyIsHonest(v, from, end, cfg.subsets, Context(IfRange(w.s).Some?, w.s.cell, r.validators));
    var w1 := OneChunk(cfg, a, w, h, r);
    Completes(cfg, a, w1);
    w' := Step(cfg, Step(cfg, w1, Finish), Place);
  }

  /** Storing an answer that comes in one piece. */
  lemma OneChunk(cfg: Config, a: World, w: World, h: nat, r: GetReply) returns (w': World)
    requires Reaches(cfg, a, w) && Allowed(cfg, w, Ask(h, r, true))
    requires r.Answered? && Success(r.status) && Verdict(w.s, r).None? && |r.chunks| == 1
    requires if r.length.Some? then r.length.value == |r.chunks[0]| else w.s.probe.None? || w.s.probe.value.length.None?
    ensures Reaches(cfg, a, w') && w'.now == h
    ensures var base := if From(w.s) > 0 && r.status == 206 then w.s.part.value else [];
      && w'.s == w.s.(part := Some(base + r.chunks[0]), touched := true, phase := w'.s.phase)
      && w'.s.phase == Writing(r, From(w.s), 1, if r.length.Some? then Some(From(w.s) + |r.chunks[0]|) else None)
  {
    hide Reaches, Honest, Verdict;
    Onward(cfg, a, w, Ask(h, r, true));
    var w1 := Step(cfg, w, Ask(h, r, true));
    Onward(cfg, a, w1, Chunk);
    w' := Step(cfg, w1, Chunk);
  }

  lemma Completes(cfg: Config, a: World, w: World)
    requires Reaches(cfg, a, w) && Enabled(w.s, Finish) && w.s.phase.reply.ending.Ended?
    requires w.s.phase.total.Some? ==> |w.s.part.value| == w.s.phase.total.value
    ensures var w' := Step(cfg, Step(cfg, w, Finish), Place);
      Reaches(cfg, a, w') && w'.now == w.now && w'.s.final == w.s.part && w'.s.phase.Placed? && w'.s.probe == w.s.probe
  {
    hide Reaches;
    Onward(cfg, a, w, Finish);
    Onward(cfg, a, Step(cfg, w, Finish), Place);
  }

  /** The answered probe of version `h`. */
  function Probed(v: Version): Option<HeadReply> { Some(HeadReply(None, true, ValidatorsOf(v))) }

  lemma ProbeReaches(cfg: Config, a: World, h: nat) returns (w: World)
    requires Begins(cfg, a) && a.now <= h < |cfg.versions|
    ensures Reaches(cfg, a, w) && w == World(h, OnProbe(a.s, Probed(cfg.versions[h])))
  {
    hide Reaches;
    Stays(cfg, a);
    Onward(cfg, a, a, Probe(h, Probed(cfg.versions[h])));
    w := Step(cfg, a, Probe(h, Probed(cfg.versions[h])));
  }

  // --------------------------------------------------------- exact conditions

  lemma MixedGoesWrong(cfg: Config, a: World)
    requires Begins(cfg, a) && CanMix(cfg.versions, a.s.cell, a.s.part, a.now)
    ensures CanGoWrong(cfg, a)
  {
    hide Reaches;
    var vs, p := cfg.versions, a.s.part.value;
    var h :| a.now <= h < |vs| && Passes(a.s.cell, vs[h]) && Mixes(p, vs[h]);
    var content := vs[h].content;
    var w := ProbeReaches(cfg, a, h);
    var w' := RangedCompletes(cfg, a, w, h, |content| - 1);
    assert (p + content[|p|..])[..|p|] == p;
    assert Wrong(cfg, w');
  }

  lemma BeginsIsReady(cfg: Config, a: World)
    requires Begins(cfg, a) && !CanMix(cfg.versions, a.s.cell, a.s.part, a.now)
    ensures Ready(cfg, a)
  {
  }

  /** From a server that sends all it is asked for: some run of a session ends
      in a file that is not the version served if and only if some version it
      may still meet passes the comparison of validators, is longer than the
      partial file and does not begin with it. */
  lemma SessionIsSafeExactly(cfg: Config, a: World)
    requires Begins(cfg, a) && !cfg.subsets
    ensures CanGoWrong(cfg, a) <==> CanMix(cfg.versions, a.s.cell, a.s.part, a.now)
  {
    hide Reaches, Expected;
    if CanMix(cfg.versions, a.s.cell, a.s.part, a.now) {
      MixedGoesWrong(cfg, a);
    } else {
      BeginsIsReady(cfg, a);
      hide Begins, Ready;
      forall w | Reaches(cfg, a, w) ensures !Wrong(cfg, w) {
        EndsShort(cfg, a, w);
      }
    }
  }

  /** What a caller can rely on: once the entity tag or the date that was given
      has changed for good, no run of a session ends in a wrong file. */
  lemma ChangedIsSafe(cfg: Config, a: World)
    requires Begins(cfg, a) && !cfg.subsets
    requires forall v :: a.now <= v < |cfg.versions| ==>
      || (a.s.cell.etag.Some? && a.s.cell.etag != Some(cfg.versions[v].etag))
      || (a.s.cell.lastModified.Some? && a.s.cell.lastModified != cfg.versions[v].lastModified)
    ensures !CanGoWrong(cfg, a)
  {
    hide CanGoWrong, Begins;
    SessionIsSafeExactly(cfg, a);
  }

  /** Without mixing, a wrong file is one that a partial answer stopped short. */
  lemma EndsShort(cfg: Config, a: World, w: World)
    requires Ready(cfg, a) && Reaches(cfg, a, w)
    ensures Wrong(cfg, w) ==>
      && cfg.subsets && a.now <= w.now < |cfg.versions|
      && var v := cfg.versions[w.now];
      && 2 < |v.content| && Ranges(w.s) && w.s.cell == ValidatorsOf(v) && w.s.phase.Placed?
      && (w.s.attempt > 0 ==> cfg.maxAttempts > 0)
      && (w.s.attempt == 0 ==> Resumed(a, v) && |a.s.part.value| + 1 < |v.content|)
  {
    ReachedIsSourced(cfg, a, w);
    assert w.s.final.Some? ==> w.s.phase.Placed?;
    hide Expected, Reaches, Keeps, Sourced, Ready;
    if w.s.phase.Placed? { PlacedFile(cfg, a, w); }
  }

  /** The session resumes when it meets `v`, with nothing left to fetch. */
  predicate Full(a: World, v: Version) { Resumed(a, v) && |v.content| <= |a.s.part.value| }

  /** A server that stops short can be believed: after a retry for any file of
      three bytes or more, unless a strict server ends the session before; or on
      resuming two bytes or more before the end. */
  ghost predicate CanStopShort(cfg: Config, a: World) {
    exists h :: a.now <= h < |cfg.versions| && StopsShort(cfg, a, cfg.versions[h])
  }

  predicate StopsShort(cfg: Config, a: World, v: Version) {
    || (cfg.maxAttempts > 0 && |v.content| > 2 && !(cfg.strict && Full(a, v)))
    || (Resumed(a, v) && |a.s.part.value| + 1 < |v.content|)
  }

  /** A strict server has refused, or will refuse, to go on with a partial file
      that is as long as the version probed. */
  ghost predicate Refused(cfg: Config, a: World, w: World) {
    && a.now <= w.now < |cfg.versions| && (w.s.phase.Opening? ==> w.s == a.s)
    && (Ranges(w.s) && w.s.cell == ValidatorsOf(cfg.versions[w.now]) && Full(a, cfg.versions[w.now]) ==>
          w.s.phase.Failed? || (w.s.phase.Asking? && w.s.allowResume && w.s.part == a.s.part))
  }

  lemma StaysRefused(cfg: Config, a: World, w: World, e: Event)
    requires Ready(cfg, a) && cfg.strict && Orderly(cfg, a, w) && Refused(cfg, a, w) && Allowed(cfg, w, e)
    ensures Refused(cfg, a, Step(cfg, w, e))
  {
    hide Honest, ValidatorsMatch, Verdict, OnChunk, OnFault, OnFinish, CanMix;
    if e.Probe? { MatchIsPass(w.s.cell, cfg.versions[e.now]); }
    if e.Ask? {
      if Ranges(w.s) && w.s.cell == ValidatorsOf(cfg.versions[e.now]) { SameVersion(cfg, a, w, e.now); }
    } else if !e.Probe? {
      ProbeStays(cfg.maxAttempts, w.s, e);
    }
  }

  /** The version probed is served only until it changes. */
  lemma SameVersion(cfg: Config, a: World, w: World, n: nat)
    requires DistinctTags(cfg.versions) && Orderly(cfg, a, w) && w.s.probe.Some? && w.now <= n < |cfg.versions|
    requires w.s.cell == ValidatorsOf(cfg.versions[n])
    ensures n == w.now
  {
  }

  lemma {:induction false} RunIsRefused(cfg: Config, a: World, es: seq<Event>)
    requires Ready(cfg, a) && cfg.strict && Fair(cfg, a, es)
    ensures Refused(cfg, a, Run(cfg, a, es))
    decreases |es|
  {
    hide Ready, Orderly, Guarded, Streams, Allowed, Step, Refused;
    if es == [] {
      EntryIsRefused(cfg, a);
    } else {
      RunIsRefused(cfg, a, es[..|es| - 1]);
      RunKeeps(cfg, a, es[..|es| - 1]);
      StaysRefused(cfg, a, Run(cfg, a, es[..|es| - 1]), es[|es| - 1]);
    }
  }

  lemma EntryIsRefused(cfg: Config, a: World)
    requires Ready(cfg, a)
    ensures Refused(cfg, a, a)
  {
    hide DistinctTags, CanMix;
  }

  lemma ReachedIsRefused(cfg: Config, a: World, w: World)
    requires Ready(cfg, a) && cfg.strict && Reaches(cfg, a, w)
    ensures Refused(cfg, a, w)
  {
    hide Ready, Refused;
    var es :| Fair(cfg, a, es) && Run(cfg, a, es) == w;
    RunIsRefused(cfg, a, es);
  }

  /** The same for a server that may send less than it is asked for. */
  lemma SubsetsAreSafeExactly(cfg: Config, a: World)
    requires Begins(cfg, a) && cfg.subsets
    ensures CanGoWrong(cfg, a) <==> CanMix(cfg.versions, a.s.cell, a.s.part, a.now) || CanStopShort(cfg, a)
  {
    hide Reaches, Full;
    if CanMix(cfg.versions, a.s.cell, a.s.part, a.now) {
      MixedGoesWrong(cfg, a);
    } else if CanStopShort(cfg, a) {
      ShortGoesWrong(cfg, a);
    } else {
      BeginsIsReady(cfg, a);
      forall w | Reaches(cfg, a, w) ensures !Wrong(cfg, w) {
        EndsShort(cfg, a, w);
        if cfg.strict && Wrong(cfg, w) {
          ReachedIsRefused(cfg, a, w);
        }
      }
    }
  }

  lemma ShortGoesWrong(cfg: Config, a: World)
    requires Begins(cfg, a) && cfg.subsets && CanStopShort(cfg, a)
    ensures CanGoWrong(cfg, a)
  {
    hide Reaches;
    var h :| a.now <= h < |cfg.versions| && StopsShort(cfg, a, cfg.versions[h]);
    var v := cfg.versions[h];
    var w := ProbeReaches(cfg, a, h);
    if Resumed(a, v) && |a.s.part.value| + 1 < |v.content| {
      var w' := RangedCompletes(cfg, a, w, h, |a.s.part.value|);
      assert |w'.s.final.value| < |v.content|;
      assert Wrong(cfg, w');
    } else {
      var w1 := FreshReaches(cfg, a, w, h);
      var w2 := BreaksAfter(cfg, a, w1, h, 1, Other(true));
      var w' := RangedCompletes(cfg, a, w2, h, 1);
      assert |w'.s.final.value| < |v.content|;
      assert Wrong(cfg, w');
    }
  }

  /** The full answer. */
  function FullReply(v: Version): GetReply { Answered(200, None, None, ValidatorsOf(v), [v.content], Ended) }

  /** A full answer makes a resumed session start over. */
  lemma FreshReaches(cfg: Config, a: World, w: World, h: nat) returns (w': World)
    requires Reaches(cfg, a, w) && w.s.phase.Asking? && w.now <= h < |cfg.versions|
    requires cfg.strict ==> From(w.s) == 0 || From(w.s) < |cfg.versions[h].content|
    ensures Reaches(cfg, a, w') && w'.now <= h && From(w'.s) == 0
    ensures w'.s == w.s.(allowResume := w'.s.allowResume)
  {
    hide Reaches;
    if From(w.s) == 0 { return w; }
    var r := FullReply(cfg.versions[h]);
    ConcatOne(cfg.versions[h].content);
    Onward(cfg, a, w, Ask(h, r, true));
    w' := Step(cfg, w, Ask(h, r, true));
  }

  /** An answer to a request for the whole file that breaks off after `n` bytes. */
  function BrokenReply(v: Version, n: nat, e: Error): GetReply
    requires n <= |v.content|
  {
    Answered(200, None, None, ValidatorsOf(v), [v.content[..n]], Broken(e))
  }

  lemma BreaksAfter(cfg: Config, a: World, w: World, h: nat, n: nat, e: Error) returns (w': World)
    requires Reaches(cfg, a, w) && w.s.phase.Asking? && From(w.s) == 0 && w.now <= h < |cfg.versions|
    requires n <= |cfg.versions[h].content| && (w.s.probe.Some? ==> w.s.probe.value.length.None?)
    ensures Reaches(cfg, a, w') && w'.now == h
    ensures var s := w.s.(part := Some(cfg.versions[h].content[..n]), touched := true);
      if Retryable(e) && w.s.attempt < cfg.maxAttempts then
        w'.s == s.(attempt := w.s.attempt + 1, allowResume := Ranges(w.s), phase := Asking)
      else w'.s == s.(phase := Failed(e))
  {
    hide Reaches;
    var r := BrokenReply(cfg.versions[h], n, e);
    ConcatOne(cfg.versions[h].content[..n]);
    var w1 := OneChunk(cfg, a, w, h, r);
    assert [] + r.chunks[0] == r.chunks[0];
    Onward(cfg, a, w1, Finish);
    w' := Step(cfg, w1, Finish);
  }

  // ------------------------------------------------------ a file already whole

  /** A file is put in place by a session whose server does ranges. */
  ghost predicate CanFinish(cfg: Config, a: World) {
    exists w :: Reaches(cfg, a, w) && w.s.phase.Placed? && Ranges(w.s)
  }

  ghost predicate Stuck(cfg: Config, a: World, w: World) {
    && a.now <= w.now < |cfg.versions|
    && (w.s.phase.Opening? ==> w.s == a.s)
    && (Ranges(w.s) ==> w.s.phase.Failed? || (w.s.phase.Asking? && w.s.allowResume && w.s.part == a.s.part))
  }

  lemma {:induction false} FullIsStuck(cfg: Config, a: World, es: seq<Event>)
    requires Begins(cfg, a) && cfg.strict && Fair(cfg, a, es)
    requires forall v :: a.now <= v < |cfg.versions| ==> Full(a, cfg.versions[v])
    ensures Stuck(cfg, a, Run(cfg, a, es))
    decreases |es|
  {
    hide DistinctTags, Honest, ValidatorsMatch, Verdict, StreamFails;
    if es != [] {
      FullIsStuck(cfg, a, es[..|es| - 1]);
      var w, e := Run(cfg, a, es[..|es| - 1]), es[|es| - 1];
      hide Fair, Run;
      StaysStuck(cfg, a, w, e);
    }
  }

  lemma StaysStuck(cfg: Config, a: World, w: World, e: Event)
    requires Begins(cfg, a) && cfg.strict && Stuck(cfg, a, w) && Allowed(cfg, w, e)
    requires forall v :: a.now <= v < |cfg.versions| ==> Full(a, cfg.versions[v])
    ensures Stuck(cfg, a, Step(cfg, w, e))
  {
    hide DistinctTags, Honest, ValidatorsMatch, Verdict, OnChunk, OnFault, OnFinish;
    if e.Probe? { MatchIsPass(w.s.cell, cfg.versions[e.now]); }
    if e.Ask? || e.Probe? {
      assert Full(a, cfg.versions[e.now]);
    } else {
      ProbeStays(cfg.maxAttempts, w.s, e);
    }
  }

  lemma ProbeStays(maxAttempts: nat, s: Session, e: Event)
    requires Enabled(s, e) && !e.Probe? && !e.Ask?
    ensures var s' := Next(maxAttempts, s, e); s'.probe == s.probe && s'.cell == s.cell && !s'.phase.Opening?
  {
    hide Retryable, NextChunk, OnProbe, OnAsk;
  }

  lemma NeverFinishes(cfg: Config, a: World, w: World)
    requires Begins(cfg, a) && cfg.strict && Reaches(cfg, a, w)
    requires forall v :: a.now <= v < |cfg.versions| ==> Full(a, cfg.versions[v])
    ensures !(w.s.phase.Placed? && Ranges(w.s))
  {
    hide Begins, Full;
    var es :| Fair(cfg, a, es) && Run(cfg, a, es) == w;
    FullIsStuck(cfg, a, es);
  }

  lemma NotFullFinishes(cfg: Config, a: World, h: nat)
    requires Begins(cfg, a) && a.now <= h < |cfg.versions| && !Full(a, cfg.versions[h])
    ensures CanFinish(cfg, a)
  {
    hide Reaches;
    var v := cfg.versions[h];
    var w := ProbeReaches(cfg, a, h);
    var w';
    if Resumed(a, v) {
      w' := RangedCompletes(cfg, a, w, h, |v.content| - 1);
    } else {
      ConcatOne(v.content);
      var w1 := OneChunk(cfg, a, w, h, FullReply(v));
      Completes(cfg, a, w1);
      w' := Step(cfg, Step(cfg, w1, Finish), Place);
    }
    assert w'.s.phase.Placed? && Ranges(w'.s);
  }

  /** With a strict server, a session over a partial file is able to put a file
      in place exactly when it may meet a version that it does not resume or
      that is longer: a whole partial file, left by a kill before the rename,
      is asked to be continued, and the refusal ends the session. */
  lemma FullPartExactly(cfg: Config, a: World)
    requires Begins(cfg, a) && cfg.strict
    ensures CanFinish(cfg, a) <==> exists v :: a.now <= v < |cfg.versions| && !Full(a, cfg.versions[v])
  {
    hide Reaches, Full;
    if v :| a.now <= v < |cfg.versions| && !Full(a, cfg.versions[v]) {
      NotFullFinishes(cfg, a, v);
    } else {
      forall w | Reaches(cfg, a, w) ensures !(w.s.phase.Placed? && Ranges(w.s)) { NeverFinishes(cfg, a, w); }
    }
  }

  // ------------------------------------------- the next attempt, same process

  /** The next attempt of the same process reads the shared cell. */
  function Again(w: World): World { World(w.now, Entry(w.s.part, w.s.cell, w.s.stored)) }

  lemma AgainBegins(cfg: Config, a: World, w: World)
    requires Begins(cfg, a) && a.now <= w.now < |cfg.versions|
    ensures Begins(cfg, Again(w))
  {
  }

  /** After an attempt whose probe was answered, the next can go wrong exactly
      when the first neither continued nor truncated the partial file, and that
      file mixes with the version the first probed. */
  lemma RetryIsSafeExactly(cfg: Config, a: World, w: World)
    requires Begins(cfg, a) && Ready(cfg, a) && !cfg.subsets && Reaches(cfg, a, w) && w.s.probe.Some?
    ensures CanGoWrong(cfg, Again(w)) <==> !w.s.touched && CanMix(cfg.versions, w.s.cell, a.s.part, w.now)
  {
    ReachedKeeps(cfg, a, w);
    hide CanMix, CanGoWrong, Streams;
    AgainBegins(cfg, a, w);
    SessionIsSafeExactly(cfg, Again(w));
  }

  /** An attempt that fails with its probe answered, after which the next
      attempt of the same process can go wrong. */
  ghost predicate FailsThenMixes(cfg: Config, a: World, w: World) {
    Reaches(cfg, a, w) && w.s.phase.Failed? && w.s.probe.Some? && CanGoWrong(cfg, Again(w))
  }

  /** Publishing the probed validators before the stale file is truncated: two
      attempts of one process can go wrong exactly when they could if no
      validators had been stored at all. */
  lemma TwoAttemptsExactly(cfg: Config, a: World)
    requires Begins(cfg, a) && !cfg.subsets
    ensures (exists w :: FailsThenMixes(cfg, a, w)) <==> CanMix(cfg.versions, UNKNOWN, a.s.part, a.now)
  {
    hide Reaches, CanGoWrong;
    if CanMix(cfg.versions, UNKNOWN, a.s.part, a.now) {
      PublishedEarly(cfg, a);
    } else {
      BeginsIsReady(cfg, a);
      forall w ensures !FailsThenMixes(cfg, a, w) {
        if FailsThenMixes(cfg, a, w) { RetryNeeds(cfg, a, w); }
      }
    }
  }

  /** A request that goes unanswered ends the session and leaves the file. */
  lemma AskFails(cfg: Config, a: World, w: World) returns (w': World)
    requires Reaches(cfg, a, w) && w.s.phase.Asking? && w.now < |cfg.versions|
    ensures Reaches(cfg, a, w') && w' == w.(s := w.s.(phase := Failed(Other(true))))
  {
    hide Reaches;
    Onward(cfg, a, w, Ask(w.now, Unanswered(Other(true)), true));
    w' := Step(cfg, w, Ask(w.now, Unanswered(Other(true)), true));
  }

  lemma RetryNeeds(cfg: Config, a: World, w: World)
    requires Begins(cfg, a) && Ready(cfg, a) && !cfg.subsets && FailsThenMixes(cfg, a, w)
    ensures CanMix(cfg.versions, UNKNOWN, a.s.part, a.now)
  {
    hide Reaches, CanGoWrong, Guarded, Streams;
    RetryIsSafeExactly(cfg, a, w);
    ReachedKeeps(cfg, a, w);
  }

  lemma PublishedEarly(cfg: Config, a: World)
    requires Begins(cfg, a) && !cfg.subsets && CanMix(cfg.versions, UNKNOWN, a.s.part, a.now)
    ensures exists w :: FailsThenMixes(cfg, a, w)
  {
    hide Reaches, CanGoWrong;
    var vs := cfg.versions;
    var h :| a.now <= h < |vs| && Passes(UNKNOWN, vs[h]) && Mixes(a.s.part.value, vs[h]);
    var w := ProbeReaches(cfg, a, h);
    var w' := AskFails(cfg, a, w);
    AgainBegins(cfg, a, w');
    assert Passes(ValidatorsOf(vs[h]), vs[h]);
    assert CanMix(vs, w'.s.cell, w'.s.part, h);
    SessionIsSafeExactly(cfg, Again(w'));
    assert FailsThenMixes(cfg, a, w');
  }

  /** An attempt that fails with its probe unanswered, after which the next
      attempt of the same process can go wrong. */
  ghost predicate BlindThenMixes(cfg: Config, a: World, w: World) {
    Reaches(cfg, a, w) && w.s.phase.Failed? && w.s.probe.None? && CanGoWrong(cfg, Again(w))
  }

  /** Of two versions to come, the earlier differs from the later in a byte
      that is not the last of the later. */
  ghost predicate CanChange(vs: History, now: nat) {
    exists g: nat, h: nat, i: nat :: now <= g <= h < |vs| && DifferAt(vs[g].content, vs[h].content, i)
  }

  predicate DifferAt(a: seq<byte>, b: seq<byte>, i: nat) { i < |a| && i + 1 < |b| && a[i] != b[i] }

  /** A prefix that mixes shows such a byte, and such a byte makes one. */
  lemma MixedPrefix(a: seq<byte>, p: seq<byte>, v: Version) returns (i: nat)
    requires p <= a && Mixes(p, v)
    ensures DifferAt(a, v.content, i)
  {
    i :| i < |p| && p[i] != v.content[i];
  }

  ghost predicate PartOfLater(vs: History, part: Option<seq<byte>>, from: nat, now: nat) {
    exists g :: from <= g <= now && g < |vs| && part.Some? && part.value <= vs[g].content
  }

  /** What an attempt without an answered probe leaves. */
  ghost predicate Blind(cfg: Config, a: World, w: World) {
    w.s.probe.None? && w.s.touched ==> w.s.part.None? || PartOfLater(cfg.versions, w.s.part, a.now, w.now)
  }

  lemma EventIsBlind(cfg: Config, a: World, w: World, e: Event)
    requires Ready(cfg, a) && Keeps(cfg, a, w) && Blind(cfg, a, w) && Allowed(cfg, w, e)
    ensures Blind(cfg, a, Step(cfg, w, e))
  {
    assert a.now <= w.now < |cfg.versions| && Enabled(w.s, e);
    if w.s.phase.Writing? { ChunkFits(cfg.versions[w.now], w.s); }
    assert e.Ask? ==> w.now <= e.now < |cfg.versions|;
    assert e.Probe? ==> !w.s.touched && (OnProbe(w.s, e.probed).touched ==> e.probed.Some?);
    hide Ready, Keeps, Allowed, Streams;
    if e.Ask? {
      AskIsBlind(cfg, a, w, e);
    } else if w.s.phase.Writing? {
      StaysPrefix(cfg, w, e);
    }
  }

  lemma AskIsBlind(cfg: Config, a: World, w: World, e: Event)
    requires e.Ask? && w.s.phase.Asking? && Blind(cfg, a, w) && a.now <= w.now <= e.now < |cfg.versions|
    ensures Blind(cfg, a, Step(cfg, w, e))
  {
    hide Verdict;
    var s' := OnAsk(w.s, e.answer, e.opens);
    if s'.phase.Writing? && s'.probe.None? { assert s'.part == Some([]) && [] <= cfg.versions[e.now].content; }
  }

  lemma StaysPrefix(cfg: Config, w: World, e: Event)
    requires w.now < |cfg.versions| && w.s.phase.Writing? && Enabled(w.s, e) && w.s.part.Some?
    requires w.s.part.value + NextChunk(w.s) <= cfg.versions[w.now].content
    ensures var w' := Step(cfg, w, e);
      w'.now == w.now && w'.s.part.Some? && w'.s.part.value <= cfg.versions[w.now].content
  {
  }

  lemma {:induction false} RunIsBlind(cfg: Config, a: World, es: seq<Event>)
    requires Ready(cfg, a) && Fair(cfg, a, es)
    ensures Blind(cfg, a, Run(cfg, a, es))
    decreases |es|
  {
    hide Ready, Keeps, Allowed, Step;
    if es == [] {
      assert !a.s.touched by { EntryIsUntouched(cfg, a); }
    } else {
      RunIsBlind(cfg, a, es[..|es| - 1]);
      RunKeeps(cfg, a, es[..|es| - 1]);
      EventIsBlind(cfg, a, Run(cfg, a, es[..|es| - 1]), es[|es| - 1]);
    }
  }

  lemma EntryIsUntouched(cfg: Config, a: World)
    requires Ready(cfg, a)
    ensures !a.s.touched
  {
  }

  /** A probe that goes unanswered erases the validators: from then on the next
      attempt can go wrong exactly when the old partial file mixes with any
      version to come, or of two versions to come the earlier differs from the
      later in a byte that is not the last of the later. */
  lemma UnansweredExactly(cfg: Config, a: World)
    requires Begins(cfg, a) && Ready(cfg, a) && !cfg.subsets
    ensures (exists w :: BlindThenMixes(cfg, a, w)) <==>
      CanMix(cfg.versions, UNKNOWN, a.s.part, a.now) || CanChange(cfg.versions, a.now)
  {
    hide Reaches, CanGoWrong;
    if CanMix(cfg.versions, UNKNOWN, a.s.part, a.now) || CanChange(cfg.versions, a.now) {
      ErasedMixes(cfg, a);
    } else {
      forall w ensures !BlindThenMixes(cfg, a, w) {
        if BlindThenMixes(cfg, a, w) { BlindNeeds(cfg, a, w); }
      }
    }
  }

  lemma BlindNeeds(cfg: Config, a: World, w: World)
    requires Begins(cfg, a) && Ready(cfg, a) && !cfg.subsets && BlindThenMixes(cfg, a, w)
    ensures CanMix(cfg.versions, UNKNOWN, a.s.part, a.now) || CanChange(cfg.versions, a.now)
  {
    var vs := cfg.versions;
    var es :| Fair(cfg, a, es) && Run(cfg, a, es) == w;
    RunKeeps(cfg, a, es);
    RunIsBlind(cfg, a, es);
    hide Fair, Run, CanGoWrong, Streams, Guarded;
    AgainBegins(cfg, a, w);
    SessionIsSafeExactly(cfg, Again(w));
    hide Begins;
    var h :| w.now <= h < |vs| && Passes(w.s.cell, vs[h]) && Mixes(w.s.part.value, vs[h]);
    if w.s.touched {
      var g :| a.now <= g <= w.now && g < |vs| && w.s.part.value <= vs[g].content;
      var i := MixedPrefix(vs[g].content, w.s.part.value, vs[h]);
    }
  }

  lemma ErasedMixes(cfg: Config, a: World)
    requires Begins(cfg, a) && !cfg.subsets
    requires CanMix(cfg.versions, UNKNOWN, a.s.part, a.now) || CanChange(cfg.versions, a.now)
    ensures exists w :: BlindThenMixes(cfg, a, w)
  {
    hide Reaches, CanGoWrong;
    var vs := cfg.versions;
    Stays(cfg, a);
    Onward(cfg, a, a, Probe(a.now, None));
    var w := Step(cfg, a, Probe(a.now, None));
    var w';
    if CanMix(vs, UNKNOWN, a.s.part, a.now) {
      w' := AskFails(cfg, a, w);
    } else {
      var g: nat, h: nat, i: nat :| a.now <= g <= h < |vs| && DifferAt(vs[g].content, vs[h].content, i);
      w' := BreaksAfter(cfg, a, w, g, i + 1, Other(false));
      assert Mixes(vs[g].content[..i + 1], vs[h]);
      assert Passes(UNKNOWN, vs[h]);
    }
    AgainBegins(cfg, a, w');
    SessionIsSafeExactly(cfg, Again(w'));
    assert BlindThenMixes(cfg, a, w');
  }

  // --------------------------------------------- the next session, a new process

  /** A new process is given what was stored. */
  function Restarted(w: World, now: nat): World { World(now, Entry(w.s.part, w.s.stored, w.s.stored)) }

  /** What was stored with an entity tag is of a version already served and
      keeps the partial file from being mixed. */
  ghost predicate Insured(vs: History, w: World) {
    w.s.stored.etag.Some? ==> FromPast(vs, w.s.stored, w.now) && !CanMix(vs, w.s.stored, w.s.part, w.now)
  }

  /** What can be checked before a session starts: an entity tag is stored, or
      there is nothing to continue. */
  predicate Covered(s: Session) { s.stored.etag.Some? || s.part.None? || s.part.value == [] }

  /** Wherever a session is killed, what it leaves is insured. */
  lemma KilledIsInsured(cfg: Config, a: World, w: World)
    requires Ready(cfg, a) && a.s.cell == a.s.stored && Insured(cfg.versions, a) && Reaches(cfg, a, w)
    ensures Insured(cfg.versions, w) && a.now <= w.now < |cfg.versions|
  {
    ReachedKeeps(cfg, a, w);
    hide CanMix, Streams, Reaches;
    if w.s.stored.etag.Some? && !w.s.reported { PastStays(cfg.versions, a.s.stored, a.now, w.now); }
  }

  lemma InsuredIsReady(cfg: Config, w: World, now: nat)
    requires DistinctTags(cfg.versions) && Insured(cfg.versions, w) && Covered(w.s) && w.now <= now < |cfg.versions|
    ensures Ready(cfg, Restarted(w, now)) && Insured(cfg.versions, Restarted(w, now))
  {
    if w.s.stored.etag.Some? {
      PastStays(cfg.versions, w.s.stored, w.now, now);
      if CanMix(cfg.versions, w.s.stored, w.s.part, now) { MixLater(cfg.versions, w.s.stored, w.s.part, w.now, now); }
    }
  }

  /** Any number of sessions of one download, each killed or ended anywhere and
      followed by a new process at some later time. */
  ghost predicate Lives(cfg: Config, a: World, ends: seq<World>)
    decreases |ends|
  {
    ends == []
    || (Reaches(cfg, a, ends[0])
        && (|ends| == 1
            || (Covered(ends[0].s) && exists now ::
              ends[0].now <= now < |cfg.versions| && Lives(cfg, Restarted(ends[0], now), ends[1..]))))
  }

  /** Over any number of sessions, if each starts with an entity tag stored or
      nothing to continue, every file put in place is the version then served. */
  lemma {:induction false} CoveredSessionsAreSafe(cfg: Config, a: World, ends: seq<World>, k: nat)
    requires Ready(cfg, a) && a.s.cell == a.s.stored && Insured(cfg.versions, a) && !cfg.subsets
    requires Lives(cfg, a, ends) && k < |ends|
    ensures !Wrong(cfg, ends[k])
    decreases |ends|
  {
    hide Reaches, Wrong, Insured, Covered, Ready;
    if k == 0 {
      EndsShort(cfg, a, ends[0]);
    } else {
      var now :| ends[0].now <= now < |cfg.versions| && Lives(cfg, Restarted(ends[0], now), ends[1..]);
      KilledIsInsured(cfg, a, ends[0]);
      assert DistinctTags(cfg.versions) by { ReadyIsDistinct(cfg, a); }
      InsuredIsReady(cfg, ends[0], now);
      CoveredSessionsAreSafe(cfg, Restarted(ends[0], now), ends[1..], k - 1);
    }
  }

  lemma ReadyIsDistinct(cfg: Config, a: World)
    requires Ready(cfg, a)
    ensures DistinctTags(cfg.versions)
  {
  }

  /** Some future in which a session that starts while `v` is served, with
      `given` stored, goes wrong. */
  ghost predicate SomeFutureIsWrong(v: Version, part: seq<byte>, given: Validators, strict: bool, maxAttempts: nat) {
    exists vs :: WrongIn(vs, v, part, given, strict, maxAttempts)
  }

  ghost predicate WrongIn(vs: History, v: Version, part: seq<byte>, given: Validators, strict: bool, maxAttempts: nat) {
    var cfg, a := Config(vs, false, strict, maxAttempts), World(0, Entry(Some(part), given, given));
    vs != [] && vs[0] == v && Begins(cfg, a) && CanGoWrong(cfg, a)
  }

  /** That check is the right one: for a partial file of version `v` under
      validators that match `v`, no future makes the session go wrong exactly
      when they hold an entity tag. */
  lemma StoredTagExactly(v: Version, part: seq<byte>, given: Validators, strict: bool, maxAttempts: nat)
    requires 0 < |part| < |v.content| < TWO_64 && part <= v.content && Passes(given, v)
    ensures SomeFutureIsWrong(v, part, given, strict, maxAttempts) <==> given.etag.None?
  {
    hide CanGoWrong;
    if given.etag.None? {
      var other := Version(seq(|part| + 1, _ => if part[0] == 0 then 1 else 0), v.etag + [0], v.lastModified);
      var vs := [v, other];
      assert other.etag != v.etag && other.content[0] != part[0];
      var cfg, a := Config(vs, false, strict, maxAttempts), World(0, Entry(Some(part), given, given));
      assert Begins(cfg, a);
      assert Passes(given, vs[1]) && Mixes(part, vs[1]);
      SessionIsSafeExactly(cfg, a);
      assert WrongIn(vs, v, part, given, strict, maxAttempts);
    } else {
      forall vs ensures !WrongIn(vs, v, part, given, strict, maxAttempts) {
        if WrongIn(vs, v, part, given, strict, maxAttempts) {
          SessionIsSafeExactly(Config(vs, false, strict, maxAttempts), World(0, Entry(Some(part), given, given)));
        }
      }
    }
  }
}
