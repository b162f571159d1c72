/** The single-connection download as a state machine over small steps: one
    session probes the server, resumes or starts a partial file, and retries,
    while the remote file may change before any answer. */
module StreamSession {
  import opened Prelude
  import opened Resume

  // ------------------------------------------------------------- the server

  /** The remote file through time. Every version has its own entity tag. */
  datatype Version = Version(content: seq<byte>, etag: Header, lastModified: Option<Header>)

  type History = seq<Version>

  predicate DistinctTags(vs: History) { forall i, j :: 0 <= i < j < |vs| ==> vs[i].etag != vs[j].etag }

  function ValidatorsOf(v: Version): Validators { Validators(Some(v.etag), v.lastModified) }

  const UNKNOWN: Validators := Validators(None, None)

  datatype HeadReply = HeadReply(length: Option<nat>, ranges: bool, validators: Validators)

  datatype Ending = Ended | Broken(error: Error)

  datatype GetReply =
    | Unanswered(error: Error)
    | Answered(status: nat, contentRange: Option<Header>, length: Option<nat>, validators: Validators,
               chunks: seq<seq<byte>>, ending: Ending)

  predicate Success(status: nat) { 200 <= status < 300 }

  /** The body an answer ought to have. */
  function Whole(v: Version, r: GetReply): seq<byte> {
    if r.Answered? && r.status == 206 && r.contentRange.Some? && ParseContentRange(r.contentRange.value).Some? then
      var span := ParseContentRange(r.contentRange.value).value;
      if span.start <= span.end < |v.content| then v.content[span.start..span.end + 1] else []
    else v.content
  }

  /** An honest answer about version `v`: a partial one only to a range request
      whose If-Range, if any, names `v`; the body breaks off anywhere but never
      overruns; and when its length is not known it ends cleanly only in full.
      `subsets` permits a partial answer that stops before the end of the file
      (section 15.3.7 of RFC 9110). */
  ghost predicate Honest(v: Version, from: nat, ifRange: Option<Header>, subsets: bool, r: GetReply) {
    r.Answered? && Success(r.status) ==>
      && Concat(r.chunks) <= Whole(v, r)
      && (r.length.Some? ==> r.length.value == |Whole(v, r)|)
      && (r.length.None? && r.ending.Ended? ==> Concat(r.chunks) == Whole(v, r))
      && (r.status == 206 ==>
            && from > 0 && (ifRange.Some? ==> ifRange.value == v.etag)
            && (r.contentRange.Some? && ParseContentRange(r.contentRange.value).Some? ==>
                  var span := ParseContentRange(r.contentRange.value).value;
                  span.start <= span.end < |v.content| && (!subsets ==> span.end == |v.content| - 1)))
  }

  /** A request beyond the end is refused as unsatisfiable (section 15.5.17 of
      RFC 9110). */
  predicate Strict(v: Version, from: nat, r: GetReply) { from > 0 && |v.content| <= from && r.Answered? ==> r.status == 416 }

  ghost predicate HonestProbe(v: Version, r: Option<HeadReply>) {
    r.Some? ==> r.value.validators == ValidatorsOf(v) && (r.value.length.Some? ==> r.value.length.value == |v.content|)
  }

  // ------------------------------------------------------------ one session

  datatype Phase =
    | Opening
    | Asking
    | Writing(reply: GetReply, from: nat, next: nat, total: Option<nat>)
    | Written(reply: GetReply)
    | Placed(reply: GetReply)
    | Failed(error: Error)

  /** The partial file, the file put in place, the validators shared with the
      caller and those the caller has stored, and the variables of the loop.
      `touched` says that the session has decided to continue the partial file
      or has begun it anew. */
  datatype Session = Session(
    part: Option<seq<byte>>, final: Option<seq<byte>>, cell: Validators, stored: Validators, reported: bool,
    probe: Option<HeadReply>, allowResume: bool, touched: bool, attempt: nat, phase: Phase)

  /** A session before its first step, given the validators it is to compare. */
  function Entry(part: Option<seq<byte>>, given: Validators, stored: Validators): Session {
    Session(part, None, given, stored, false, None, false, false, 0, Opening)
  }

  datatype Event =
    | Probe(now: nat, probed: Option<HeadReply>)
    | Ask(now: nat, answer: GetReply, opens: bool)
    | Chunk
    | Report
    | Fault(size: nat)
    | Finish
    | Place
    | Stop(reason: Error)

  function FirstSome<T>(a: Option<T>, b: Option<T>): Option<T> { if a.Some? then a else b }

  /** A success is any status in the two hundreds. */
  lemma SuccessExactly(status: nat)
    ensures Success(status) <==> status / 100 == 2
  {
  }

  predicate Ranges(s: Session) { s.probe.Some? && s.probe.value.ranges }

  /** Where the next request starts, and its condition. */
  function From(s: Session): nat { if s.allowResume && Ranges(s) && s.part.Some? then |s.part.value| else 0 }

  function IfRange(s: Session): Option<Header> {
    if From(s) > 0 then FirstSome(s.cell.etag, s.cell.lastModified) else None
  }

  /** A request for part of the file carries the entity tag published for the
      download, or its date when there is no tag; one for all of it neither. */
  lemma ConditionExactly(s: Session)
    ensures IfRange(s).Some? <==> From(s) > 0 && (s.cell.etag.Some? || s.cell.lastModified.Some?)
    ensures IfRange(s).Some? ==> IfRange(s) == if s.cell.etag.Some? then s.cell.etag else s.cell.lastModified
  {
  }

  function Verdict(s: Session, r: GetReply): Option<Error>
    requires r.Answered?
  {
    if From(s) > 0 then
      ValidateRangedResponse(From(s), None, r.status, r.contentRange, Context(IfRange(s).Some?, s.cell, r.validators))
    else None
  }

  predicate Enabled(s: Session, e: Event) {
    match e
    case Probe(_, _) => s.phase.Opening?
    case Ask(_, _, _) => s.phase.Asking?
    case Chunk => s.phase.Writing? && s.phase.reply.Answered? && s.part.Some? && s.phase.next < |s.phase.reply.chunks|
    case Report => s.phase.Writing?
    case Fault(_) => s.phase.Writing? && s.phase.reply.Answered? && s.part.Some?
    case Finish => s.phase.Writing? && s.phase.reply.Answered? && s.part.Some? && s.phase.next == |s.phase.reply.chunks|
    case Place => s.phase.Written? && s.part.Some?
    case Stop(e) => !s.phase.Placed? && !s.phase.Failed? && (s.phase.Writing? ==> e == Shutdown)
  }

  /** An error while streaming: the loop tries again if it may. */
  function StreamFails(maxAttempts: nat, s: Session, e: Error): Session {
    if Retryable(e) && s.attempt < maxAttempts then
      s.(attempt := s.attempt + 1, allowResume := Ranges(s), phase := Asking)
    else s.(phase := Failed(e))
  }

  /** The probe's validators are published; the partial file is continued if
      the server does ranges and the validators given match the probe's. */
  function OnProbe(s: Session, r: Option<HeadReply>): Session {
    var cell := if r.Some? then r.value.validators else UNKNOWN;
    var resume := r.Some? && r.value.ranges && s.part.Some? && |s.part.value| > 0 && ValidatorsMatch(s.cell, cell);
    s.(probe := r, cell := cell, allowResume := resume, touched := resume, phase := Asking)
  }

  function OnAsk(s: Session, r: GetReply, opens: bool): Session {
    if r.Unanswered? then s.(phase := Failed(r.error))
    else if !Success(r.status) then s.(phase := Failed(HttpStatus(r.status)))
    else if Verdict(s, r).Some? then
      if ShouldRestartWithoutRanges(Verdict(s, r).value) then s.(allowResume := false)
      else s.(phase := Failed(Verdict(s, r).value))
    else if !opens then s.(phase := Failed(Other(true)))
    else
      var length := if r.length.Some? then Some(r.length.value + From(s)) else None;
      var total := FirstSome(length, if s.probe.Some? then s.probe.value.length else None);
      s.(part := if From(s) > 0 && r.status == 206 then s.part else Some([]), touched := true,
         phase := Writing(r, From(s), 0, total))
  }

  /** The next chunk, as long as there is one. */
  function NextChunk(s: Session): seq<byte> {
    if s.phase.Writing? && s.phase.reply.Answered? && s.phase.next < |s.phase.reply.chunks| then s.phase.reply.chunks[s.phase.next]
    else []
  }

  function OnChunk(maxAttempts: nat, s: Session): Session
    requires Enabled(s, Chunk)
  {
    var s' := s.(part := Some(s.part.value + NextChunk(s)));
    if s.phase.total.Some? && |s'.part.value| > s.phase.total.value then StreamFails(maxAttempts, s', Other(false))
    else s'.(phase := s.phase.(next := s.phase.next + 1))
  }

  /** A failed write or flush may leave any part of what was to be written. */
  function OnFault(maxAttempts: nat, s: Session, size: nat): Session
    requires Enabled(s, Fault(size))
  {
    var most := s.part.value + NextChunk(s);
    StreamFails(maxAttempts, s.(part := Some(if size < |most| then most[..size] else most)), Other(true))
  }

  function Reported(s: Session): Session { s.(stored := s.cell, reported := true) }

  function OnFinish(maxAttempts: nat, s: Session): Session
    requires Enabled(s, Finish)
  {
    if s.phase.reply.ending.Broken? then StreamFails(maxAttempts, s, s.phase.reply.ending.error)
    else if s.phase.total.Some? && |s.part.value| != s.phase.total.value then StreamFails(maxAttempts, Reported(s), Other(false))
    else Reported(s).(phase := Written(s.phase.reply))
  }

  function Next(maxAttempts: nat, s: Session, e: Event): Session
    requires Enabled(s, e)
  {
    match e
    case Probe(_, r) => OnProbe(s, r)
    case Ask(_, r, opens) => OnAsk(s, r, opens)
    case Chunk => OnChunk(maxAttempts, s)
    case Report => Reported(s)
    case Fault(size) => OnFault(maxAttempts, s, size)
    case Finish => OnFinish(maxAttempts, s)
    case Place => s.(part := None, final := s.part, phase := Placed(s.phase.reply))
    case Stop(e) => s.(phase := Failed(e))
  }

  // -------------------------------------------------------------------- runs

  /** `subsets` and `strict` say what servers may, and have to, answer. */
  datatype Config = Config(versions: History, subsets: bool, strict: bool, maxAttempts: nat)

  /** A session, and the version the server served last. */
  datatype World = World(now: nat, s: Session)

  /** What can happen: time does not run back, and the server is honest. */
  ghost predicate Allowed(cfg: Config, w: World, e: Event) {
    && Enabled(w.s, e)
    && (e.Probe? ==> w.now <= e.now < |cfg.versions| && HonestProbe(cfg.versions[e.now], e.probed))
    && (e.Ask? ==> w.now <= e.now < |cfg.versions|
                   && Honest(cfg.versions[e.now], From(w.s), IfRange(w.s), cfg.subsets, e.answer)
                   && (cfg.strict ==> Strict(cfg.versions[e.now], From(w.s), e.answer)))
  }

  function Step(cfg: Config, w: World, e: Event): World {
    if Enabled(w.s, e) then World(if e.Probe? || e.Ask? then e.now else w.now, Next(cfg.maxAttempts, w.s, e)) else w
  }

  function Run(cfg: Config, w: World, es: seq<Event>): World {
    if es == [] then w else Step(cfg, Run(cfg, w, es[..|es| - 1]), es[|es| - 1])
  }

  ghost predicate Fair(cfg: Config, w: World, es: seq<Event>) {
    es == [] || (Fair(cfg, w, es[..|es| - 1]) && Allowed(cfg, Run(cfg, w, es[..|es| - 1]), es[|es| - 1]))
  }

  lemma RunSnoc(cfg: Config, w: World, es: seq<Event>, e: Event)
    ensures Run(cfg, w, es + [e]) == Step(cfg, Run(cfg, w, es), e)
    ensures Fair(cfg, w, es + [e]) <==> Fair(cfg, w, es) && Allowed(cfg, Run(cfg, w, es), e)
  {
    assert (es + [e])[..|es|] == es;
  }
}
