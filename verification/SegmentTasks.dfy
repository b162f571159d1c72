/** The segmented download as concurrent tasks over one partial file, and any
    number of sessions of it: kills, pauses, snapshots and restarts.

    The network is the environment. All that is assumed of it is that a partial
    response naming a range carries a prefix of that range of the remote file. */
module SegmentTasks {
  import opened Prelude
  import opened Segments
  import opened Resume

  /** What never changes: the remote file and the retry limit. */
  datatype Config = Config(remote: seq<byte>, maxAttempts: nat)

  /** Where one segment's task stands. `got` is its own count of bytes written,
      `body` what is left of the response, `chunk` the size of the last write. */
  datatype Task =
    | Skipped
    | Waiting
    | Top(got: nat, attempt: nat)
    | Streaming(got: nat, attempt: nat, body: seq<byte>)
    | Written(got: nat, attempt: nat, body: seq<byte>, chunk: nat)
    | Published(got: nat, attempt: nat, body: seq<byte>, chunk: nat)
    | Finished(error: Option<Error>)

  datatype Session = Session(
    segs: seq<Segment>, tasks: seq<Task>, progress: seq<nat>, downloaded: nat,
    cancelled: bool, fatal: bool, paused: bool)

  datatype Reply =
    | NoReply(retryable: bool)
    | Reply(status: nat, contentRange: Option<Header>, inScope: bool, context: Context, body: seq<byte>)

  /** Section 14.4 of RFC 9110: the body of a partial response is (as far as it
      goes) the range its header names. */
  ghost predicate Honest(cfg: Config, reply: Reply) {
    reply.Reply? && reply.status == 206 && reply.contentRange.Some? && ParseContentRange(reply.contentRange.value).Some? ==>
      var span := ParseContentRange(reply.contentRange.value).value;
      span.start <= span.end < |cfg.remote| && reply.body <= cfg.remote[span.start..span.end + 1]
  }

  /** What one task can do next, or have done to it. */
  datatype Act =
    | Start
    | Ask(primary: bool, reply: Reply)
    | Write(n: nat)
    | WriteFails(n: nat)
    | Publish
    | Count
    | StreamFails(retryable: bool)
    | StreamEnds
    | Quit

  datatype Step = Pause | Cancel | On(i: nat, act: Act)

  // --------------------------------------------------------------- the file

  function SetLen(f: seq<byte>, n: nat): (r: seq<byte>)
    ensures |r| == n
    ensures forall b :: 0 <= b < n && b < |f| ==> r[b] == f[b]
  {
    if n <= |f| then f[..n] else f + Zeros(n - |f|)
  }

  /** Seek and write. */
  function WriteAt(f: seq<byte>, off: nat, data: seq<byte>): (r: seq<byte>)
    ensures |r| == Max(|f|, off + |data|)
    ensures forall b :: 0 <= b < |data| ==> r[off + b] == data[b]
    ensures forall b :: 0 <= b < |f| && !(off <= b < off + |data|) ==> r[b] == f[b]
  {
    var wide := SetLen(f, Max(|f|, off + |data|));
    wide[..off] + data + wide[off + |data|..]
  }

  // ------------------------------------------------------------- task steps

  /** The answer to a range request: its task's next state, and whether its
      siblings are cancelled. */
  function OnReply(cfg: Config, seg: Segment, got: nat, attempt: nat, primary: bool, reply: Reply): (Task, bool) {
    match reply
    case NoReply(retryable) =>
      if attempt < cfg.maxAttempts && retryable then (Top(got, attempt + 1), false)
      else (Finished(Some(Other(retryable))), !retryable)
    case Reply(status, contentRange, inScope, context, body) =>
      if !inScope then (Finished(Some(Other(false))), false)
      else if status == 416 then (Finished(Some(HttpStatus(416))), true)
      else if 500 <= status < 600 then
        if attempt < cfg.maxAttempts then (Top(got, attempt + 1), false) else (Finished(Some(HttpStatus(status))), false)
      else if !(200 <= status < 300) then (Finished(Some(HttpStatus(status))), true)
      else
        var verdict := ValidateRangedResponse(seg.start + got, Some(seg.end), status, contentRange, context);
        if verdict.Some? then
          if !primary && attempt + 1 < cfg.maxAttempts then (Top(got, attempt + 1), false) else (Finished(verdict), false)
        else
          var total := ParseContentRange(contentRange.value).value.total;
          if total.Some? && total.value != |cfg.remote| then
            if !primary && attempt + 1 < cfg.maxAttempts then (Top(got, attempt + 1), false)
            else (Finished(Some(Other(false))), false)
          else (Streaming(got, attempt, body), false)
  }

  function SetTask(s: Session, i: nat, t: Task): Session
    requires i < |s.tasks|
  {
    s.(tasks := s.tasks[i := t])
  }

  predicate Shaped(s: Session) { |s.tasks| == |s.progress| == |s.segs| }

  /** One step of task `i`; `None` when it is not possible. A cancellation or
      pause may be noticed late, so acts need not look at it. */
  function Run(cfg: Config, file: seq<byte>, s: Session, i: nat, act: Act): Option<(seq<byte>, Session)>
    requires Shaped(s) && i < |s.tasks|
  {
    var t, seg := s.tasks[i], s.segs[i];
    match act
    case Start =>
      if !t.Waiting? then None
      else if seg.start + seg.downloaded > seg.end then Some((file, SetTask(s, i, Finished(None))))
      else Some((file, SetTask(s, i, Top(seg.downloaded, 0))))
    case Ask(primary, reply) =>
      if !t.Top? then None
      else if seg.start + t.got > seg.end then Some((file, SetTask(s, i, Finished(None))))
      else
        var (next, fatal) := OnReply(cfg, seg, t.got, t.attempt, primary, reply);
        Some((file, SetTask(s, i, next).(fatal := s.fatal || fatal)))
    case Write(n) =>
      if !t.Streaming? || n > |t.body| then None
      else Some((WriteAt(file, seg.start + t.got, t.body[..n]), SetTask(s, i, Written(t.got + n, t.attempt, t.body[n..], n))))
    case WriteFails(n) =>
      if !t.Streaming? || n > |t.body| then None
      else Some((WriteAt(file, seg.start + t.got, t.body[..n]), SetTask(s, i, Finished(Some(Other(true))))))
    case Publish =>
      if !t.Written? then None
      else if t.got > seg.Size() then Some((file, SetTask(s, i, Finished(Some(Other(false))))))
      else Some((file, SetTask(s, i, Published(t.got, t.attempt, t.body, t.chunk)).(progress := s.progress[i := t.got])))
    case Count =>
      if !t.Published? then None
      else
        var sum := s.downloaded + t.chunk;
        var next := if sum > |cfg.remote| then Finished(Some(Other(false))) else Streaming(t.got, t.attempt, t.body);
        Some((file, SetTask(s, i, next).(downloaded := sum)))
    case StreamFails(retryable) =>
      if !t.Streaming? then None
      else if t.attempt < cfg.maxAttempts && retryable then Some((file, SetTask(s, i, Top(t.got, t.attempt + 1))))
      else Some((file, SetTask(s, i, Finished(Some(Other(retryable)))).(fatal := s.fatal || !retryable)))
    case StreamEnds =>
      if !t.Streaming? then None else Some((file, SetTask(s, i, Finished(None))))
    case Quit =>
      if (t.Waiting? || t.Top? || t.Streaming?) && (s.cancelled || s.fatal || s.paused) then
        Some((file, SetTask(s, i, Finished(None))))
      else None
  }

  function Apply(cfg: Config, file: seq<byte>, s: Session, step: Step): Option<(seq<byte>, Session)>
    requires Shaped(s)
  {
    match step
    case Pause => Some((file, s.(paused := true)))
    case Cancel => Some((file, s.(cancelled := true)))
    case On(i, act) => if i < |s.tasks| then Run(cfg, file, s, i, act) else None
  }

  // ---------------------------------------------------------- the invariant

  /** Byte `b` of the file is there and right. */
  predicate Same(file: seq<byte>, remote: seq<byte>, b: int) { 0 <= b < |file| && b < |remote| && file[b] == remote[b] }

  ghost predicate Equals(file: seq<byte>, remote: seq<byte>, from: int, to: int) {
    forall b :: from <= b < to ==> Same(file, remote, b)
  }

  ghost predicate Body(remote: seq<byte>, seg: Segment, got: nat, body: seq<byte>) {
    seg.start + got + |body| <= seg.end + 1 <= |remote| && body == remote[seg.start + got..seg.start + got + |body|]
  }

  /** What holds of one segment: everything published, and everything its task
      itself counts, is in the file and equals the remote bytes. */
  ghost predicate TaskOk(remote: seq<byte>, file: seq<byte>, seg: Segment, t: Task, p: nat) {
    && seg.downloaded <= p <= seg.Size()
    && Equals(file, remote, seg.start, seg.start + p)
    && match t
       case Skipped => p == seg.Size()
       case Waiting => p == seg.downloaded
       case Top(got, _) => p == got
       case Streaming(got, _, body) => p == got && Body(remote, seg, got, body)
       case Written(got, _, body, chunk) =>
         p + chunk == got && Body(remote, seg, got, body) && Equals(file, remote, seg.start, seg.start + got)
       case Published(got, _, body, chunk) => p == got && chunk <= got && Body(remote, seg, got, body)
       case Finished(_) => true
  }

  /** The part of a task's progress the shared counter already includes. */
  function Counted(t: Task, p: nat): int { if t.Published? then p - t.chunk else p }

  function TotalCounted(tasks: seq<Task>, progress: seq<nat>): int
    requires |tasks| == |progress|
  {
    if tasks == [] then 0
    else TotalCounted(tasks[..|tasks| - 1], progress[..|tasks| - 1]) + Counted(tasks[|tasks| - 1], progress[|tasks| - 1])
  }

  ghost predicate Running(cfg: Config, file: seq<byte>, s: Session) {
    && Shaped(s)
    && Partition(s.segs, |cfg.remote|) && Marked(s.segs)
    && (forall i :: 0 <= i < |s.segs| ==> TaskOk(cfg.remote, file, s.segs[i], s.tasks[i], s.progress[i]))
    && s.downloaded == TotalCounted(s.tasks, s.progress)
  }

  /** Bytes that were right stay right. */
  ghost predicate Improves(file: seq<byte>, file': seq<byte>, remote: seq<byte>) {
    forall b :: Same(file, remote, b) ==> Same(file', remote, b)
  }

  lemma {:induction false} TotalUpdate(tasks: seq<Task>, progress: seq<nat>, i: nat, t: Task, p: nat)
    requires |tasks| == |progress| && i < |tasks|
    ensures TotalCounted(tasks[i := t], progress[i := p])
         == TotalCounted(tasks, progress) - Counted(tasks[i], progress[i]) + Counted(t, p)
  {
    var n := |tasks| - 1;
    if i == n {
      assert tasks[i := t][..n] == tasks[..n] && progress[i := p][..n] == progress[..n];
    } else {
      TotalUpdate(tasks[..n], progress[..n], i, t, p);
      assert tasks[i := t][..n] == tasks[..n][i := t] && progress[i := p][..n] == progress[..n][i := p];
    }
  }

  lemma EqualsStays(remote: seq<byte>, file: seq<byte>, file': seq<byte>, from: int, to: int)
    requires Equals(file, remote, from, to) && Improves(file, file', remote)
    ensures Equals(file', remote, from, to)
  {
    hide Same;
  }

  lemma TaskStays(remote: seq<byte>, file: seq<byte>, file': seq<byte>, seg: Segment, t: Task, p: nat)
    requires TaskOk(remote, file, seg, t, p) && Improves(file, file', remote)
    ensures TaskOk(remote, file', seg, t, p)
  {
    hide Equals, Improves;
    EqualsStays(remote, file, file', seg.start, seg.start + p);
    if t.Written? { EqualsStays(remote, file, file', seg.start, seg.start + t.got); }
  }

  /** Replacing one task, its progress and its share of the counter. */
  lemma KeepOne(cfg: Config, file: seq<byte>, file': seq<byte>, s: Session, s': Session, i: nat, t: Task, p: nat)
    requires Running(cfg, file, s) && i < |s.tasks|
    requires Improves(file, file', cfg.remote) && TaskOk(cfg.remote, file', s.segs[i], t, p)
    requires s'.segs == s.segs && s'.tasks == s.tasks[i := t] && s'.progress == s.progress[i := p]
    requires s'.downloaded == s.downloaded - Counted(s.tasks[i], s.progress[i]) + Counted(t, p)
    ensures Running(cfg, file', s')
  {
    hide TaskOk, Improves;
    TotalUpdate(s.tasks, s.progress, i, t, p);
    forall k | 0 <= k < |s.segs| ensures TaskOk(cfg.remote, file', s'.segs[k], s'.tasks[k], s'.progress[k]) {
      if k != i { TaskStays(cfg.remote, file, file', s.segs[k], s.tasks[k], s.progress[k]); }
    }
  }

  /** An accepted answer continues exactly where its task stands. */
  lemma AcceptedBody(cfg: Config, seg: Segment, got: nat, attempt: nat, primary: bool, reply: Reply)
    requires Honest(cfg, reply) && OnReply(cfg, seg, got, attempt, primary, reply).0.Streaming?
    ensures Body(cfg.remote, seg, got, reply.body)
    ensures OnReply(cfg, seg, got, attempt, primary, reply).0 == Streaming(got, attempt, reply.body)
  {
    hide ParseContentRange;
    var span := ParseContentRange(reply.contentRange.value).value;
    assert span.start == seg.start + got && span.end == seg.end;
    assert reply.body == cfg.remote[span.start..span.end + 1][..|reply.body|];
  }

  /** A task that gives up says why. An error that could be retried ends a task
      only when its attempts are spent, and stops its siblings never, with one
      exception: statuses 408 and 429 count as retryable everywhere else, and
      are given up on at once here. */
  lemma RetryableIsRetried(cfg: Config, seg: Segment, got: nat, attempt: nat, primary: bool, reply: Reply)
    ensures var (t, fatal) := OnReply(cfg, seg, got, attempt, primary, reply);
      && (t.Finished? ==> t.error.Some?)
      && (t.Finished? && Retryable(t.error.value) && t.error.value !in {HttpStatus(408), HttpStatus(429)} ==>
            attempt >= cfg.maxAttempts && !fatal)
      && (fatal ==> t.Finished?)
    ensures reply.Reply? && reply.inScope && reply.status in {408, 429} ==>
      OnReply(cfg, seg, got, attempt, primary, reply) == (Finished(Some(HttpStatus(reply.status))), true)
  {
    hide ValidateRangedResponse, ParseContentRange;
    if reply.Reply? {
      AcceptsExactlyTheSpan(seg.start + got, Some(seg.end), reply.status, reply.contentRange, reply.context);
    }
  }

  function AttemptOf(t: Task): nat {
    match t
    case Top(_, attempt) => attempt
    case Streaming(_, attempt, _) => attempt
    case Written(_, attempt, _, _) => attempt
    case Published(_, attempt, _, _) => attempt
    case _ => 0
  }

  /** No task gives up on an error that could be retried before its attempts are
      spent, the disk failing and statuses 408 and 429 apart. */
  lemma GivesUpLast(cfg: Config, file: seq<byte>, s: Session, i: nat, act: Act)
    requires Shaped(s) && i < |s.tasks| && Run(cfg, file, s, i, act).Some? && !act.WriteFails?
    ensures var t' := Run(cfg, file, s, i, act).value.1.tasks[i];
      t'.Finished? && t'.error.Some? && Retryable(t'.error.value) ==>
        t'.error.value in {HttpStatus(408), HttpStatus(429)} || AttemptOf(s.tasks[i]) >= cfg.maxAttempts
  {
    hide WriteAt, OnReply, Retryable;
    var t, seg := s.tasks[i], s.segs[i];
    assert !Retryable(Other(false)) && Retryable(Other(true)) by { OtherRetryable(); }
    if act.Ask? && t.Top? { RetryableIsRetried(cfg, seg, t.got, t.attempt, act.primary, act.reply); }
  }

  lemma OtherRetryable()
    ensures !Retryable(Other(false)) && Retryable(Other(true))
  {
  }

  /** A stream that breaks on an error that could be retried is asked for again
      from the byte it had come to, while attempts are left; and nothing else is
      touched. */
  lemma BreakIsRetried(cfg: Config, file: seq<byte>, s: Session, i: nat)
    requires Shaped(s) && i < |s.tasks| && s.tasks[i].Streaming? && s.tasks[i].attempt < cfg.maxAttempts
    ensures Run(cfg, file, s, i, StreamFails(true)).Some?
    ensures var (file', s') := Run(cfg, file, s, i, StreamFails(true)).value;
      && file' == file && s'.tasks[i] == Top(s.tasks[i].got, s.tasks[i].attempt + 1)
      && |s'.tasks| == |s.tasks| && (forall j :: 0 <= j < |s.tasks| && j != i ==> s'.tasks[j] == s.tasks[j])
      && s'.segs == s.segs && s'.progress == s.progress && s'.downloaded == s.downloaded
      && s'.fatal == s.fatal && s'.cancelled == s.cancelled && s'.paused == s.paused
  {
    hide WriteAt, OnReply;
  }

  /** A task goes back to asking only after a failure, with its attempt count
      raised and within the limit: it sends at most one request more than the
      retries it is allowed. */
  lemma RetriesAreBounded(cfg: Config, file: seq<byte>, s: Session, i: nat, act: Act)
    requires Shaped(s) && i < |s.tasks| && Run(cfg, file, s, i, act).Some?
    ensures var t, t' := s.tasks[i], Run(cfg, file, s, i, act).value.1.tasks[i];
      t'.Top? ==>
        if act.Start? then t'.attempt == 0
        else (t.Top? || t.Streaming?) && t'.attempt == t.attempt + 1 <= cfg.maxAttempts && t'.got == t.got
  {
    hide ValidateRangedResponse, ParseContentRange, WriteAt;
  }

  lemma OnReplyShape(cfg: Config, seg: Segment, got: nat, attempt: nat, primary: bool, reply: Reply)
    ensures var t := OnReply(cfg, seg, got, attempt, primary, reply).0;
      t.Finished? || (t.Top? && t.got == got) || t.Streaming?
  {
    hide ValidateRangedResponse, ParseContentRange;
  }

  lemma TaskAt(cfg: Config, file: seq<byte>, s: Session, i: nat)
    requires Running(cfg, file, s)
    ensures Shaped(s)
    ensures i < |s.tasks| ==> TaskOk(cfg.remote, file, s.segs[i], s.tasks[i], s.progress[i])
  {
  }

  /** What a single act does: its own task stays right, nothing else changes,
      and the counter moves with it. */
  ghost predicate Kept(cfg: Config, file: seq<byte>, s: Session, i: nat, file': seq<byte>, s': Session)
    requires Shaped(s) && i < |s.tasks|
  {
    && s'.segs == s.segs && Shaped(s')
    && s'.tasks == s.tasks[i := s'.tasks[i]] && s'.progress == s.progress[i := s'.progress[i]]
    && Improves(file, file', cfg.remote)
    && TaskOk(cfg.remote, file', s.segs[i], s'.tasks[i], s'.progress[i])
    && s'.downloaded == s.downloaded - Counted(s.tasks[i], s.progress[i]) + Counted(s'.tasks[i], s'.progress[i])
  }

  lemma AskKeeps(cfg: Config, file: seq<byte>, s: Session, i: nat, act: Act)
    requires Shaped(s) && i < |s.tasks| && act.Ask? && Run(cfg, file, s, i, act).Some? && Honest(cfg, act.reply)
    requires TaskOk(cfg.remote, file, s.segs[i], s.tasks[i], s.progress[i])
    ensures Kept(cfg, file, s, i, Run(cfg, file, s, i, act).value.0, Run(cfg, file, s, i, act).value.1)
  {
    hide OnReply, Honest, WriteAt, Equals, Improves;
    Unchanged(file, cfg.remote);
    var t, seg := s.tasks[i], s.segs[i];
    if seg.start + t.got <= seg.end {
      OnReplyShape(cfg, seg, t.got, t.attempt, act.primary, act.reply);
      if OnReply(cfg, seg, t.got, t.attempt, act.primary, act.reply).0.Streaming? {
        AcceptedBody(cfg, seg, t.got, t.attempt, act.primary, act.reply);
      }
    }
  }

  lemma WriteKeeps(cfg: Config, file: seq<byte>, s: Session, i: nat, act: Act)
    requires Shaped(s) && i < |s.tasks| && (act.Write? || act.WriteFails?) && Run(cfg, file, s, i, act).Some?
    requires TaskOk(cfg.remote, file, s.segs[i], s.tasks[i], s.progress[i])
    ensures Kept(cfg, file, s, i, Run(cfg, file, s, i, act).value.0, Run(cfg, file, s, i, act).value.1)
  {
    hide WriteAt, Equals, Improves, Body;
    var t, seg := s.tasks[i], s.segs[i];
    var file' := Run(cfg, file, s, i, act).value.0;
    BytesWritten(cfg.remote, file, seg, t.got, t.body, act.n);
    RestOfBody(cfg.remote, seg, t.got, t.body, act.n);
    EqualsStays(cfg.remote, file, file', seg.start, seg.start + t.got);
  }

  lemma OthersKeep(cfg: Config, file: seq<byte>, s: Session, i: nat, act: Act)
    requires Shaped(s) && i < |s.tasks| && !act.Ask? && !act.Write? && !act.WriteFails? && Run(cfg, file, s, i, act).Some?
    requires TaskOk(cfg.remote, file, s.segs[i], s.tasks[i], s.progress[i])
    ensures Kept(cfg, file, s, i, Run(cfg, file, s, i, act).value.0, Run(cfg, file, s, i, act).value.1)
  {
    hide Run, Kept, TaskOk;
    if act.Publish? {
      PublishKeeps(cfg, file, s, i);
    } else if act.Count? {
      CountKeeps(cfg, file, s, i);
    } else {
      MoveKeeps(cfg, file, s, i, act);
    }
  }

  lemma PublishKeeps(cfg: Config, file: seq<byte>, s: Session, i: nat)
    requires Shaped(s) && i < |s.tasks| && Run(cfg, file, s, i, Publish).Some?
    requires TaskOk(cfg.remote, file, s.segs[i], s.tasks[i], s.progress[i])
    ensures Kept(cfg, file, s, i, Run(cfg, file, s, i, Publish).value.0, Run(cfg, file, s, i, Publish).value.1)
  {
    hide WriteAt, Equals, Improves, Body;
    Unchanged(file, cfg.remote);
  }

  lemma CountKeeps(cfg: Config, file: seq<byte>, s: Session, i: nat)
    requires Shaped(s) && i < |s.tasks| && Run(cfg, file, s, i, Count).Some?
    requires TaskOk(cfg.remote, file, s.segs[i], s.tasks[i], s.progress[i])
    ensures Kept(cfg, file, s, i, Run(cfg, file, s, i, Count).value.0, Run(cfg, file, s, i, Count).value.1)
  {
    hide WriteAt, Equals, Improves, Body;
    Unchanged(file, cfg.remote);
  }

  lemma MoveKeeps(cfg: Config, file: seq<byte>, s: Session, i: nat, act: Act)
    requires Shaped(s) && i < |s.tasks| && (act.Start? || act.StreamFails? || act.StreamEnds? || act.Quit?)
    requires Run(cfg, file, s, i, act).Some?
    requires TaskOk(cfg.remote, file, s.segs[i], s.tasks[i], s.progress[i])
    ensures Kept(cfg, file, s, i, Run(cfg, file, s, i, act).value.0, Run(cfg, file, s, i, act).value.1)
  {
    hide WriteAt, Equals, Improves, Body;
    Unchanged(file, cfg.remote);
  }

  lemma Unchanged(file: seq<byte>, remote: seq<byte>)
    ensures Improves(file, file, remote)
  {
  }

  /** Writing the next bytes of an accepted body spoils nothing, wherever other
      tasks are writing. */
  lemma BytesWritten(remote: seq<byte>, file: seq<byte>, seg: Segment, got: nat, body: seq<byte>, n: nat)
    requires Body(remote, seg, got, body) && n <= |body| && Equals(file, remote, seg.start, seg.start + got)
    ensures var file' := WriteAt(file, seg.start + got, body[..n]);
      Improves(file, file', remote) && Equals(file', remote, seg.start, seg.start + got + n)
  {
    var off, data := seg.start + got, body[..n];
    var file' := WriteAt(file, off, data);
    forall b | off <= b < off + n ensures Same(file', remote, b) {
      assert file'[off + (b - off)] == data[b - off];
    }
    hide WriteAt;
    forall b | Same(file, remote, b) ensures Same(file', remote, b) {
      if !(off <= b < off + n) { assert file'[b] == file[b]; }
    }
    hide Same;
    EqualsStays(remote, file, file', seg.start, seg.start + got);
  }

  lemma RestOfBody(remote: seq<byte>, seg: Segment, got: nat, body: seq<byte>, n: nat)
    requires Body(remote, seg, got, body) && n <= |body|
    ensures Body(remote, seg, got + n, body[n..])
  {
    assert body[n..] == remote[seg.start + got + n..seg.start + got + |body|];
  }

  /** Every step of every task keeps the invariant. */
  lemma StepKeeps(cfg: Config, file: seq<byte>, s: Session, step: Step)
    requires Running(cfg, file, s) && Apply(cfg, file, s, step).Some?
    requires step.On? && step.act.Ask? ==> Honest(cfg, step.act.reply)
    ensures Running(cfg, Apply(cfg, file, s, step).value.0, Apply(cfg, file, s, step).value.1)
  {
    hide Honest, TotalCounted, TaskOk, Run, Improves;
    match step {
      case Pause =>
      case Cancel =>
      case On(i, act) =>
        TaskAt(cfg, file, s, i);
        match act {
          case Ask(_, _) => AskKeeps(cfg, file, s, i, act);
          case Write(_) => WriteKeeps(cfg, file, s, i, act);
          case WriteFails(_) => WriteKeeps(cfg, file, s, i, act);
          case _ => OthersKeep(cfg, file, s, i, act);
        }
        var (file', s') := Run(cfg, file, s, i, act).value;
        KeepOne(cfg, file, file', s, s', i, s'.tasks[i], s'.progress[i]);
    }
  }

  // ------------------------------------------------------------ the counter

  /** Where segment `k` begins, or the end of the file. */
  function Edge(segs: seq<Segment>, total: nat, k: nat): nat {
    if k < |segs| then segs[k].start else total
  }

  /** Bounded parts of a partition add up to the whole only if all are full. */
  lemma {:induction false} CountedUpTo(segs: seq<Segment>, tasks: seq<Task>, progress: seq<nat>, total: nat, k: nat)
    requires Partition(segs, total) && |segs| == |tasks| == |progress| && k <= |segs|
    requires forall i :: 0 <= i < |segs| ==> progress[i] <= segs[i].Size()
    ensures TotalCounted(tasks[..k], progress[..k]) <= Edge(segs, total, k)
    ensures TotalCounted(tasks[..k], progress[..k]) == Edge(segs, total, k) ==>
      forall i :: 0 <= i < k ==> progress[i] == segs[i].Size()
  {
    if |segs| > 0 { TilesAt(segs, 0, 0, total, 0); }
    if k > 0 {
      CountedUpTo(segs, tasks, progress, total, k - 1);
      TilesAt(segs, 0, 0, total, k - 1);
      assert tasks[..k][..k - 1] == tasks[..k - 1] && progress[..k][..k - 1] == progress[..k - 1];
    }
  }

  lemma CounterBound(segs: seq<Segment>, tasks: seq<Task>, progress: seq<nat>, total: nat)
    requires Partition(segs, total) && |segs| == |tasks| == |progress|
    requires forall i :: 0 <= i < |segs| ==> progress[i] <= segs[i].Size()
    ensures TotalCounted(tasks, progress) <= total
    ensures TotalCounted(tasks, progress) == total ==> forall i :: 0 <= i < |segs| ==> progress[i] == segs[i].Size()
  {
    assert tasks[..|segs|] == tasks && progress[..|segs|] == progress;
    CountedUpTo(segs, tasks, progress, total, |segs|);
  }

  /** The shared counter never passes the file size. */
  lemma CounterIsBounded(cfg: Config, file: seq<byte>, s: Session)
    requires Running(cfg, file, s)
    ensures s.downloaded <= |cfg.remote|
  {
    hide Equals;
    CounterBound(s.segs, s.tasks, s.progress, |cfg.remote|);
  }

  /** Neither overrun check ever fires: with an honest server no segment passes
      its end and the counter never passes the file size. */
  lemma NeverOverruns(cfg: Config, file: seq<byte>, s: Session, i: nat, act: Act)
    requires Running(cfg, file, s) && i < |s.tasks| && (act.Publish? || act.Count?) && Run(cfg, file, s, i, act).Some?
    ensures !Run(cfg, file, s, i, act).value.1.tasks[i].Finished?
  {
    hide TotalCounted, Equals, Partition, Marked;
    TaskAt(cfg, file, s, i);
    var step := On(i, act);
    StepKeeps(cfg, file, s, step);
    var (file', s') := Run(cfg, file, s, i, act).value;
    CounterIsBounded(cfg, file', s');
  }

  lemma {:induction false} CountedIsSum(tasks: seq<Task>, progress: seq<nat>)
    requires |tasks| == |progress| && forall i :: 0 <= i < |tasks| ==> !tasks[i].Published?
    ensures TotalCounted(tasks, progress) == Sum(progress)
  {
    if tasks != [] {
      var n := |tasks| - 1;
      CountedIsSum(tasks[..n], progress[..n]);
      assert progress[..|progress| - 1] == progress[..n];
    }
  }

  // ---------------------------------------------------------------- joining

  predicate AllDone(s: Session) { forall i :: 0 <= i < |s.tasks| ==> s.tasks[i].Skipped? || s.tasks[i].Finished? }

  predicate HasError(t: Task) { t.Finished? && t.error.Some? }

  datatype Outcome = Complete | RestartWithoutRanges | Failed(retryable: bool) | Stopped

  function Join(cfg: Config, s: Session): Outcome {
    if exists i :: 0 <= i < |s.tasks| && HasError(s.tasks[i]) then
      if exists i :: 0 <= i < |s.tasks| && HasError(s.tasks[i]) && ShouldRestartWithoutRanges(s.tasks[i].error.value) then
        RestartWithoutRanges
      else Failed(exists i :: 0 <= i < |s.tasks| && HasError(s.tasks[i]) && Retryable(s.tasks[i].error.value))
    else if s.downloaded != |cfg.remote| then
      if s.cancelled || s.paused then Stopped else Failed(false)
    else Complete
  }

  /** At the join the counter is the sum of the segments' progress. A run ends
      well exactly when no task failed and every segment is full, and then the
      file is the remote file. */
  lemma JoinIsRight(cfg: Config, file: seq<byte>, s: Session)
    requires Running(cfg, file, s) && AllDone(s)
    ensures s.downloaded == Sum(s.progress)
    ensures Join(cfg, s) == Complete <==>
      (forall i :: 0 <= i < |s.tasks| ==> !HasError(s.tasks[i]) && s.progress[i] == s.segs[i].Size())
    ensures Join(cfg, s) == Complete && |file| == |cfg.remote| ==> file == cfg.remote
  {
    hide Equals, TotalCounted;
    CountedIsSum(s.tasks, s.progress);
    CounterBound(s.segs, s.tasks, s.progress, |cfg.remote|);
    if forall i :: 0 <= i < |s.tasks| ==> s.progress[i] == s.segs[i].Size() {
      FullAddsUp(s.segs, s.tasks, s.progress, |cfg.remote|);
      FullIsRemote(cfg, file, s);
    }
  }

  lemma FullAddsUp(segs: seq<Segment>, tasks: seq<Task>, progress: seq<nat>, total: nat)
    requires Partition(segs, total) && |segs| == |tasks| == |progress|
    requires forall i :: 0 <= i < |segs| ==> progress[i] == segs[i].Size() && !tasks[i].Published?
    ensures TotalCounted(tasks, progress) == total
  {
    FullUpTo(segs, tasks, progress, total, |segs|);
    assert tasks[..|segs|] == tasks && progress[..|segs|] == progress;
  }

  lemma {:induction false} FullUpTo(segs: seq<Segment>, tasks: seq<Task>, progress: seq<nat>, total: nat, k: nat)
    requires Partition(segs, total) && |segs| == |tasks| == |progress| && k <= |segs|
    requires forall i :: 0 <= i < |segs| ==> progress[i] == segs[i].Size() && !tasks[i].Published?
    ensures TotalCounted(tasks[..k], progress[..k]) == Edge(segs, total, k)
  {
    if |segs| > 0 { TilesAt(segs, 0, 0, total, 0); }
    if k > 0 {
      FullUpTo(segs, tasks, progress, total, k - 1);
      TilesAt(segs, 0, 0, total, k - 1);
      assert tasks[..k][..k - 1] == tasks[..k - 1] && progress[..k][..k - 1] == progress[..k - 1];
    }
  }

  lemma FullIsRemote(cfg: Config, file: seq<byte>, s: Session)
    requires Running(cfg, file, s)
    requires forall i :: 0 <= i < |s.segs| ==> s.progress[i] == s.segs[i].Size()
    ensures Equals(file, cfg.remote, 0, |cfg.remote|)
    ensures |file| == |cfg.remote| ==> file == cfg.remote
  {
    hide TotalCounted, Same;
    forall b | 0 <= b < |cfg.remote| ensures Same(file, cfg.remote, b) {
      var k := TilesCover(s.segs, 0, 0, |cfg.remote|, b);
      TaskAt(cfg, file, s, k);
    }
    EqualsAll(file, cfg.remote);
  }

  lemma EqualsAll(file: seq<byte>, remote: seq<byte>)
    requires Equals(file, remote, 0, |remote|)
    ensures |file| == |remote| ==> file == remote
  {
    if |file| == |remote| {
      forall b | 0 <= b < |file| ensures file[b] == remote[b] { assert Same(file, remote, b); }
    }
  }
}
