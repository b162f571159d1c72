/** What each step of a segmented download comes to, seen from its outcomes: when
    an answer is used, asked for again or given up on, who is stopped with it, how
    a run ends, and what is on disk afterwards. */
module SegmentOutcomes {
  import opened Prelude
  import opened Segments
  import opened Resume
  import opened SegmentTasks
  import opened SegmentSessions

  // ------------------------------------------------------------- one answer

  predicate Success(status: nat) { status / 100 == 2 }

  /** A partial response for what is left of the segment, of a file of the
      expected size as far as it says. */
  predicate Served(cfg: Config, seg: Segment, got: nat, reply: Reply) {
    && InRange(seg, got, reply)
    && var total := ParseContentRange(reply.contentRange.value).value.total;
       total.None? || total == Some(|cfg.remote|)
  }

  predicate InRange(seg: Segment, got: nat, reply: Reply) {
    && reply.Reply? && reply.inScope && reply.status == 206
    && reply.contentRange.Some? && ParseContentRange(reply.contentRange.value).Some?
    && ParseContentRange(reply.contentRange.value).value.start == seg.start + got
    && ParseContentRange(reply.contentRange.value).value.end == seg.end
  }

  /** Whose answer it was decides whether a useless success is asked for again. */
  predicate AskedAgain(cfg: Config, attempt: nat, primary: bool, reply: Reply) {
    match reply
    case NoReply(retryable) => retryable && attempt < cfg.maxAttempts
    case Reply(status, _, inScope, _, _) =>
      inScope && (if status / 100 == 5 then attempt < cfg.maxAttempts
                  else Success(status) && !primary && attempt + 1 < cfg.maxAttempts)
  }

  /** A final answer about the resource itself stops the other segments too. */
  predicate StopsAll(reply: Reply) {
    match reply
    case NoReply(retryable) => !retryable
    case Reply(status, _, inScope, _, _) => inScope && !Success(status) && status / 100 != 5
  }

  /** The body is used exactly if the answer serves what was asked for; if not,
      it is asked for again, once more, while that is allowed, and else given up on. */
  lemma AnswerExactly(cfg: Config, seg: Segment, got: nat, attempt: nat, primary: bool, reply: Reply)
    ensures var (t, fatal) := OnReply(cfg, seg, got, attempt, primary, reply);
      && (Served(cfg, seg, got, reply) ==> t == Streaming(got, attempt, reply.body))
      && (!Served(cfg, seg, got, reply) && AskedAgain(cfg, attempt, primary, reply) ==> t == Top(got, attempt + 1))
      && (!Served(cfg, seg, got, reply) && !AskedAgain(cfg, attempt, primary, reply) ==> t.Finished?)
      && (fatal <==> t.Finished? && StopsAll(reply))
  {
    hide ParseContentRange;
    if reply.Reply? { Classes(reply.status); }
  }

  lemma Classes(status: nat)
    ensures Success(status) <==> 200 <= status < 300
    ensures status / 100 == 5 <==> 500 <= status < 600
  {
  }

  /** The error with which it is given up on. */
  lemma GivenUpWith(cfg: Config, seg: Segment, got: nat, attempt: nat, primary: bool, reply: Reply)
    requires OnReply(cfg, seg, got, attempt, primary, reply).0.Finished?
    ensures OnReply(cfg, seg, got, attempt, primary, reply).0.error.Some?
    ensures var e := OnReply(cfg, seg, got, attempt, primary, reply).0.error.value;
      match reply
      case NoReply(retryable) => e == Other(retryable)
      case Reply(status, _, inScope, _, _) =>
        if !inScope || InRange(seg, got, reply) then e == Other(false)
        else if Success(status) then e.RangeNotSupported?
        else e == HttpStatus(status)
  {
    hide ParseContentRange;
    if reply.Reply? {
      Classes(reply.status);
      AcceptsExactlyTheSpan(seg.start + got, Some(seg.end), reply.status, reply.contentRange, reply.context);
    }
  }

  // --------------------------------------------------------------- one step

  /** When a step can be taken. */
  predicate Possible(s: Session, i: nat, act: Act)
    requires Shaped(s) && i < |s.tasks|
  {
    var t := s.tasks[i];
    match act
    case Start => t.Waiting?
    case Ask(_, _) => t.Top?
    case Write(n) => t.Streaming? && n <= |t.body|
    case WriteFails(n) => t.Streaming? && n <= |t.body|
    case Publish => t.Written?
    case Count => t.Published?
    case StreamFails(_) => t.Streaming?
    case StreamEnds => t.Streaming?
    case Quit => (t.Waiting? || t.Top? || t.Streaming?) && (s.cancelled || s.fatal || s.paused)
  }

  lemma PossibleExactly(cfg: Config, file: seq<byte>, s: Session, i: nat, act: Act)
    requires Shaped(s) && i < |s.tasks|
    ensures Run(cfg, file, s, i, act).Some? <==> Possible(s, i, act)
  {
    hide WriteAt, OnReply;
  }

  /** A task whose segment is full ends without asking anybody. */
  lemma FullIsDone(cfg: Config, file: seq<byte>, s: Session, i: nat, primary: bool, reply: Reply)
    requires Shaped(s) && i < |s.tasks|
    ensures s.tasks[i].Waiting? ==>
      Run(cfg, file, s, i, Start) == Some((file, SetTask(s, i,
        if s.segs[i].downloaded >= s.segs[i].Size() then Finished(None) else Top(s.segs[i].downloaded, 0))))
    ensures s.tasks[i].Top? && s.tasks[i].got >= s.segs[i].Size() ==>
      Run(cfg, file, s, i, Ask(primary, reply)) == Some((file, SetTask(s, i, Finished(None))))
  {
    hide WriteAt, OnReply;
  }

  /** What one step leaves alone. */
  lemma OthersUntouched(cfg: Config, file: seq<byte>, s: Session, i: nat, act: Act)
    requires Shaped(s) && i < |s.tasks| && Run(cfg, file, s, i, act).Some?
    ensures var (file', s') := Run(cfg, file, s, i, act).value;
      && Shaped(s') && s'.segs == s.segs && s'.cancelled == s.cancelled && s'.paused == s.paused
      && (forall j :: 0 <= j < |s.tasks| && j != i ==> s'.tasks[j] == s.tasks[j] && s'.progress[j] == s.progress[j])
      && (!act.Write? && !act.WriteFails? ==> file' == file)
  {
    hide WriteAt, OnReply;
  }

  /** An error that no retry can cure stops every segment. */
  predicate Stops(cfg: Config, s: Session, i: nat, act: Act)
    requires Shaped(s) && i < |s.tasks|
  {
    var t, seg := s.tasks[i], s.segs[i];
    match act
    case Ask(primary, reply) =>
      t.Top? && t.got < seg.Size() && OnReply(cfg, seg, t.got, t.attempt, primary, reply).0.Finished? && StopsAll(reply)
    case StreamFails(retryable) => t.Streaming? && !retryable
    case _ => false
  }

  lemma StoppingExactly(cfg: Config, file: seq<byte>, s: Session, i: nat, act: Act)
    requires Shaped(s) && i < |s.tasks| && Run(cfg, file, s, i, act).Some?
    ensures Run(cfg, file, s, i, act).value.1.fatal <==> s.fatal || Stops(cfg, s, i, act)
  {
    hide WriteAt, OnReply;
    if act.Ask? && s.tasks[i].Top? {
      AnswerExactly(cfg, s.segs[i], s.tasks[i].got, s.tasks[i].attempt, act.primary, act.reply);
    }
  }

  /** Writing, publishing and counting one chunk: the bytes go where the task
      stands, its progress and the counter grow by the chunk. */
  lemma ChunkCounts(cfg: Config, file: seq<byte>, s: Session, i: nat, n: nat)
    requires Shaped(s) && i < |s.tasks| && s.tasks[i].Streaming? && n <= |s.tasks[i].body|
    requires s.tasks[i].got + n <= s.segs[i].Size() && s.downloaded + n <= |cfg.remote|
    ensures var t := s.tasks[i];
      var done := s.(tasks := s.tasks[i := Streaming(t.got + n, t.attempt, t.body[n..])],
                     progress := s.progress[i := t.got + n], downloaded := s.downloaded + n);
      ThreeSteps(cfg, file, s, i, n, WriteAt(file, s.segs[i].start + t.got, t.body[..n]), done)
  {
    hide WriteAt, OnReply;
    var t := s.tasks[i];
    var s1 := SetTask(s, i, Written(t.got + n, t.attempt, t.body[n..], n));
    var s2 := SetTask(s1, i, Published(t.got + n, t.attempt, t.body[n..], n)).(progress := s.progress[i := t.got + n]);
    var s3 := SetTask(s2, i, Streaming(t.got + n, t.attempt, t.body[n..])).(downloaded := s.downloaded + n);
    assert s3.tasks == s.tasks[i := Streaming(t.got + n, t.attempt, t.body[n..])];
  }

  predicate ThreeSteps(cfg: Config, file: seq<byte>, s: Session, i: nat, n: nat, file': seq<byte>, s': Session)
    requires Shaped(s) && i < |s.tasks|
  {
    && Run(cfg, file, s, i, Write(n)).Some?
    && var (f1, s1) := Run(cfg, file, s, i, Write(n)).value;
    && Shaped(s1) && |s1.tasks| == |s.tasks| && Run(cfg, f1, s1, i, Publish).Some?
    && var (f2, s2) := Run(cfg, f1, s1, i, Publish).value;
    && Shaped(s2) && |s2.tasks| == |s.tasks| && Run(cfg, f2, s2, i, Count) == Some((file', s'))
  }

  /** Too many bytes for the segment or for the file end the task, with an error
      that is not retried. */
  lemma OverrunIsAnError(cfg: Config, file: seq<byte>, s: Session, i: nat)
    requires Shaped(s) && i < |s.tasks|
    ensures s.tasks[i].Written? && s.tasks[i].got > s.segs[i].Size() ==>
      Run(cfg, file, s, i, Publish) == Some((file, SetTask(s, i, Finished(Some(Other(false))))))
    ensures s.tasks[i].Published? && s.downloaded + s.tasks[i].chunk > |cfg.remote| ==>
      Run(cfg, file, s, i, Count).Some? && Run(cfg, file, s, i, Count).value.1.tasks[i] == Finished(Some(Other(false)))
  {
    hide WriteAt, OnReply;
  }

  /** A failing disk ends the task with an error another attempt may cure; the
      part of the chunk that was written is not counted. */
  lemma WriteFailureEnds(cfg: Config, file: seq<byte>, s: Session, i: nat, n: nat)
    requires Shaped(s) && i < |s.tasks| && s.tasks[i].Streaming? && n <= |s.tasks[i].body|
    ensures Run(cfg, file, s, i, WriteFails(n))
      == Some((WriteAt(file, s.segs[i].start + s.tasks[i].got, s.tasks[i].body[..n]),
               s.(tasks := s.tasks[i := Finished(Some(Other(true)))])))
  {
    hide WriteAt, OnReply;
  }

  /** A stream that ends, however short, and a task that gives way to a pause, a
      cancellation or a failure elsewhere, end without an error. */
  lemma EndsQuietly(cfg: Config, file: seq<byte>, s: Session, i: nat, act: Act)
    requires Shaped(s) && i < |s.tasks| && (act.StreamEnds? || act.Quit?) && Run(cfg, file, s, i, act).Some?
    ensures Run(cfg, file, s, i, act).value == (file, s.(tasks := s.tasks[i := Finished(None)]))
  {
    hide WriteAt, OnReply;
  }

  /** Pausing and cancelling only raise a flag. */
  lemma FlagsOnly(cfg: Config, file: seq<byte>, s: Session)
    requires Shaped(s)
    ensures SegmentTasks.Apply(cfg, file, s, Pause) == Some((file, s.(paused := true)))
    ensures SegmentTasks.Apply(cfg, file, s, Cancel) == Some((file, s.(cancelled := true)))
  {
  }

  // -------------------------------------------------------------- the join

  /** Task `i` failed with such an error. */
  predicate FailedWith(s: Session, i: nat, e: Error) { i < |s.tasks| && s.tasks[i] == Finished(Some(e)) }

  /** How a run ends. Any failed segment outweighs what the others achieved; one
      that asks for a restart outweighs all; and without a failure a short file is
      excused by a pause or a cancellation alone. */
  lemma JoinExactly(cfg: Config, s: Session)
    ensures Join(cfg, s) == RestartWithoutRanges <==>
      exists i: nat, e :: FailedWith(s, i, e) && (e.RangeNotSupported? || e == HttpStatus(416))
    ensures Join(cfg, s) == Complete <==> (forall i: nat, e :: !FailedWith(s, i, e)) && s.downloaded == |cfg.remote|
    ensures Join(cfg, s) == Stopped <==>
      (forall i: nat, e :: !FailedWith(s, i, e)) && s.downloaded != |cfg.remote| && (s.cancelled || s.paused)
    ensures Join(cfg, s) == Failed(true) <==>
      Join(cfg, s) != RestartWithoutRanges && exists i: nat, e :: FailedWith(s, i, e) && Retryable(e)
  {
    hide Retryable;
    forall i: nat | i < |s.tasks| && HasError(s.tasks[i]) ensures FailedWith(s, i, s.tasks[i].error.value) { }
  }

  // ------------------------------------------------------------ a session

  /** The partial file is given up: renamed into place, or thrown away before a
      fallback to a single stream, which a cancelled session does not get. */
  predicate GivesUpPart(cfg: Config, s: Session) {
    Join(cfg, s) == Complete || (Join(cfg, s) == RestartWithoutRanges && !s.cancelled)
  }

  /** When something can happen to the files or the session. */
  ghost predicate CanHappen(cfg: Config, w: World, e: Event) {
    match e
    case Launch(choice, _, initial) =>
      w.run.None? && (choice.None? || choice.value in w.saved) && IsInitial(initial, |cfg.remote|)
    case Work(step) =>
      && w.run.Some? && w.part.Some? && Shaped(w.run.value)
      && SegmentTasks.Apply(cfg, w.part.value, w.run.value, step).Some?
      && (step.On? && step.act.Ask? ==> Honest(cfg, step.act.reply))
    case Persist => w.run.Some?
    case Kill => w.run.Some?
    case Finish => w.run.Some? && AllDone(w.run.value)
    case Lose(_) => w.run.None?
  }

  lemma HappensExactly(cfg: Config, w: World, e: Event)
    ensures Next(cfg, w, e).Some? <==> CanHappen(cfg, w, e)
  {
    hide Join, IsInitial, SegmentTasks.Apply, Honest, AllDone, Snapshot;
  }

  /** What an event does to the files: only a complete run puts one in place, and
      only a session that ends gives up the partial file. A kill and a stored
      snapshot touch neither. */
  lemma FilesAfter(cfg: Config, w: World, e: Event)
    requires Next(cfg, w, e).Some?
    ensures var w' := Next(cfg, w, e).value;
      && (e.Finish? && Join(cfg, w.run.value) == Complete ==> w'.final == w.part)
      && (!(e.Finish? && Join(cfg, w.run.value) == Complete) ==> w'.final == w.final)
      && (e.Finish? ==> w'.part == if GivesUpPart(cfg, w.run.value) then None else w.part)
      && (e.Launch? ==> w'.part == Some(OpenedFile(cfg, w)))
      && (e.Lose? ==> w'.part == e.part)
      && (e.Kill? || e.Persist? ==> w'.part == w.part)
  {
    hide Join, IsInitial, SegmentTasks.Apply, Honest, AllDone, Snapshot, SetLen;
  }

  /** What it does to the session: a launch opens one with every flag down, a kill
      and an end close it, and everything else leaves it open. */
  lemma SessionAfter(cfg: Config, w: World, e: Event)
    requires Next(cfg, w, e).Some?
    ensures var w' := Next(cfg, w, e).value;
      && (e.Kill? || e.Finish? || e.Lose? ==> w'.run.None?)
      && (e.Persist? ==> w'.run == w.run)
      && (e.Work? ==> w'.run.Some?)
      && (e.Launch? ==>
            && w'.run == Some(Opened(Chosen(w, e.choice, e.reloaded, e.initial)))
            && !w'.run.value.cancelled && !w'.run.value.fatal && !w'.run.value.paused)
  {
    hide Join, IsInitial, SegmentTasks.Apply, Honest, AllDone, Snapshot, SetLen;
  }

  /** Snapshots are never lost from the store, only added to; but of those of the
      present partial file none is left once it is gone. */
  lemma SnapshotsAfter(cfg: Config, w: World, e: Event)
    requires Next(cfg, w, e).Some?
    ensures var w' := Next(cfg, w, e).value;
      && (e.Persist? ==> var c := Snapshot(w.run.value.segs, w.run.value.progress);
            w'.saved == w.saved + {c} && w'.current == w.current + {c})
      && (!e.Persist? ==> w'.saved == w.saved)
      && (e.Kill? || e.Work? ==> w'.current == w.current)
      && (e.Lose? ==> w'.current == {})
      && (e.Finish? ==> w'.current == if GivesUpPart(cfg, w.run.value) then {} else w.current)
      && (e.Launch? ==> w'.current == if w.part.Some? then w.current else {})
  {
    hide Join, IsInitial, SegmentTasks.Apply, Honest, AllDone, Snapshot, SetLen;
  }

  /** What a session starts from. */
  lemma ChosenExactly(w: World, c: seq<Segment>, initial: seq<Segment>)
    ensures Chosen(w, None, true, initial) == Chosen(w, None, false, initial) == initial
    ensures w.part.None? ==> Chosen(w, Some(c), true, initial) == Chosen(w, Some(c), false, initial) == initial
    ensures w.part.Some? ==> Chosen(w, Some(c), false, initial) == c && Chosen(w, Some(c), true, initial) == ReloadAll(c)
  {
  }
}
