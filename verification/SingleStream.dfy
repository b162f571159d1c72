/** The single-connection download itself: its loop, its disk and a server, each
    step of which is an event of `StreamSession`. */
module SingleStream {
  import opened Prelude
  import opened Resume
  import opened StreamSession
  import opened StreamSafety
  import opened StreamTheorems

  /** The server, whose file may change before any request. The contracts say
      all that is assumed of it; the bodies are one server that meets them. */
  class Server {
    const versions: History
    const subsets: bool
    const strict: bool
    var now: nat
    var gets: nat

    ghost predicate Valid()
      reads this
    {
      now < |versions| && DistinctTags(versions)
    }

    constructor (versions: History, subsets: bool, strict: bool)
      requires versions != [] && DistinctTags(versions)
      ensures Valid() && now == 0 && gets == 0
      ensures this.versions == versions && this.subsets == subsets && this.strict == strict
    {
      this.versions, this.subsets, this.strict, now, gets := versions, subsets, strict, 0, 0;
    }

    method Advance()
      requires Valid()
      modifies this`now
      ensures Valid() && old(now) <= now
    {
      var later: nat :| now <= later < |versions|;
      now := later;
    }

    method Head() returns (r: Option<HeadReply>)
      requires Valid()
      modifies this`now
      ensures Valid() && old(now) <= now && HonestProbe(versions[now], r)
    {
      Advance();
      if * { return None; }
      var length: Option<nat> := None;
      if * { length := Some(|versions[now].content|); }
      var ranges: bool := *;
      r := Some(HeadReply(length, ranges, ValidatorsOf(versions[now])));
    }

    method Get(from: nat, ifRange: Option<Header>) returns (r: GetReply)
      requires Valid()
      modifies this`now, this`gets
      ensures Valid() && old(now) <= now && gets == old(gets) + 1
      ensures Honest(versions[now], from, ifRange, subsets, r) && (strict ==> Strict(versions[now], from, r))
    {
      Advance();
      gets := gets + 1;
      if * {
        var error: Error := *;
        return Unanswered(error);
      }
      if strict && from > 0 && |versions[now].content| <= from {
        return Answered(416, None, None, ValidatorsOf(versions[now]), [], Ended);
      }
      var chunks := [versions[now].content];
      assert chunks[..0] == [];
      r := Answered(200, None, Some(|versions[now].content|), ValidatorsOf(versions[now]), chunks, Ended);
    }
  }

  /** How a session goes on from an error while streaming: it asks again if the
      error and the retries left allow. */
  predicate Fell(maxAttempts: nat, s: Session, e: Error, s': Session) {
    && s'.probe == s.probe && s'.cell == s.cell
    && if Retryable(e) && s.attempt < maxAttempts then
         s'.phase == Asking && s'.attempt == s.attempt + 1 && s'.allowResume == Ranges(s)
       else s'.phase == Failed(e)
  }

  /** What outlives the process: the partial file, the file put in place and the
      stored validators; and the cell shared with the caller.

      Every change is one event of a fair run, so whenever the process is killed
      it leaves a state that `StreamSafety.RunKeeps` speaks of. */
  class Disk {
    var part: Option<seq<byte>>
    var final: Option<seq<byte>>
    var cell: Validators
    var stored: Validators
    ghost const cfg: Config
    ghost const start: World
    ghost var events: seq<Event>
    ghost var world: World

    ghost predicate Ran()
      reads this`events, this`world
    {
      Fair(cfg, start, events) && world == Run(cfg, start, events)
    }

    ghost predicate Shows(s: Session)
      reads this
    {
      part == s.part && final == s.final && cell == s.cell && stored == s.stored
    }

    ghost predicate Valid()
      reads this
    {
      Ran() && Shows(world.s)
    }

    constructor (part: Option<seq<byte>>, given: Validators, stored: Validators, ghost cfg: Config, ghost now: nat)
      ensures Valid() && this.cfg == cfg && start == world == World(now, Entry(part, given, stored))
    {
      this.part, final, cell, this.stored := part, None, given, stored;
      this.cfg, start, events, world := cfg, World(now, Entry(part, given, stored)), [], World(now, Entry(part, given, stored));
    }

    ghost method Record(e: Event)
      requires Ran() && Allowed(cfg, world, e)
      modifies this`events, this`world
      ensures Ran() && Enabled(old(world).s, e)
      ensures world.now == (if e.Probe? || e.Ask? then e.now else old(world).now)
      ensures world.s == Next(cfg.maxAttempts, old(world).s, e)
    {
      hide Next, Honest;
      RunSnoc(cfg, start, events, e);
      events, world := events + [e], Step(cfg, world, e);
    }

    /** The session is cancelled, or fails outside its streaming. */
    ghost method Halt(reason: Error)
      requires Valid() && Enabled(world.s, Stop(reason))
      modifies this`events, this`world
      ensures Valid() && world == World(old(world).now, old(world).s.(phase := Failed(reason)))
    {
      hide Ran;
      Record(Stop(reason));
    }

    /** An answer that is not to be stored, or cannot be. */
    ghost method Refuse(e: Event)
      requires Valid() && Allowed(cfg, world, e) && e.Ask? && Shows(OnAsk(world.s, e.answer, e.opens))
      modifies this`events, this`world
      ensures Valid() && world == World(e.now, OnAsk(old(world).s, e.answer, e.opens))
    {
      hide Ran, Honest, OnAsk;
      Record(e);
    }

    method Publish(v: Validators, ghost e: Event)
      requires Valid() && Allowed(cfg, world, e) && e.Probe? && v == (if e.probed.Some? then e.probed.value.validators else UNKNOWN)
      modifies this`cell, this`events, this`world
      ensures Valid() && world == World(e.now, OnProbe(old(world).s, e.probed))
    {
      hide Ran, ValidatorsMatch;
      cell := v;
      Record(e);
    }

    /** Opening the partial file for an answer, to append or anew. */
    method Open(truncate: bool, ghost e: Event)
      requires Valid() && Allowed(cfg, world, e) && e.Ask?
      requires Shows(OnAsk(world.s, e.answer, e.opens).(part := part))
      requires OnAsk(world.s, e.answer, e.opens).part == if truncate then Some([]) else part
      modifies this`part, this`events, this`world
      ensures Valid() && world == World(e.now, OnAsk(old(world).s, e.answer, e.opens))
    {
      hide Ran, Honest, OnAsk;
      if truncate { part := Some([]); }
      Record(e);
    }

    method Append(chunk: seq<byte>)
      requires Valid() && Enabled(world.s, Chunk) && chunk == NextChunk(world.s)
      modifies this`part, this`events, this`world
      ensures Valid() && old(part).Some? && part == Some(old(part).value + chunk)
      ensures world.now == old(world).now
      ensures var s := old(world).s;
        if s.phase.total.Some? && |part.value| > s.phase.total.value then Fell(cfg.maxAttempts, s, Other(false), world.s)
        else world.s == s.(part := part, phase := s.phase.(next := s.phase.next + 1))
    {
      hide Ran, Retryable;
      part := Some(part.value + chunk);
      Record(Chunk);
    }

    /** A write or flush that fails, leaving `size` bytes. */
    method Spoil(chunk: seq<byte>, size: nat)
      requires Valid() && Enabled(world.s, Fault(size)) && chunk == NextChunk(world.s)
      requires part.Some? && size <= |part.value + chunk|
      modifies this`part, this`events, this`world
      ensures Valid() && part == Some((old(part).value + chunk)[..size])
      ensures world.now == old(world).now && Fell(cfg.maxAttempts, old(world).s, Other(true), world.s)
    {
      hide Ran, NextChunk, Retryable;
      var most := part.value + chunk;
      assert most[..|most|] == most;
      part := Some(most[..size]);
      Record(Fault(size));
    }

    /** The progress callback: the caller copies the cell to what is stored. */
    method Tell()
      requires Valid() && Enabled(world.s, Report)
      modifies this`stored, this`events, this`world
      ensures Valid() && world == World(old(world).now, old(world).s.(stored := stored, reported := true))
    {
      hide Ran;
      stored := cell;
      Record(Report);
    }

    /** The end of a body, with a last report if it came cleanly. */
    method TellEnd(clean: bool)
      requires Valid() && Enabled(world.s, Finish) && clean == world.s.phase.reply.ending.Ended?
      modifies this`stored, this`events, this`world
      ensures Valid() && world.now == old(world).now
      ensures var s := old(world).s;
        if !clean then Fell(cfg.maxAttempts, s, s.phase.reply.ending.error, world.s)
        else if s.phase.total.Some? && |part.value| != s.phase.total.value then Fell(cfg.maxAttempts, s, Other(false), world.s)
        else world.s == s.(stored := cell, reported := true, phase := Written(s.phase.reply))
    {
      hide Ran, Retryable;
      if clean { stored := cell; }
      Record(Finish);
    }

    method Rename()
      requires Valid() && Enabled(world.s, Place)
      modifies this`part, this`final, this`events, this`world
      ensures Valid() && final == old(part) && part == None && world.now == old(world.now) && world.s.phase.Placed?
    {
      hide Ran;
      part, final := None, part;
      Record(Place);
    }
  }

  /** Writing a response to the partial file, chunk by chunk. A write, or the
      flush at the end, may fail and leave any part of what was to be there. */
  method StreamToFile(disk: Disk, reply: GetReply, total: Option<nat>, from: nat) returns (error: Option<Error>)
    requires disk.Valid() && disk.world.s.phase == Writing(reply, from, 0, total) && reply.Answered?
    requires disk.part.Some? && |disk.part.value| == from
    modifies disk`part, disk`stored, disk`events, disk`world
    ensures disk.Valid() && disk.world.now == old(disk.world.now)
    ensures disk.part.Some? && disk.part.value <= old(disk.part).value + Concat(reply.chunks)
    ensures error.Some? ==> Fell(disk.cfg.maxAttempts, old(disk.world.s), error.value, disk.world.s)
    ensures error.None? ==>
      disk.world.s == old(disk.world.s).(part := disk.part, stored := disk.cell, reported := true, phase := Written(reply))
    ensures error.None? ==> reply.ending.Ended? && disk.part == Some(old(disk.part).value + Concat(reply.chunks))
    ensures error.None? && total.Some? ==> |disk.part.value| == total.value
  {
    hide Concat, Disk.Ran, Fell, StreamFails;
    ghost var begin, max, s0 := disk.part.value, disk.cfg.maxAttempts, disk.world.s;
    var downloaded, i := from, 0;
    NoneYet(begin, reply.chunks);
    while i < |reply.chunks|
      invariant 0 <= i <= |reply.chunks| && disk.Valid() && disk.world.now == old(disk.world.now)
      invariant disk.part == Some(begin + Concat(reply.chunks[..i])) && disk.part.value <= begin + Concat(reply.chunks)
      invariant downloaded == |disk.part.value|
      invariant disk.world.s == s0.(part := disk.part, stored := disk.stored, reported := disk.world.s.reported,
                                    phase := Writing(reply, from, i, total))
    {
      ghost var s := disk.world.s;
      if * {
        disk.Halt(Shutdown);
        HaltedFell(max, s0, disk.world.s);
        return Some(Shutdown);
      }
      ChunkArrives(begin, reply.chunks, i, begin + Concat(reply.chunks));
      if * {
        var size: nat :| size <= |disk.part.value + reply.chunks[i]|;
        disk.Spoil(reply.chunks[i], size);
        FellAlong(max, s0, s, Other(true), disk.world.s);
        return Some(Other(true));
      }
      disk.Append(reply.chunks[i]);
      downloaded := downloaded + |reply.chunks[i]|;
      if total.Some? && downloaded > total.value {
        FellAlong(max, s0, s, Other(false), disk.world.s);
        return Some(Other(false));
      }
      if * { disk.Tell(); }
      i := i + 1;
    }
    assert reply.chunks[..|reply.chunks|] == reply.chunks;
    ghost var s := disk.world.s;
    error := Conclude(disk, reply, total, from, downloaded);
    if error.Some? { FellAlong(max, s0, s, error.value, disk.world.s); }
  }

  /** The end of a body: flushed, reported, and compared in size. */
  method Conclude(disk: Disk, reply: GetReply, total: Option<nat>, from: nat, downloaded: nat) returns (error: Option<Error>)
    requires disk.Valid() && reply.Answered? && disk.world.s.phase == Writing(reply, from, |reply.chunks|, total)
    requires disk.part.Some? && downloaded == |disk.part.value|
    modifies disk`part, disk`stored, disk`events, disk`world
    ensures disk.Valid() && disk.world.now == old(disk.world.now)
    ensures disk.part.Some? && disk.part.value <= old(disk.part).value
    ensures error.Some? ==> Fell(disk.cfg.maxAttempts, old(disk.world.s), error.value, disk.world.s)
    ensures error.None? ==> reply.ending.Ended? && disk.part == old(disk.part) && (total.Some? ==> downloaded == total.value)
    ensures error.None? ==>
      disk.world.s == old(disk.world.s).(stored := disk.cell, reported := true, phase := Written(reply))
  {
    hide Concat, Disk.Ran, Fell, StreamFails;
    if reply.ending.Broken? {
      disk.TellEnd(false);
      return Some(reply.ending.error);
    }
    if * {
      assert disk.part.value + [] == disk.part.value;
      var size: nat :| size <= |disk.part.value + []|;
      disk.Spoil([], size);
      return Some(Other(true));
    }
    disk.TellEnd(true);
    if total.Some? && downloaded != total.value { return Some(Other(false)); }
    return None;
  }

  lemma HaltedFell(maxAttempts: nat, s: Session, s': Session)
    requires s'.probe == s.probe && s'.cell == s.cell && s'.phase == Failed(Shutdown)
    ensures Fell(maxAttempts, s, Shutdown, s')
  {
  }

  lemma FellAlong(maxAttempts: nat, s0: Session, s: Session, e: Error, s': Session)
    requires Fell(maxAttempts, s, e, s')
    requires s.probe == s0.probe && s.cell == s0.cell && s.attempt == s0.attempt
    ensures Fell(maxAttempts, s0, e, s')
  {
  }

  lemma NoneYet(start: seq<byte>, chunks: seq<seq<byte>>)
    ensures start + Concat(chunks[..0]) == start
  {
    assert chunks[..0] == [];
  }

  /** How one request ends: start over without a range, fail (having streamed or
      not), or have the whole body on disk. */
  datatype Try = Restart | Erred(error: Error, streamed: bool) | Stored

  /** The server and the disk of one run. */
  ghost predicate Linked(server: Server, disk: Disk)
    reads server, disk
  {
    && server.Valid() && disk.Valid()
    && disk.cfg.versions == server.versions && disk.cfg.subsets == server.subsets && disk.cfg.strict == server.strict
    && disk.world.now == server.now
  }

  /** The ways to handle an answer. */
  lemma AskCases(s: Session, r: GetReply, opens: bool)
    ensures r.Unanswered? ==> OnAsk(s, r, opens) == s.(phase := Failed(r.error))
    ensures r.Answered? && !Success(r.status) ==> OnAsk(s, r, opens) == s.(phase := Failed(HttpStatus(r.status)))
    ensures r.Answered? && Success(r.status) && Verdict(s, r).Some? ==>
      OnAsk(s, r, opens) == if ShouldRestartWithoutRanges(Verdict(s, r).value) then s.(allowResume := false)
                            else s.(phase := Failed(Verdict(s, r).value))
    ensures r.Answered? && Success(r.status) && Verdict(s, r).None? && !opens ==>
      OnAsk(s, r, opens) == s.(phase := Failed(Other(true)))
    ensures r.Answered? && Success(r.status) && Verdict(s, r).None? && opens ==>
      OnAsk(s, r, opens) == s.(part := if From(s) > 0 && r.status == 206 then s.part else Some([]), touched := true,
        phase := Writing(r, From(s), 0, FirstSome(if r.length.Some? then Some(r.length.value + From(s)) else None,
                                                  if s.probe.Some? then s.probe.value.length else None)))
  {
    hide Verdict, From;
  }

  /** How a request leaves the session. */
  predicate Handled(maxAttempts: nat, s: Session, r: Try, s': Session) {
    match r
    case Restart => From(s) > 0 && s' == s.(allowResume := false)
    case Erred(e, streamed) => if streamed then Fell(maxAttempts, s, e, s') else s'.phase == Failed(e)
    case Stored => s'.phase.Written? && s'.part.Some?
  }

  lemma HandledCases(maxAttempts: nat, s: Session, r: Try, s': Session)
    requires Handled(maxAttempts, s, r, s')
    ensures r.Restart? ==> From(s) > 0 && s' == s.(allowResume := false)
    ensures r.Stored? ==> s'.phase.Written? && s'.part.Some?
    ensures r.Erred? ==>
      if r.streamed && Retryable(r.error) && s.attempt < maxAttempts then
        s'.phase.Asking? && s'.probe == s.probe && s'.cell == s.cell && s'.attempt == s.attempt + 1 && s'.allowResume == Ranges(s)
      else s'.phase == Failed(r.error)
  {
    hide Retryable;
  }

  lemma HaltedIsHandled(maxAttempts: nat, s: Session, s': Session)
    requires s'.phase == Failed(Shutdown)
    ensures Handled(maxAttempts, s, Erred(Shutdown, false), s')
  {
  }

  /** Handling an answer: it is refused, or stored. */
  method Handle(disk: Disk, reply: GetReply, resumeFrom: nat, sentIfRange: bool, validators: Validators,
                headLength: Option<nat>, opens: bool, ghost e: Event) returns (r: Try)
    requires disk.Valid() && disk.world.s.phase.Asking?
    requires Allowed(disk.cfg, disk.world, e) && e.Ask? && e.answer == reply && e.opens == opens
    requires resumeFrom == From(disk.world.s) && validators == disk.world.s.cell && sentIfRange == IfRange(disk.world.s).Some?
    requires headLength == if disk.world.s.probe.Some? then disk.world.s.probe.value.length else None
    modifies disk
    ensures disk.Valid() && disk.world.now == e.now && Handled(disk.cfg.maxAttempts, old(disk.world.s), r, disk.world.s)
  {
    hide Concat, Disk.Ran, Allowed, ValidateRangedResponse, OnAsk;
    AskCases(disk.world.s, reply, opens);
    if reply.Unanswered? {
      disk.Refuse(e);
      return Erred(reply.error, false);
    }
    if !Success(reply.status) {
      disk.Refuse(e);
      return Erred(HttpStatus(reply.status), false);
    }
    if resumeFrom > 0 {
      var ctx := Context(sentIfRange, validators, reply.validators);
      var verdict := ValidateRangedResponse(resumeFrom, None, reply.status, reply.contentRange, ctx);
      if verdict.Some? {
        disk.Refuse(e);
        return if ShouldRestartWithoutRanges(verdict.value) then Restart else Erred(verdict.value, false);
      }
      AcceptedIsPartial(resumeFrom, reply, ctx);
    }
    r := Store(disk, reply, resumeFrom, headLength, opens, e);
  }

  /** Opening the partial file for an answer, if that succeeds, and storing it. */
  method Store(disk: Disk, reply: GetReply, resumeFrom: nat, headLength: Option<nat>, opens: bool, ghost e: Event) returns (r: Try)
    requires disk.Valid() && disk.world.s.phase.Asking?
    requires Allowed(disk.cfg, disk.world, e) && e.Ask? && e.answer == reply && e.opens == opens
    requires resumeFrom == From(disk.world.s) && reply.Answered? && Success(reply.status)
    requires Verdict(disk.world.s, reply).None? && (resumeFrom > 0 ==> reply.status == 206)
    requires headLength == if disk.world.s.probe.Some? then disk.world.s.probe.value.length else None
    modifies disk
    ensures disk.Valid() && disk.world.now == e.now && Handled(disk.cfg.maxAttempts, old(disk.world.s), r, disk.world.s)
  {
    hide Concat, Disk.Ran, Allowed, Verdict, OnAsk;
    AskCases(disk.world.s, reply, opens);
    var responseLength := if reply.length.Some? then Some(reply.length.value + resumeFrom) else None;
    var total := FirstSome(responseLength, headLength);
    if !opens {
      disk.Refuse(e);
      return Erred(Other(true), false);
    }
    disk.Open(!(resumeFrom > 0 && reply.status == 206), e);
    var error := StreamToFile(disk, reply, total, resumeFrom);
    r := if error.Some? then Erred(error.value, true) else Stored;
  }

  /** One turn of the loop: a request and, if it is accepted, its body. */
  method Request(server: Server, disk: Disk, resumeFrom: nat, validators: Validators, headLength: Option<nat>) returns (r: Try)
    requires Linked(server, disk) && disk.world.s.phase.Asking?
    requires resumeFrom == From(disk.world.s) && validators == disk.world.s.cell
    requires headLength == if disk.world.s.probe.Some? then disk.world.s.probe.value.length else None
    modifies server`now, server`gets, disk
    ensures Linked(server, disk) && server.gets <= old(server.gets) + 1
    ensures Handled(disk.cfg.maxAttempts, old(disk.world.s), r, disk.world.s)
  {
    hide Honest, Disk.Ran, Handled, DistinctTags;
    var ifRange := if resumeFrom > 0 then FirstSome(validators.etag, validators.lastModified) else None;
    if * {
      disk.Halt(Shutdown);
      HaltedIsHandled(disk.cfg.maxAttempts, old(disk.world.s), disk.world.s);
      return Erred(Shutdown, false);
    }
    var reply := server.Get(resumeFrom, ifRange);
    var opens: bool := *;
    r := Handle(disk, reply, resumeFrom, ifRange.Some?, validators, headLength, opens, Ask(server.now, reply, opens));
  }

  /** The probe, and the decision whether to resume. */
  method Begin(server: Server, disk: Disk) returns (head: Option<HeadReply>, validators: Validators, allowResume: bool)
    requires Linked(server, disk) && disk.world.s == Entry(disk.part, disk.cell, disk.stored)
    modifies server`now, disk
    ensures Linked(server, disk)
    ensures disk.world.s.phase.Asking? && disk.world.s.attempt == 0 && disk.world.s.probe == head
    ensures validators == disk.world.s.cell && allowResume == disk.world.s.allowResume
  {
    hide Disk.Ran, DistinctTags, ValidatorsMatch;
    var saved := disk.cell;
    head := server.Head();
    var supportsRange := head.Some? && head.value.ranges;
    validators := if head.Some? then head.value.validators else UNKNOWN;
    var existing := if supportsRange && disk.part.Some? then |disk.part.value| else 0;
    disk.Publish(validators, Probe(server.now, head));
    allowResume := existing > 0;
    if allowResume && !ValidatorsMatch(saved, validators) { allowResume := false; }
  }

  /** The retry loop, until the session has failed or put a file in place. */
  method Attempts(server: Server, disk: Disk, maxAttempts: nat, head: Option<HeadReply>, validators: Validators, resume: bool)
      returns (error: Option<Error>)
    requires Linked(server, disk) && disk.cfg.maxAttempts == maxAttempts
    requires disk.world.s.phase.Asking? && disk.world.s.attempt == 0 && disk.world.s.probe == head
    requires validators == disk.world.s.cell && resume == disk.world.s.allowResume
    modifies server`now, server`gets, disk
    ensures Linked(server, disk) && server.gets <= old(server.gets) + 2 * (maxAttempts + 1)
    ensures error.Some? ==> disk.world.s.phase == Failed(error.value)
    ensures error.None? ==> disk.world.s.phase.Placed? && disk.final.Some? && disk.part.None?
  {
    hide Disk.Ran, DistinctTags, Retryable, Handled;
    var headLength := if head.Some? then head.value.length else None;
    var supportsRange := head.Some? && head.value.ranges;
    var allowResume, streamAttempt := resume, 0;
    while true
      invariant Linked(server, disk) && disk.world.s.phase.Asking?
      invariant disk.world.s.probe == head && validators == disk.cell
      invariant allowResume == disk.world.s.allowResume && streamAttempt == disk.world.s.attempt <= maxAttempts
      invariant server.gets <= old(server.gets) + 2 * streamAttempt + (if allowResume then 0 else 1)
      decreases maxAttempts - streamAttempt, allowResume
    {
      var onDisk := if supportsRange && disk.part.Some? then |disk.part.value| else 0;
      var resumeFrom := if allowResume then onDisk else 0;
      ghost var s := disk.world.s;
      var r := Request(server, disk, resumeFrom, validators, headLength);
      HandledCases(maxAttempts, s, r, disk.world.s);
      match r {
        case Restart =>
          allowResume := false;
        case Stored =>
          if * {
            var reason: Error := *;
            disk.Halt(reason);
            return Some(reason);
          }
          disk.Rename();
          return None;
        case Erred(e, streamed) =>
          if !(streamed && Retryable(e) && streamAttempt < maxAttempts) { return Some(e); }
          streamAttempt := streamAttempt + 1;
          allowResume := supportsRange;
          if * {
            disk.Halt(Shutdown);
            return Some(Shutdown);
          }
      }
    }
  }

  /** One download. A pause, a failing disk or a wrong checksum can end it where
      `if *` stands.

      Whatever it does is a fair run of the session, up to its end: it has
      failed with the error returned, or put a file in place. So each moment of
      it keeps what `StreamSafety.Keeps` says, and the exact conditions of
      `StreamTheorems` hold of it; and it sends at most two requests for each
      attempt the retry policy allows. */
  method Download(server: Server, disk: Disk, maxAttempts: nat) returns (error: Option<Error>)
    requires Linked(server, disk) && disk.cfg.maxAttempts == maxAttempts
    requires disk.world == disk.start && disk.start.s == Entry(disk.part, disk.cell, disk.stored)
    modifies server`now, server`gets, disk
    ensures Linked(server, disk) && server.gets <= old(server.gets) + 2 * (maxAttempts + 1)
    ensures error.Some? ==> disk.world.s.phase == Failed(error.value)
    ensures error.None? ==> disk.world.s.phase.Placed? && disk.final.Some? && disk.part.None?
    ensures Ready(disk.cfg, disk.start) ==> Keeps(disk.cfg, disk.start, disk.world)
    ensures Ready(disk.cfg, disk.start) && error.None? ==> disk.final.value <= server.versions[server.now].content
    ensures Ready(disk.cfg, disk.start) && error.None? && !server.subsets ==>
      disk.final.value == server.versions[server.now].content
  {
    hide Disk.Ran, Ready, Keeps, DistinctTags;
    if * {
      disk.Halt(Shutdown);
      error := Some(Shutdown);
    } else {
      var head, validators, allowResume := Begin(server, disk);
      if * {
        var reason: Error := *;
        disk.Halt(reason);
        error := Some(reason);
      } else {
        error := Attempts(server, disk, maxAttempts, head, validators, allowResume);
      }
    }
    RunIsRight(disk);
  }

  lemma RunIsRight(disk: Disk)
    requires disk.Valid()
    ensures Ready(disk.cfg, disk.start) ==> Keeps(disk.cfg, disk.start, disk.world)
    ensures Ready(disk.cfg, disk.start) && disk.world.s.phase.Placed? ==>
      && disk.world.now < |disk.cfg.versions| && disk.final.Some?
      && disk.final.value <= disk.cfg.versions[disk.world.now].content
      && (!disk.cfg.subsets ==> disk.final.value == disk.cfg.versions[disk.world.now].content)
  {
    var cfg, a, w := disk.cfg, disk.start, disk.world;
    assert Reaches(cfg, a, w);
    if Ready(cfg, a) {
      hide Fair, Run, Reaches, Ready, Keeps, Sourced;
      ReachedIsSourced(cfg, a, w);
      EndsShort(cfg, a, w);
      if w.s.phase.Placed? { PlacedFile(cfg, a, w); }
    }
  }
}
