/** Deciding whether a partial file may be continued: comparing validators and
    checking the answer to a range request (sections 13.1.5 and 14.4 of RFC 9110). */
module Resume {
  import opened Prelude
  import opened Text

  const BYTES_UNIT: seq<byte> := [98, 121, 116, 101, 115, 32]
  const SLASH: byte := 47
  const STAR: byte := 42

  type Header = seq<byte>

  datatype Validators = Validators(etag: Option<Header>, lastModified: Option<Header>)

  function ValidatorMatches(saved: Option<Header>, current: Option<Header>): bool {
    match (saved, current)
    case (Some(s), Some(c)) => s == c
    case (Some(_), None) => false
    case (None, _) => true
  }

  /** A saved validator must still be there and be the same; where none was
      saved, nothing is compared. */
  predicate ValidatorsMatch(saved: Validators, current: Validators) {
    ValidatorMatches(saved.etag, current.etag) && ValidatorMatches(saved.lastModified, current.lastModified)
  }

  /** The match, field by field. */
  lemma MatchExactly(saved: Validators, current: Validators)
    ensures ValidatorsMatch(saved, current) <==>
      && (saved.etag.None? || current.etag == saved.etag)
      && (saved.lastModified.None? || current.lastModified == saved.lastModified)
  {
  }

  datatype Span = Span(start: nat, end: nat, total: Option<nat>)

  function ParseContentRange(header: Header): Option<Span> {
    if !(BYTES_UNIT <= header) then None
    else
      var parts := Split(header[|BYTES_UNIT|..], SLASH);
      if |parts| != 2 then None
      else
        var range := Split(parts[0], MINUS);
        if |range| != 2 then None
        else
          var start := ParseUnsigned(range[0], TWO_64);
          var end := ParseUnsigned(range[1], TWO_64);
          if start.None? || end.None? then None
          else Some(Span(start.value, end.value, if parts[1] == [STAR] then None else ParseUnsigned(parts[1], TWO_64)))
  }

  /** The header a server sends for a range. */
  function ContentRange(start: nat, end: nat, total: Option<nat>): Header {
    BYTES_UNIT + Digits(start) + [MINUS] + Digits(end) + [SLASH] + (if total.Some? then Digits(total.value) else [STAR])
  }

  lemma SplitTwo(a: Header, b: Header, sep: byte)
    requires sep !in a && sep !in b
    ensures Split(a + [sep] + b, sep) == [a, b]
  {
    SplitOfJoin([a, b], sep);
    assert [a, b][1..] == [b];
    assert Join([a, b], sep) == a + [sep] + b;
  }

  lemma NoDigit(n: nat, c: byte)
    requires !IsDigit(c)
    ensures c !in Digits(n)
  {
  }

  lemma AfterUnit(a: Header, b: Header, t: Header)
    ensures (BYTES_UNIT + a + [MINUS] + b + [SLASH] + t)[|BYTES_UNIT|..] == a + [MINUS] + b + [SLASH] + t
    ensures BYTES_UNIT <= BYTES_UNIT + a + [MINUS] + b + [SLASH] + t
  {
  }

  lemma RangeText(start: nat, end: nat, total: Option<nat>)
    ensures var h := ContentRange(start, end, total);
      var t := if total.Some? then Digits(total.value) else [STAR];
      BYTES_UNIT <= h && Split(h[|BYTES_UNIT|..], SLASH) == [Digits(start) + [MINUS] + Digits(end), t]
  {
    hide Digits, Split, IsDigit;
    var t := if total.Some? then Digits(total.value) else [STAR];
    AfterUnit(Digits(start), Digits(end), t);
    NoSlash(start);
    NoSlash(end);
    if total.Some? { NoSlash(total.value); }
    SplitTwo(Digits(start) + [MINUS] + Digits(end), t, SLASH);
  }

  lemma NoSlash(n: nat)
    ensures SLASH !in Digits(n)
  {
    NoDigit(n, SLASH);
  }

  /** A printed range header reads back, exactly when its bounds fit 64 bits; a
      total that does not fit, or is unknown, reads as unknown. */
  lemma ContentRangeRoundTrip(start: nat, end: nat, total: Option<nat>)
    ensures ParseContentRange(ContentRange(start, end, total)) ==
      if start < TWO_64 && end < TWO_64 then
        Some(Span(start, end, if total.Some? && total.value < TWO_64 then total else None))
      else None
  {
    RangeText(start, end, total);
    NoDigit(start, MINUS);
    NoDigit(end, MINUS);
    hide ContentRange;
    SplitTwo(Digits(start), Digits(end), MINUS);
    UnsignedRoundTrip(start, TWO_64);
    UnsignedRoundTrip(end, TWO_64);
    if total.Some? {
      UnsignedRoundTrip(total.value, TWO_64);
      NoDigit(total.value, STAR);
    }
  }

  // ------------------------------------------------------------- answers

  /** Only the wording of a rejection depends on this. */
  datatype Context = Context(sentIfRange: bool, expected: Validators, response: Validators)

  datatype Reason =
    EtagChanged | LastModifiedChanged | NotPartialAfterIfRange | RangeIgnored
    | NoContentRange | BadPosition | WrongEnd

  /** The errors that matter for what happens next. */
  datatype Error =
    | RangeNotSupported(reason: Reason)
    | HttpStatus(code: nat)
    | Other(retryable: bool)
    | Shutdown

  function Retryable(e: Error): bool {
    match e
    case RangeNotSupported(_) => false
    case HttpStatus(code) => code == 408 || code == 429 || 500 <= code < 600
    case Other(retryable) => retryable
    case Shutdown => false
  }

  predicate ShouldRestartWithoutRanges(e: Error) { e.RangeNotSupported? || e == HttpStatus(416) }

  /** The errors that another attempt may cure, and those that need the whole
      download again without ranges: none is both. */
  lemma ErrorsExactly(e: Error)
    ensures Retryable(e) <==> e == Other(true) || (e.HttpStatus? && (e.code == 408 || e.code == 429 || e.code / 100 == 5))
    ensures ShouldRestartWithoutRanges(e) <==> e == HttpStatus(416) || exists r :: e == RangeNotSupported(r)
    ensures !(Retryable(e) && ShouldRestartWithoutRanges(e))
  {
  }

  predicate Differ(a: Option<Header>, b: Option<Header>) { a.Some? && b.Some? && a != b }

  function ValidateRangedResponse(start: nat, end: Option<nat>, status: nat, contentRange: Option<Header>, ctx: Context): Option<Error> {
    if status != 206 then
      Some(RangeNotSupported(
        if status == 200 && Differ(ctx.expected.etag, ctx.response.etag) then EtagChanged
        else if status == 200 && Differ(ctx.expected.lastModified, ctx.response.lastModified) then LastModifiedChanged
        else if status == 200 && ctx.sentIfRange then NotPartialAfterIfRange
        else RangeIgnored))
    else if contentRange.None? then Some(RangeNotSupported(NoContentRange))
    else
      var span := ParseContentRange(contentRange.value);
      if span.None? || span.value.start != start then Some(RangeNotSupported(BadPosition))
      else if end.Some? && span.value.end != end.value then Some(RangeNotSupported(WrongEnd))
      else None
  }

  /** An answer is accepted exactly when it is a partial response for the
      requested span; every rejection asks for a restart without ranges. */
  lemma AcceptsExactlyTheSpan(start: nat, end: Option<nat>, status: nat, contentRange: Option<Header>, ctx: Context)
    ensures var v := ValidateRangedResponse(start, end, status, contentRange, ctx);
      && (v.None? <==>
            && status == 206 && contentRange.Some?
            && exists total, last :: ParseContentRange(contentRange.value) == Some(Span(start, last, total))
                 && (end.Some? ==> last == end.value))
      && (v.Some? ==> ShouldRestartWithoutRanges(v.value) && !Retryable(v.value))
  {
    if status == 206 && contentRange.Some? && ParseContentRange(contentRange.value).Some? {
      var span := ParseContentRange(contentRange.value).value;
      assert span == Span(span.start, span.end, span.total);
    }
  }

  /** Both are known, and are not the same. */
  predicate Contradicts(expected: Option<Header>, found: Option<Header>) {
    expected.Some? && found.Some? && expected.value != found.value
  }

  predicate WrongStart(start: nat, header: Header) {
    var span := ParseContentRange(header);
    span.Some? ==> span.value.start != start
  }

  predicate WrongEndAlone(start: nat, end: Option<nat>, header: Header) {
    !WrongStart(start, header) && end.Some? && ParseContentRange(header).value.end != end.value
  }

  /** Why an answer is rejected. The validators are looked at only when the whole
      file is sent instead. */
  lemma RejectedBecause(start: nat, end: Option<nat>, status: nat, contentRange: Option<Header>, ctx: Context)
    requires ValidateRangedResponse(start, end, status, contentRange, ctx).Some?
    ensures ValidateRangedResponse(start, end, status, contentRange, ctx).value.RangeNotSupported?
    ensures var why := ValidateRangedResponse(start, end, status, contentRange, ctx).value.reason;
      var newTag := Contradicts(ctx.expected.etag, ctx.response.etag);
      var newDate := Contradicts(ctx.expected.lastModified, ctx.response.lastModified);
      && (why == EtagChanged <==> status == 200 && newTag)
      && (why == LastModifiedChanged <==> status == 200 && newDate && !newTag)
      && (why == NotPartialAfterIfRange <==> status == 200 && ctx.sentIfRange && !newTag && !newDate)
      && (why == RangeIgnored <==> status != 206 && (status == 200 ==> !ctx.sentIfRange && !newTag && !newDate))
      && (why == NoContentRange <==> status == 206 && contentRange.None?)
      && (why == WrongEnd <==> status == 206 && contentRange.Some? && WrongEndAlone(start, end, contentRange.value))
      && (why == BadPosition <==> status == 206 && contentRange.Some? && WrongStart(start, contentRange.value))
  {
    hide ParseContentRange;
  }

  /** A server's own header for the requested span is accepted, and one for
      another start or end is not. */
  lemma ServerHeaderAccepted(start: nat, end: nat, askedStart: nat, askedEnd: nat, total: Option<nat>, ctx: Context)
    requires start < TWO_64 && end < TWO_64
    ensures ValidateRangedResponse(askedStart, Some(askedEnd), 206, Some(ContentRange(start, end, total)), ctx).None?
      <==> start == askedStart && end == askedEnd
  {
    ContentRangeRoundTrip(start, end, total);
  }
}
