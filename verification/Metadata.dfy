/** Fetching the info dictionary from peers (BEP 9, "extension message"): the
    message codec and the piece-assembly state machine. SHA-1 is a parameter. */
module Metadata {
  import opened Prelude
  import opened Text
  import opened Bencode
  import opened BencodeLaws
  import opened InfoDict

  const PIECE_SIZE: nat := 16 * 1024
  const MAX_METADATA_SIZE: nat := 16 * 1024 * 1024

  datatype Kind = Request | Data | Reject

  datatype Message = Message(kind: Kind, piece: nat, totalSize: Option<nat>, data: Option<seq<byte>>)

  // ------------------------------------------------------------------ codec

  const MSG_TYPE: seq<byte> := [109, 115, 103, 95, 116, 121, 112, 101]
  const PIECE: seq<byte> := [112, 105, 101, 99, 101]
  const TOTAL_SIZE: seq<byte> := [116, 111, 116, 97, 108, 95, 115, 105, 122, 101]

  /** The fields of a message are `usize`. */
  predicate WordSized(m: Message) {
    m.piece < TWO_64 && (m.totalSize.Some? ==> m.totalSize.value < TWO_64)
  }

  /** `usize as i64`. */
  function AsI64(n: nat): int
    requires n < TWO_64
  {
    if n < TWO_63 then n else n - TWO_64
  }

  function KindCode(k: Kind): byte {
    match k case Request => 0 case Data => 1 case Reject => 2
  }

  function KindFromCode(c: byte): Option<Kind> {
    if c == 0 then Some(Request) else if c == 1 then Some(Data) else if c == 2 then Some(Reject) else None
  }

  /** The codes of the three kinds, and no other. */
  lemma KindsExactly(k: Kind, c: byte)
    ensures KindFromCode(c) == Some(k) <==> c == KindCode(k)
    ensures KindFromCode(c).None? <==> c > 2
  {
  }

  function Header(m: Message): seq<Entry>
    requires WordSized(m)
  {
    [Entry(MSG_TYPE, Integer(KindCode(m.kind))), Entry(PIECE, Integer(AsI64(m.piece)))]
    + if m.totalSize.Some? then [Entry(TOTAL_SIZE, Integer(AsI64(m.totalSize.value)))] else []
  }

  function EncodeMessage(m: Message): seq<byte>
    requires WordSized(m)
  {
    Encode(Dict(Header(m))) + if m.data.Some? then m.data.value else []
  }

  function ParseMessage(bytes: seq<byte>): Result<Message> {
    match ParseAt(bytes, 0)
    case Bad => Err
    case Good(value, rest) =>
      if !value.Dict? then Err else
      var code := AsUint(Lookup(value.entries, MSG_TYPE));
      var kind := if code.Some? then KindFromCode(code.value % 256) else None;
      var piece := AsUint(Lookup(value.entries, PIECE));
      if kind.None? || piece.None? then Err else
      Ok(Message(kind.value, piece.value, AsUint(Lookup(value.entries, TOTAL_SIZE)),
                 if kind.value == Data && rest != [] then Some(rest) else None))
  }

  /** What survives the wire: numbers that fit an `i64`, and a payload only,
      and then not empty, on a data message. */
  predicate Transmissible(m: Message) {
    && m.piece < TWO_63
    && (m.totalSize.Some? ==> m.totalSize.value < TWO_63)
    && (m.data.Some? ==> m.kind == Data && m.data.value != [])
  }

  lemma HeaderAscends(m: Message)
    requires WordSized(m)
    ensures WellTyped(Dict(Header(m))) && Fits(Dict(Header(m)), 0)
    ensures Lookup(Header(m), MSG_TYPE) == Some(Integer(KindCode(m.kind)))
    ensures Lookup(Header(m), PIECE) == Some(Integer(AsI64(m.piece)))
    ensures Lookup(Header(m), TOTAL_SIZE)
         == if m.totalSize.Some? then Some(Integer(AsI64(m.totalSize.value))) else None
  {
    var h := Header(m);
    var a, b := h[0], h[1];
    assert Less(MSG_TYPE, PIECE) && Less(PIECE, TOTAL_SIZE);
    LookupAt(h, MSG_TYPE, 0);
    LookupAt(h, PIECE, 1);
    if m.totalSize.Some? {
      LookupAt(h, TOTAL_SIZE, 2);
      assert h[1..][1..] == [h[2]] && h[1..] == [b, h[2]] && h[2..][1..] == [];
      assert Ascending(Some(PIECE), [h[2]]) && Ascending(Some(MSG_TYPE), h[1..]);
    } else {
      assert h[1..] == [b] && [b][1..] == [];
      assert Ascending(Some(MSG_TYPE), h[1..]);
    }
    assert Ascending(None, h);
    assert forall i :: 0 <= i < |h| ==> WellTyped(h[i].value) && EntryFits(h[i], 1);
  }

  /** What a receiver makes of a message that was sent. */
  function Delivered(m: Message): Result<Message> {
    if m.piece >= TWO_63 then Err else
    var tail := if m.data.Some? then m.data.value else [];
    Ok(Message(m.kind, m.piece,
               if m.totalSize.Some? && m.totalSize.value < TWO_63 then m.totalSize else None,
               if m.kind == Data && tail != [] then Some(tail) else None))
  }

  lemma FieldsRead(m: Message)
    requires WordSized(m)
    ensures AsUint(Some(Integer(KindCode(m.kind)))) == Some(KindCode(m.kind) as nat)
    ensures KindFromCode(KindCode(m.kind) % 256) == Some(m.kind)
    ensures AsUint(Some(Integer(AsI64(m.piece)))) == if m.piece < TWO_63 then Some(m.piece) else None
    ensures AsUint(None) == None
    ensures m.totalSize.Some? ==>
      AsUint(Some(Integer(AsI64(m.totalSize.value)))) == if m.totalSize.value < TWO_63 then m.totalSize else None
  {
  }

  lemma HeaderReads(m: Message, bytes: seq<byte>, tail: seq<byte>)
    requires WordSized(m)
    requires tail == if m.data.Some? then m.data.value else []
    requires ParseAt(bytes, 0) == Good(Dict(Header(m)), tail)
    ensures ParseMessage(bytes) == Delivered(m)
  {
    hide ParseAt, Header, Lookup, WellTyped, Fits, KindCode, KindFromCode, AsUint, AsI64;
    HeaderAscends(m);
    FieldsRead(m);
  }

  lemma ParseDelivers(m: Message)
    requires WordSized(m)
    ensures ParseMessage(EncodeMessage(m)) == Delivered(m)
  {
    var tail := if m.data.Some? then m.data.value else [];
    HeaderAscends(m);
    RoundTrip(Dict(Header(m)), 0, tail);
    hide *;
    HeaderReads(m, EncodeMessage(m), tail);
  }

  /** A message reads back as itself exactly when it is transmissible. */
  lemma MessageRoundTrip(m: Message)
    requires WordSized(m)
    ensures ParseMessage(EncodeMessage(m)) == Ok(m) <==> Transmissible(m)
  {
    ParseDelivers(m);
    hide ParseMessage, EncodeMessage;
  }

  // --------------------------------------------------------------- assembly

  datatype State = State(
    total: Option<nat>,
    pieces: map<nat, seq<byte>>,
    pending: set<nat>,
    metadata: Option<seq<byte>>)

  datatype Reply = Pending | Completed | Refused

  function NumPieces(size: nat): nat { (size + PIECE_SIZE - 1) / PIECE_SIZE }

  function ExpectedSize(size: nat, piece: nat): nat {
    if piece < size / PIECE_SIZE then PIECE_SIZE else size % PIECE_SIZE
  }

  /** Pieces `0..n` in order, if all are there. */
  function Assemble(pieces: map<nat, seq<byte>>, n: nat): Option<seq<byte>> {
    if n == 0 then Some([]) else
    var front := Assemble(pieces, n - 1);
    if front.Some? && n - 1 in pieces then Some(front.value + pieces[n - 1]) else None
  }

  /** Never longer than `n`, and nothing else is lost. */
  lemma TruncateExactly(s: seq<byte>, n: nat)
    ensures |Truncate(s, n)| == Min(|s|, n) && Truncate(s, n) <= s
  {
  }

  function Truncate(s: seq<byte>, n: nat): seq<byte> { if |s| <= n then s else s[..n] }

  function AssembleAndVerify(st: State, sha1: seq<byte> -> seq<byte>, infoHash: seq<byte>): (State, Reply) {
    if st.total.None? then (st, Pending) else
    var all := Assemble(st.pieces, NumPieces(st.total.value));
    if all.None? then (st, Pending) else
    var bytes := Truncate(all.value, st.total.value);
    if sha1(bytes) != infoHash then (st.(pieces := map[], total := None), Pending)
    else (st.(metadata := Some(bytes)), Completed)
  }

  function Process(st: State, sha1: seq<byte> -> seq<byte>, infoHash: seq<byte>, msg: Message): (State, Reply) {
    match msg.kind
    case Request => (st, Pending)
    case Reject => (st.(pending := st.pending - {msg.piece}), Pending)
    case Data =>
      if st.metadata.Some? then (st, Pending)
      else if msg.totalSize.None? || msg.data.None? then (st, Refused)
      else
        var size, bytes := msg.totalSize.value, msg.data.value;
        if size == 0 || size > MAX_METADATA_SIZE || msg.piece >= NumPieces(size) then (st, Refused)
        else if |bytes| != ExpectedSize(size, msg.piece) && ExpectedSize(size, msg.piece) != 0 then (st, Refused)
        else if st.total.Some? && st.total.value != size then (st, Refused)
        else
          var st1 := st.(total := Some(size), pieces := st.pieces[msg.piece := bytes], pending := st.pending - {msg.piece});
          if |st1.pieces| >= NumPieces(size) then AssembleAndVerify(st1, sha1, infoHash) else (st1, Pending)
  }

  /** `MetadataFetcher`: each method takes effect as one step. */
  class MetadataFetcher {
    const infoHash: seq<byte>
    const sha1: seq<byte> -> seq<byte>
    var totalSize: Option<nat>
    var pieces: map<nat, seq<byte>>
    var pendingRequests: set<nat>
    var metadata: Option<seq<byte>>

    constructor (infoHash: seq<byte>, sha1: seq<byte> -> seq<byte>)
      ensures this.infoHash == infoHash && this.sha1 == sha1
      ensures Value() == State(None, map[], {}, None)
    {
      this.infoHash, this.sha1 := infoHash, sha1;
      totalSize, pieces, pendingRequests, metadata := None, map[], {}, None;
    }

    function Value(): State
      reads this
    {
      State(totalSize, pieces, pendingRequests, metadata)
    }

    method ProcessMessage(msg: Message) returns (reply: Reply)
      modifies this
      ensures (Value(), reply) == Process(old(Value()), sha1, infoHash, msg)
    {
      match msg.kind {
        case Request => return Pending;
        case Reject =>
          pendingRequests := pendingRequests - {msg.piece};
          return Pending;
        case Data =>
          if metadata.Some? { return Pending; }
          if msg.totalSize.None? { return Refused; }
          if msg.data.None? { return Refused; }
          var size, data := msg.totalSize.value, msg.data.value;
          if size == 0 || size > MAX_METADATA_SIZE { return Refused; }
          if msg.piece >= NumPieces(size) { return Refused; }
          var expected := ExpectedSize(size, msg.piece);
          if |data| != expected && expected != 0 { return Refused; }
          match totalSize {
            case None => totalSize := Some(size);
            case Some(known) => if known != size { return Refused; }
          }
          pieces := pieces[msg.piece := data];
          pendingRequests := pendingRequests - {msg.piece};
          if |pieces| >= NumPieces(size) {
            reply := AssembleMetadata();
          } else {
            reply := Pending;
          }
      }
    }

    method AssembleMetadata() returns (reply: Reply)
      modifies this
      ensures (Value(), reply) == AssembleAndVerify(old(Value()), sha1, infoHash)
    {
      if totalSize.None? { return Pending; }
      var n := NumPieces(totalSize.value);
      var assembled: seq<byte> := [];
      for i := 0 to n
        invariant Assemble(pieces, i) == Some(assembled)
      {
        if i !in pieces {
          AssembleNeeds(pieces, n, i);
          return Pending;
        }
        assembled := assembled + pieces[i];
      }
      assembled := Truncate(assembled, totalSize.value);
      if sha1(assembled) != infoHash {
        pieces := map[];
        totalSize := None;
        return Pending;
      }
      metadata := Some(assembled);
      reply := Completed;
    }
  }

  lemma {:induction false} AssembleNeeds(pieces: map<nat, seq<byte>>, n: nat, i: nat)
    requires i < n && i !in pieces
    ensures Assemble(pieces, n).None?
  {
    if i < n - 1 { AssembleNeeds(pieces, n - 1, i); }
  }

  // -------------------------------------------------------------- invariant

  predicate SizeOk(size: nat) { 0 < size <= MAX_METADATA_SIZE }

  ghost predicate Inv(st: State, sha1: seq<byte> -> seq<byte>, infoHash: seq<byte>) {
    && (st.total.None? ==> st.pieces == map[])
    && (st.total.Some? ==>
          && SizeOk(st.total.value)
          && forall i :: i in st.pieces ==>
               i < NumPieces(st.total.value) && |st.pieces[i]| == ExpectedSize(st.total.value, i))
    && (st.metadata.Some? ==> sha1(st.metadata.value) == infoHash && st.total == Some(|st.metadata.value|))
  }

  function Indices(n: nat): (s: set<nat>)
    ensures forall i: nat :: i in s <==> i < n
    ensures |s| == n
  {
    if n == 0 then {} else Indices(n - 1) + {n - 1}
  }

  lemma MissingLowersCount(keys: set<nat>, n: nat, i: nat)
    requires forall k :: k in keys ==> k < n
    requires i < n && i !in keys
    ensures |keys| < n
  {
    var rest := Indices(n) - keys;
    assert i in rest;
    assert keys <= Indices(n) && |rest| == n - |keys|;
  }

  /** A full count is a full set: no piece can be missing. */
  lemma CountIsFull(pieces: map<nat, seq<byte>>, n: nat)
    requires forall i :: i in pieces ==> i < n
    requires |pieces| >= n
    ensures forall i :: 0 <= i < n ==> i in pieces
  {
    assert |pieces| == |pieces.Keys|;
    forall i | 0 <= i < n ensures i in pieces {
      if i !in pieces { MissingLowersCount(pieces.Keys, n, i); }
    }
  }

  lemma {:induction false} AssembledLength(pieces: map<nat, seq<byte>>, size: nat, n: nat)
    requires n <= NumPieces(size)
    requires forall i :: 0 <= i < n ==> i in pieces && |pieces[i]| == ExpectedSize(size, i)
    ensures Assemble(pieces, n).Some?
    ensures |Assemble(pieces, n).value| == Min(n * PIECE_SIZE, size)
  {
    if n > 0 { AssembledLength(pieces, size, n - 1); }
  }

  /** When every piece is counted, the assembly has exactly the agreed size,
      so the final trim removes nothing. */
  lemma FullCountAssembles(st: State, sha1: seq<byte> -> seq<byte>, infoHash: seq<byte>)
    requires Inv(st, sha1, infoHash) && st.total.Some? && |st.pieces| >= NumPieces(st.total.value)
    ensures var all := Assemble(st.pieces, NumPieces(st.total.value));
      all.Some? && |all.value| == st.total.value && Truncate(all.value, st.total.value) == all.value
  {
    var n := NumPieces(st.total.value);
    CountIsFull(st.pieces, n);
    AssembledLength(st.pieces, st.total.value, n);
  }

  /** Every message, from any peer, keeps the invariant; stored metadata never
      changes; and `Completed` is reported exactly when it first appears. */
  lemma ProcessKeepsInv(st: State, sha1: seq<byte> -> seq<byte>, infoHash: seq<byte>, msg: Message)
    requires Inv(st, sha1, infoHash)
    ensures Inv(Process(st, sha1, infoHash, msg).0, sha1, infoHash)
    ensures st.metadata.Some? ==> Process(st, sha1, infoHash, msg).0.metadata == st.metadata
    ensures Process(st, sha1, infoHash, msg).1 == Completed
       <==> st.metadata.None? && Process(st, sha1, infoHash, msg).0.metadata.Some?
  {
    ProcessCases(st, sha1, infoHash, msg);
    hide Process, AssembleAndVerify;
    if Accepted(st, msg) {
      StoredKeepsInv(st, sha1, infoHash, msg);
      VerifyKeepsInv(Stored(st, msg), sha1, infoHash);
    }
  }

  /** A message either is stored, and perhaps completes the assembly, or
      changes nothing but the record of pending requests, from which a rejection
      takes its piece. Only data is refused, and only while there is a use for it. */
  lemma ProcessCases(st: State, sha1: seq<byte> -> seq<byte>, infoHash: seq<byte>, msg: Message)
    requires Inv(st, sha1, infoHash)
    ensures Accepted(st, msg) ==>
      Process(st, sha1, infoHash, msg)
        == if |Stored(st, msg).pieces| >= NumPieces(msg.totalSize.value)
           then AssembleAndVerify(Stored(st, msg), sha1, infoHash) else (Stored(st, msg), Pending)
    ensures !Accepted(st, msg) ==>
      && Process(st, sha1, infoHash, msg).1 == (if msg.kind == Data && st.metadata.None? then Refused else Pending)
      && Process(st, sha1, infoHash, msg).0
        == st.(pending := if msg.kind == Reject then st.pending - {msg.piece} else st.pending)
  {
    hide AssembleAndVerify;
    if msg.totalSize.Some? && msg.piece < NumPieces(msg.totalSize.value) {
      LastPieceNotEmpty(msg.totalSize.value, msg.piece);
    }
  }

  lemma LastPieceNotEmpty(size: nat, piece: nat)
    requires piece < NumPieces(size)
    ensures 0 < ExpectedSize(size, piece) == Min(size - piece * PIECE_SIZE, PIECE_SIZE)
  {
  }

  lemma VerifyKeepsInv(st: State, sha1: seq<byte> -> seq<byte>, infoHash: seq<byte>)
    requires Inv(st, sha1, infoHash) && st.total.Some? && st.metadata.None?
    ensures |st.pieces| >= NumPieces(st.total.value) ==>
      var r := AssembleAndVerify(st, sha1, infoHash);
      Inv(r.0, sha1, infoHash) && (r.1 == Completed <==> r.0.metadata.Some?)
  {
    if |st.pieces| >= NumPieces(st.total.value) {
      FullCountAssembles(st, sha1, infoHash);
      hide Assemble, Truncate;
    }
  }

  /** The checks a data message must pass before its piece is stored. */
  predicate Accepted(st: State, msg: Message) {
    && msg.kind == Data && st.metadata.None? && msg.totalSize.Some? && msg.data.Some?
    && SizeOk(msg.totalSize.value) && msg.piece < NumPieces(msg.totalSize.value)
    && |msg.data.value| == ExpectedSize(msg.totalSize.value, msg.piece)
    && (st.total.Some? ==> st.total.value == msg.totalSize.value)
  }

  function Stored(st: State, msg: Message): State
    requires msg.totalSize.Some? && msg.data.Some?
  {
    st.(total := msg.totalSize, pieces := st.pieces[msg.piece := msg.data.value], pending := st.pending - {msg.piece})
  }

  lemma StoredKeepsInv(st: State, sha1: seq<byte> -> seq<byte>, infoHash: seq<byte>, msg: Message)
    requires Inv(st, sha1, infoHash) && Accepted(st, msg)
    ensures Inv(Stored(st, msg), sha1, infoHash)
  {
  }

  // ------------------------------------------------------------------- runs

  /** The state and the replies after a sequence of messages. */
  function Run(st: State, sha1: seq<byte> -> seq<byte>, infoHash: seq<byte>, msgs: seq<Message>): (State, seq<Reply>)
    decreases |msgs|
  {
    if msgs == [] then (st, []) else
    var before := Run(st, sha1, infoHash, msgs[..|msgs| - 1]);
    var last := Process(before.0, sha1, infoHash, msgs[|msgs| - 1]);
    (last.0, before.1 + [last.1])
  }

  /** Each message is answered in turn, from the state the ones before it left. */
  lemma {:induction false} RepliesInTurn(st: State, sha1: seq<byte> -> seq<byte>, infoHash: seq<byte>, msgs: seq<Message>, k: nat)
    requires k < |msgs|
    ensures |Run(st, sha1, infoHash, msgs).1| == |msgs|
    ensures Process(Run(st, sha1, infoHash, msgs[..k]).0, sha1, infoHash, msgs[k])
         == (Run(st, sha1, infoHash, msgs[..k + 1]).0, Run(st, sha1, infoHash, msgs).1[k])
    decreases |msgs|
  {
    hide Process;
    var front := msgs[..|msgs| - 1];
    RunCounts(st, sha1, infoHash, front);
    if k < |front| {
      RepliesInTurn(st, sha1, infoHash, front, k);
      assert front[..k] == msgs[..k] && front[..k + 1] == msgs[..k + 1];
    } else {
      assert msgs[..k + 1] == msgs;
    }
  }

  lemma {:induction false} RunCounts(st: State, sha1: seq<byte> -> seq<byte>, infoHash: seq<byte>, msgs: seq<Message>)
    ensures |Run(st, sha1, infoHash, msgs).1| == |msgs|
    decreases |msgs|
  {
    if msgs != [] { RunCounts(st, sha1, infoHash, msgs[..|msgs| - 1]); }
  }

  function Fresh(pending: set<nat>): State { State(None, map[], pending, None) }

  function Completions(replies: seq<Reply>): nat { multiset(replies)[Completed] }

  /** Over any run from a fresh fetcher, completion is reported once exactly if
      the metadata has been stored, and never otherwise. */
  lemma {:induction false} CompletedOnce(pending: set<nat>, sha1: seq<byte> -> seq<byte>, infoHash: seq<byte>, msgs: seq<Message>)
    ensures Inv(Run(Fresh(pending), sha1, infoHash, msgs).0, sha1, infoHash)
    ensures Completions(Run(Fresh(pending), sha1, infoHash, msgs).1)
         == if Run(Fresh(pending), sha1, infoHash, msgs).0.metadata.Some? then 1 else 0
    decreases |msgs|
  {
    hide Process;
    if msgs != [] {
      var front := msgs[..|msgs| - 1];
      CompletedOnce(pending, sha1, infoHash, front);
      var (st, replies) := Run(Fresh(pending), sha1, infoHash, front);
      ProcessKeepsInv(st, sha1, infoHash, msgs[|msgs| - 1]);
      var last := Process(st, sha1, infoHash, msgs[|msgs| - 1]).1;
      assert multiset(replies + [last]) == multiset(replies) + multiset{last};
    }
  }

  /** Once stored, the metadata survives every later message. */
  lemma {:induction false} MetadataIsFinal(st: State, sha1: seq<byte> -> seq<byte>, infoHash: seq<byte>, msgs: seq<Message>)
    requires Inv(st, sha1, infoHash) && st.metadata.Some?
    ensures Run(st, sha1, infoHash, msgs).0.metadata == st.metadata
    ensures Inv(Run(st, sha1, infoHash, msgs).0, sha1, infoHash)
    decreases |msgs|
  {
    hide Process;
    if msgs != [] {
      MetadataIsFinal(st, sha1, infoHash, msgs[..|msgs| - 1]);
      ProcessKeepsInv(Run(st, sha1, infoHash, msgs[..|msgs| - 1]).0, sha1, infoHash, msgs[|msgs| - 1]);
    }
  }

  // ------------------------------------------------------------- completion

  /** Where piece `i` starts in metadata of `size` bytes. */
  function Cut(size: nat, i: nat): nat { Min(i * PIECE_SIZE, size) }

  /** Piece `i` of the true metadata. */
  function PieceOf(m: seq<byte>, i: nat): seq<byte> {
    CutsAscend(|m|, i);
    m[Cut(|m|, i)..Cut(|m|, i + 1)]
  }

  lemma CutsAscend(size: nat, i: nat)
    ensures Cut(size, i) <= Cut(size, i + 1) <= size
    ensures Cut(size, 0) == 0 && Cut(size, NumPieces(size)) == size
  {
  }

  /** What an honest peer may send: a piece of `m`, a request or a reject. */
  predicate Honest(m: seq<byte>, msg: Message) {
    msg.kind == Data ==>
      && msg.totalSize == Some(|m|)
      && msg.piece < NumPieces(|m|)
      && msg.data == Some(PieceOf(m, msg.piece))
  }

  ghost predicate Supplied(msgs: seq<Message>, i: nat) {
    exists k :: 0 <= k < |msgs| && msgs[k].kind == Data && msgs[k].piece == i
  }

  ghost predicate AllSupplied(msgs: seq<Message>, n: nat) {
    forall i: nat :: i < n ==> Supplied(msgs, i)
  }

  lemma {:induction false} HonestAssembly(pieces: map<nat, seq<byte>>, m: seq<byte>, n: nat)
    requires forall i :: 0 <= i < n ==> i in pieces && pieces[i] == PieceOf(m, i)
    ensures Cut(|m|, n) <= |m|
    ensures Assemble(pieces, n) == Some(m[..Cut(|m|, n)])
  {
    hide Cut;
    CutsAscend(|m|, n);
    if n > 0 {
      HonestAssembly(pieces, m, n - 1);
      CutsAscend(|m|, n - 1);
      Glue(m, Cut(|m|, n - 1), Cut(|m|, n));
    }
  }

  lemma Glue(m: seq<byte>, a: nat, b: nat)
    requires a <= b <= |m|
    ensures m[..a] + m[a..b] == m[..b]
  {
  }

  /** How far an honest run has come: either it is complete, or it holds
      exactly the pieces supplied so far. */
  ghost predicate HonestProgress(st: State, m: seq<byte>, msgs: seq<Message>) {
    if AllSupplied(msgs, NumPieces(|m|)) then st.metadata == Some(m)
    else
      && st.metadata.None?
      && (forall i :: i in st.pieces <==> Supplied(msgs, i))
      && (forall i :: i in st.pieces ==> i < NumPieces(|m|) && st.pieces[i] == PieceOf(m, i))
      && (st.pieces != map[] ==> st.total == Some(|m|))
      && (st.total.Some? ==> st.total == Some(|m|))
  }

  /** The pieces of the true metadata, in any order and with any repeats,
      requests and rejects between them, complete a fresh or cleared fetcher
      exactly when every piece has come, and with exactly that metadata. */
  lemma {:induction false} HonestPeersComplete(
    pending: set<nat>, sha1: seq<byte> -> seq<byte>, infoHash: seq<byte>, m: seq<byte>, msgs: seq<Message>)
    requires SizeOk(|m|) && sha1(m) == infoHash
    requires forall k :: 0 <= k < |msgs| ==> Honest(m, msgs[k])
    ensures HonestProgress(Run(Fresh(pending), sha1, infoHash, msgs).0, m, msgs)
    decreases |msgs|
  {
    hide Process;
    if msgs == [] {
      assert !Supplied(msgs, 0) && 0 < NumPieces(|m|);
    } else {
      var front, last := msgs[..|msgs| - 1], msgs[|msgs| - 1];
      HonestPeersComplete(pending, sha1, infoHash, m, front);
      CompletedOnce(pending, sha1, infoHash, front);
      HonestStep(Run(Fresh(pending), sha1, infoHash, front).0, sha1, infoHash, m, front, last);
      assert msgs == front + [last];
    }
  }

  lemma SuppliedMore(front: seq<Message>, last: Message, i: nat)
    ensures Supplied(front + [last], i) <==> Supplied(front, i) || (last.kind == Data && last.piece == i)
  {
    var msgs := front + [last];
    if Supplied(front, i) {
      var k :| 0 <= k < |front| && front[k].kind == Data && front[k].piece == i;
      assert msgs[k] == front[k];
    }
    assert msgs[|front|] == last;
  }

  lemma HonestStep(st: State, sha1: seq<byte> -> seq<byte>, infoHash: seq<byte>, m: seq<byte>, front: seq<Message>, last: Message)
    requires SizeOk(|m|) && sha1(m) == infoHash && Inv(st, sha1, infoHash)
    requires HonestProgress(st, m, front) && Honest(m, last)
    ensures HonestProgress(Process(st, sha1, infoHash, last).0, m, front + [last])
  {
    hide Supplied, Process, Inv, Honest;
    var n := NumPieces(|m|);
    forall i: nat ensures Supplied(front + [last], i) <==> Supplied(front, i) || (last.kind == Data && last.piece == i) {
      SuppliedMore(front, last, i);
    }
    ProcessCases(st, sha1, infoHash, last);
    ProcessKeepsInv(st, sha1, infoHash, last);
    if !AllSupplied(front, n) && last.kind == Data {
      HonestIsAccepted(st, m, last);
      HonestStored(Stored(st, last), sha1, infoHash, m, front + [last]);
    }
  }

  lemma VerifyHonest(st: State, sha1: seq<byte> -> seq<byte>, infoHash: seq<byte>, m: seq<byte>)
    requires sha1(m) == infoHash && st.total == Some(|m|)
    requires Assemble(st.pieces, NumPieces(|m|)) == Some(m[..|m|])
    ensures AssembleAndVerify(st, sha1, infoHash).0.metadata == Some(m)
  {
    hide Assemble;
    assert m[..|m|] == m;
  }

  lemma HonestIsAccepted(st: State, m: seq<byte>, msg: Message)
    requires SizeOk(|m|) && Honest(m, msg) && msg.kind == Data
    requires st.metadata.None? && (st.total.Some? ==> st.total == Some(|m|))
    ensures Accepted(st, msg)
    ensures Stored(st, msg).total == Some(|m|) && Stored(st, msg).pieces == st.pieces[msg.piece := PieceOf(m, msg.piece)]
    ensures msg.totalSize == Some(|m|) && msg.piece < NumPieces(|m|)
  {
    LastPieceNotEmpty(|m|, msg.piece);
  }

  /** Once the stored pieces are those supplied, the count decides. */
  lemma HonestStored(st: State, sha1: seq<byte> -> seq<byte>, infoHash: seq<byte>, m: seq<byte>, msgs: seq<Message>)
    requires SizeOk(|m|) && sha1(m) == infoHash
    requires st.metadata.None? && st.total == Some(|m|)
    requires forall i :: i in st.pieces <==> Supplied(msgs, i)
    requires forall i :: i in st.pieces ==> i < NumPieces(|m|) && st.pieces[i] == PieceOf(m, i)
    ensures |st.pieces| >= NumPieces(|m|) <==> AllSupplied(msgs, NumPieces(|m|))
    ensures |st.pieces| >= NumPieces(|m|) ==> AssembleAndVerify(st, sha1, infoHash).0.metadata == Some(m)
  {
    hide Supplied, Cut, PieceOf, Assemble, AssembleAndVerify, NumPieces;
    var n := NumPieces(|m|);
    if |st.pieces| >= n {
      CountIsFull(st.pieces, n);
      HonestAssembly(st.pieces, m, n);
      CutsAscend(|m|, n);
      VerifyHonest(st, sha1, infoHash, m);
    }
    if AllSupplied(msgs, n) {
      assert Indices(n) <= st.pieces.Keys;
      assert |st.pieces.Keys - Indices(n)| == |st.pieces.Keys| - n;
    }
  }
}
