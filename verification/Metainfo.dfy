/** Torrent metainfo (BEP 3): which names, paths and sizes are accepted, and how
    pieces tile the files. */
module Metainfo {
  import opened Prelude
  import opened Text
  import opened Utf8
  import opened Bencode
  import opened BencodeLaws
  import opened InfoDict
  import opened SafePaths

  const MAX_PIECE_LENGTH_HARD: int := 256 * 1024 * 1024
  const HASH_SIZE: int := 20
  const TWO_51: int := 0x8_0000_0000_0000

  const NAME: seq<byte> := [110, 97, 109, 101]
  const PIECE_LENGTH: seq<byte> := [112, 105, 101, 99, 101, 32, 108, 101, 110, 103, 116, 104]
  const PIECES: seq<byte> := [112, 105, 101, 99, 101, 115]
  const FILES: seq<byte> := [102, 105, 108, 101, 115]
  const LENGTH: seq<byte> := [108, 101, 110, 103, 116, 104]
  const PATH: seq<byte> := [112, 97, 116, 104]

  const PRIVATE: seq<byte> := [112, 114, 105, 118, 97, 116, 101]

  datatype FileInfo = FileInfo(path: seq<byte>, length: nat, offset: nat)

  datatype Info = Info(
    name: seq<byte>, pieceLength: nat, pieces: seq<seq<byte>>, files: seq<FileInfo>, totalSize: nat,
    singleFile: bool, isPrivate: bool)

  function CeilDiv(a: nat, b: nat): nat
    requires b > 0
  {
    (a + b - 1) / b
  }

  // ---------------------------------------------------------------- parsing

  /** A byte string that is text. */
  predicate IsText(v: Value) { v.Bytes? && ValidUtf8(v.b) }

  /** Whatever text there is, in any script, is text; and nothing else is. */
  lemma TextExactly(cs: seq<nat>, v: Value) returns (read: seq<nat>)
    requires forall k :: 0 <= k < |cs| ==> Scalar(cs[k])
    ensures IsText(Bytes(EncodedAll(cs)))
    ensures IsText(v) ==>
      v.Bytes? && (forall k :: 0 <= k < |read| ==> Scalar(read[k])) && EncodedAll(read) == v.b
  {
    EncodedIsValid(cs);
    read := [];
    if IsText(v) { read := ValidIsEncoded(v.b); }
  }

  predicate FileOk(v: Value) {
    && v.Dict?
    && AsUint(Lookup(v.entries, LENGTH)).Some?
    && Lookup(v.entries, PATH).Some?
    && PathOk(Lookup(v.entries, PATH).value)
  }

  predicate PathOk(path: Value) {
    path.List? && (forall c :: c in path.items ==> IsText(c)) && Relative(PathOf(Texts(path.items)))
  }

  function Texts(items: seq<Value>): seq<seq<byte>> {
    seq(|items|, (k: nat) requires k < |items| => if items[k].Bytes? then items[k].b else [])
  }

  function FilePath(v: Value): seq<byte> {
    if v.Dict? && Lookup(v.entries, PATH).Some? && Lookup(v.entries, PATH).value.List? then
      PathOf(Texts(Lookup(v.entries, PATH).value.items))
    else []
  }

  function FileLength(v: Value): nat {
    if v.Dict? && AsUint(Lookup(v.entries, LENGTH)).Some? then AsUint(Lookup(v.entries, LENGTH)).value else 0
  }

  /** The bytes of the first `n` files together. */
  function LengthsTo(files: seq<Value>, n: nat): nat
    requires n <= |files|
  {
    if n == 0 then 0 else LengthsTo(files, n - 1) + FileLength(files[n - 1])
  }

  /** The files lie end to end from 0 to `total`. */
  ghost predicate Tiled(files: seq<FileInfo>, total: nat) {
    && Boundary(files, total, 0) == 0
    && forall i: nat :: i < |files| ==> Follows(files, total, i)
  }

  ghost predicate Follows(files: seq<FileInfo>, total: nat, i: nat)
    requires i < |files|
  {
    files[i].offset + files[i].length == Boundary(files, total, i + 1)
  }

  /** Where file `i` starts, or the end of the last file. */
  function Boundary(files: seq<FileInfo>, total: nat, i: nat): nat {
    if i < |files| then files[i].offset else total
  }

  lemma {:induction false} LengthsGrow(files: seq<Value>, n: nat, m: nat)
    requires n <= m <= |files|
    ensures LengthsTo(files, n) <= LengthsTo(files, m)
  {
    if n < m { LengthsGrow(files, n, m - 1); }
  }

  lemma TiledNone()
    ensures Tiled([], 0)
  {
  }

  lemma TiledMore(files: seq<FileInfo>, total: nat, path: seq<byte>, length: nat)
    requires Tiled(files, total)
    ensures Tiled(files + [FileInfo(path, length, total)], total + length)
  {
    var more, sum := files + [FileInfo(path, length, total)], total + length;
    assert Boundary(more, sum, 0) == Boundary(files, total, 0);
    forall i: nat | i < |more| ensures Follows(more, sum, i) {
      if i < |files| {
        assert Follows(files, total, i);
        assert Boundary(more, sum, i + 1) == Boundary(files, total, i + 1);
      }
    }
  }

  /** The components of one file's path, pushed one by one. */
  method ParsePath(items: seq<Value>) returns (r: Result<seq<byte>>)
    ensures r.Ok? <==> PathOk(List(items))
    ensures r.Ok? ==> r.value == PathOf(Texts(items))
  {
    hide Relative, Push;
    var path: seq<byte> := [];
    for i := 0 to |items|
      invariant path == PathOf(Texts(items)[..i])
      invariant forall k :: 0 <= k < i ==> IsText(items[k])
    {
      if !IsText(items[i]) { return Err; }
      path := Push(path, items[i].b);
      assert Texts(items)[..i + 1][..i] == Texts(items)[..i];
    }
    assert Texts(items)[..|items|] == Texts(items);
    var rejection := CheckRelativePath(path);
    r := if rejection.None? then Ok(path) else Err;
  }

  /** What the file list of an accepted torrent says of each file. */
  ghost predicate Described(list: seq<Value>, files: seq<FileInfo>) {
    && |files| == |list|
    && forall i :: 0 <= i < |list| ==> files[i].path == FilePath(list[i]) && files[i].length == FileLength(list[i])
  }

  /** One entry of the file list: its path and its length. */
  method ParseFile(v: Value) returns (r: Result<(seq<byte>, nat)>)
    ensures r.Ok? <==> FileOk(v)
    ensures r.Ok? ==> r.value == (FilePath(v), FileLength(v))
  {
    hide PathOk, PathOf, Texts;
    if !v.Dict? { return Err; }
    var length, path := AsUint(Lookup(v.entries, LENGTH)), Lookup(v.entries, PATH);
    if length.None? || path.None? { return Err; }
    if !path.value.List? {
      assert !PathOk(path.value) by { NotAPath(path.value); }
      return Err;
    }
    var pushed := ParsePath(path.value.items);
    if pushed.Err? { return Err; }
    r := Ok((pushed.value, length.value));
  }

  lemma NotAPath(path: Value)
    requires !path.List?
    ensures !PathOk(path)
  {
  }

  /** `parse_files`. */
  method ParseFiles(list: seq<Value>) returns (r: Result<(seq<FileInfo>, nat)>)
    ensures r.Ok? <==> (forall v :: v in list ==> FileOk(v)) && LengthsTo(list, |list|) < TWO_64
    ensures r.Ok? ==>
      var (files, total) := r.value;
      Described(list, files) && total == LengthsTo(list, |list|) && Tiled(files, total)
  {
    hide Tiled, FileOk, FilePath, FileLength, LengthsTo;
    var files: seq<FileInfo> := [];
    var offset := 0;
    TiledNone();
    NoLengths(list);
    for i := 0 to |list|
      invariant |files| == i && offset == LengthsTo(list, i) < TWO_64 && Tiled(files, offset)
      invariant forall k :: 0 <= k < i ==> FileOk(list[k])
      invariant forall k :: 0 <= k < i ==> files[k].path == FilePath(list[k]) && files[k].length == FileLength(list[k])
    {
      var file := ParseFile(list[i]);
      if file.Err? { return Err; }
      var (path, length) := file.value;
      TiledMore(files, offset, path, length);
      files := files + [FileInfo(path, length, offset)];
      OneMoreLength(list, i);
      if offset + length >= TWO_64 {
        LengthsGrow(list, i + 1, |list|);
        return Err;
      }
      offset := offset + length;
    }
    r := Ok((files, offset));
  }

  lemma NoLengths(list: seq<Value>)
    ensures LengthsTo(list, 0) == 0
  {
  }

  lemma OneMoreLength(list: seq<Value>, i: nat)
    requires i < |list|
    ensures LengthsTo(list, i + 1) == LengthsTo(list, i) + FileLength(list[i])
  {
  }

  function Chunks(b: seq<byte>): (hashes: seq<seq<byte>>)
    requires |b| % HASH_SIZE == 0
    ensures |hashes| * HASH_SIZE == |b|
  {
    if b == [] then [] else [b[..HASH_SIZE]] + Chunks(b[HASH_SIZE..])
  }

  /** The hashes stand in the order of their pieces. */
  lemma {:induction false} ChunkAt(b: seq<byte>, k: nat)
    requires |b| % HASH_SIZE == 0 && k < |Chunks(b)|
    ensures HASH_SIZE * k + HASH_SIZE <= |b| && Chunks(b)[k] == b[HASH_SIZE * k..HASH_SIZE * k + HASH_SIZE]
    decreases k
  {
    if k > 0 {
      var rest := b[HASH_SIZE..];
      ChunkAt(rest, k - 1);
      var at := HASH_SIZE * (k - 1);
      assert b[at + HASH_SIZE..at + HASH_SIZE + HASH_SIZE] == rest[at..at + HASH_SIZE];
    }
  }

  /** Piece `k` has the `k`th 20 bytes of the string for its hash. */
  ghost predicate HashesOf(pieces: seq<seq<byte>>, b: seq<byte>) {
    && |pieces| * HASH_SIZE == |b|
    && forall k :: 0 <= k < |pieces| ==> pieces[k] == b[HASH_SIZE * k..HASH_SIZE * k + HASH_SIZE]
  }

  lemma ChunksAreHashes(b: seq<byte>)
    requires |b| % HASH_SIZE == 0
    ensures HashesOf(Chunks(b), b)
  {
    forall k | 0 <= k < |Chunks(b)| ensures Chunks(b)[k] == b[HASH_SIZE * k..HASH_SIZE * k + HASH_SIZE] {
      ChunkAt(b, k);
    }
  }

  /** What every accepted info dictionary satisfies. */
  ghost predicate Accepted(info: Info) {
    && 0 < info.pieceLength <= MAX_PIECE_LENGTH_HARD
    && |info.pieces| == CeilDiv(info.totalSize, info.pieceLength)
    && |info.pieces| * HASH_SIZE <= MAX_STRING_LENGTH
    && Tiled(info.files, info.totalSize)
  }

  /** Every name and path stays inside the directory it is joined onto. */
  ghost predicate Contained(info: Info) {
    Relative(info.name) && forall f :: f in info.files ==> Relative(f.path)
  }

  /** The size an info dictionary declares, if it declares one properly. */
  function DeclaredSize(d: seq<Entry>): Option<nat> {
    match Lookup(d, FILES)
    case None => AsUint(Lookup(d, LENGTH))
    case Some(List(files)) =>
      if (forall v :: v in files ==> FileOk(v)) && LengthsTo(files, |files|) < TWO_64
      then Some(LengthsTo(files, |files|)) else None
    case Some(_) => None
  }

  predicate NameOk(name: Value) { IsText(name) && Relative(name.b) }

  /** The entries that do not depend on the files: name, piece length, hashes. */
  predicate HeaderOk(d: seq<Entry>) {
    && Lookup(d, NAME).Some? && NameOk(Lookup(d, NAME).value)
    && var pieceLength, pieces := AsUint(Lookup(d, PIECE_LENGTH)), Lookup(d, PIECES);
    && pieceLength.Some? && 0 < pieceLength.value <= MAX_PIECE_LENGTH_HARD
    && pieces.Some? && pieces.value.Bytes? && |pieces.value.b| % HASH_SIZE == 0
  }

  predicate InfoOk(value: Value) {
    && value.Dict? && HeaderOk(value.entries)
    && var pieceLength, pieces, size :=
         AsUint(Lookup(value.entries, PIECE_LENGTH)), Lookup(value.entries, PIECES), DeclaredSize(value.entries);
    && size.Some?
    && |pieces.value.b| == CeilDiv(size.value, pieceLength.value) * HASH_SIZE
  }

  /** What the layout of an accepted torrent says of its files. */
  ghost predicate LaidOut(name: seq<byte>, d: seq<Entry>, files: seq<FileInfo>, total: nat, singleFile: bool) {
    && DeclaredSize(d) == Some(total) && Tiled(files, total)
    && (singleFile <==> Lookup(d, FILES).None?)
    && (singleFile ==> files == [FileInfo(name, total, 0)])
    && (!singleFile ==> Lookup(d, FILES).value.List? && Described(Lookup(d, FILES).value.items, files))
  }

  /** The single-file and multi-file modes of `parse_info`. */
  method ParseLayout(name: seq<byte>, d: seq<Entry>) returns (r: Result<(seq<FileInfo>, nat, bool)>)
    ensures r.Ok? <==> DeclaredSize(d).Some?
    ensures r.Ok? ==> LaidOut(name, d, r.value.0, r.value.1, r.value.2)
  {
    hide FileOk, Tiled, Described, LengthsTo;
    var list := Lookup(d, FILES);
    if list.Some? {
      if !list.value.List? { return Err; }
      var parsed := ParseFiles(list.value.items);
      if parsed.Err? { return Err; }
      r := Ok((parsed.value.0, parsed.value.1, false));
    } else {
      var length := AsUint(Lookup(d, LENGTH));
      if length.None? { return Err; }
      TiledNone();
      TiledMore([], 0, name, length.value);
      assert [] + [FileInfo(name, length.value, 0)] == [FileInfo(name, length.value, 0)];
      r := Ok(([FileInfo(name, length.value, 0)], length.value, true));
    }
  }

  /** What an accepted info dictionary says, field by field. */
  ghost predicate Read(d: seq<Entry>, info: Info) {
    && Lookup(d, NAME) == Some(Bytes(info.name))
    && Lookup(d, PIECE_LENGTH) == Some(Integer(info.pieceLength))
    && Lookup(d, PIECES).Some? && Lookup(d, PIECES).value.Bytes?
    && HashesOf(info.pieces, Lookup(d, PIECES).value.b)
    && (info.isPrivate <==> Lookup(d, PRIVATE) == Some(Integer(1)))
    && LaidOut(info.name, d, info.files, info.totalSize, info.singleFile)
  }

  method ParseHeader(d: seq<Entry>) returns (r: Result<(seq<byte>, nat, seq<byte>)>)
    ensures r.Ok? <==> HeaderOk(d)
    ensures r.Ok? ==>
      && Lookup(d, NAME) == Some(Bytes(r.value.0)) && Relative(r.value.0)
      && Lookup(d, PIECE_LENGTH) == Some(Integer(r.value.1)) && AsUint(Lookup(d, PIECE_LENGTH)) == Some(r.value.1)
      && Lookup(d, PIECES) == Some(Bytes(r.value.2))
  {
    hide Relative, ValidUtf8, AsUint, Lookup;
    var name := Lookup(d, NAME);
    if name.None? || !IsText(name.value) { return Err; }
    var rejection := CheckRelativePath(name.value.b);
    if rejection.Some? { return Err; }
    var pieceLength := AsUint(Lookup(d, PIECE_LENGTH));
    if pieceLength.None? || pieceLength.value == 0 || pieceLength.value > MAX_PIECE_LENGTH_HARD { return Err; }
    UintMeans(Lookup(d, PIECE_LENGTH));
    var pieces := Lookup(d, PIECES);
    if pieces.None? || !pieces.value.Bytes? || |pieces.value.b| % HASH_SIZE != 0 { return Err; }
    r := Ok((name.value.b, pieceLength.value, pieces.value.b));
  }

  /** What the limits on nesting and strings say of one entry. */
  lemma EntryIsShort(d: seq<Entry>, key: seq<byte>)
    requires Fits(Dict(d), 0) && Lookup(d, key).Some? && Lookup(d, key).value.Bytes?
    ensures |Lookup(d, key).value.b| <= MAX_STRING_LENGTH
  {
    var i :| 0 <= i < |d| && d[i] == Entry(key, Lookup(d, key).value);
    assert EntryFits(d[i], 1) && Fits(d[i].value, 1);
  }

  /** `parse_info`, on a value the parser produced. */
  method ParseInfo(value: Value) returns (r: Result<Info>)
    requires WellTyped(value) && Fits(value, 0)
    ensures r.Ok? <==> InfoOk(value)
    ensures r.Ok? ==> value.Dict? && Read(value.entries, r.value) && Accepted(r.value) && Contained(r.value)
  {
    hide WellTyped, Fits, HashesOf, CeilDiv, DeclaredSize, Tiled, LaidOut, Relative, Contained, AsUint, Lookup;
    if !value.Dict? { return Err; }
    var d := value.entries;
    var header := ParseHeader(d);
    if header.Err? { return Err; }
    hide HeaderOk;
    var (name, pieceLength, pieces) := header.value;
    var hashes := Chunks(pieces);
    ChunksAreHashes(pieces);
    var isPrivate := Lookup(d, PRIVATE) == Some(Integer(1));
    var parsed := ParseLayout(name, d);
    if parsed.Err? { return Err; }
    var (files, total, singleFile) := parsed.value;
    LaidOutMeans(name, d, files, total, singleFile);
    if |hashes| != CeilDiv(total, pieceLength) { return Err; }
    EntryIsShort(d, PIECES);
    r := Ok(Info(name, pieceLength, hashes, files, total, singleFile, isPrivate));
    LaidOutIsContained(r.value, d);
  }

  lemma UintMeans(v: Option<Value>)
    ensures AsUint(v).Some? ==> v == Some(Integer(AsUint(v).value))
  {
  }

  lemma LaidOutMeans(name: seq<byte>, d: seq<Entry>, files: seq<FileInfo>, total: nat, singleFile: bool)
    requires LaidOut(name, d, files, total, singleFile)
    ensures DeclaredSize(d) == Some(total) && Tiled(files, total)
  {
  }

  /** Every path of an accepted list has been checked. */
  lemma LaidOutIsContained(info: Info, d: seq<Entry>)
    requires LaidOut(info.name, d, info.files, info.totalSize, info.singleFile) && Relative(info.name)
    ensures Contained(info)
  {
    hide Relative, Tiled, PathOf;
    if !info.singleFile {
      var list := Lookup(d, FILES).value.items;
      forall i | 0 <= i < |info.files| ensures Relative(info.files[i].path) { assert FileOk(list[i]); }
    }
  }

  // ------------------------------------------------------- piece arithmetic

  /** `piece_range`, in the original's `u64` arithmetic. */
  function PieceRange(info: Info, index: nat): Option<(nat, nat)> {
    if index >= |info.pieces| then None else
    var start := Mul64(index, info.pieceLength);
    Some((start, Min(Add64(start, info.pieceLength), info.totalSize)))
  }

  lemma Exact64(a: nat, b: nat)
    ensures a + b < TWO_64 ==> Add64(a, b) == a + b
    ensures a * b < TWO_64 ==> Mul64(a, b) == a * b
  {
  }

  lemma MulMonotone(a: nat, b: nat, c: nat)
    requires a <= b
    ensures a * c <= b * c
  {
  }

  lemma PiecesBoundTotal(info: Info)
    requires Accepted(info)
    ensures info.totalSize <= |info.pieces| * info.pieceLength < TWO_51
    ensures |info.pieces| > 0 ==> (|info.pieces| - 1) * info.pieceLength < info.totalSize
  {
    var n, p := |info.pieces|, info.pieceLength;
    CeilDivBounds(info.totalSize, p);
    assert n <= MAX_STRING_LENGTH / HASH_SIZE;
    MulMonotone(n, MAX_STRING_LENGTH / HASH_SIZE, p);
    MulMonotone(p, MAX_PIECE_LENGTH_HARD, MAX_STRING_LENGTH / HASH_SIZE);
  }

  lemma CeilDivBounds(a: nat, b: nat)
    requires b > 0
    ensures a <= CeilDiv(a, b) * b < a + b
  {
    var q := (a + b - 1) / b;
    assert (a + b - 1) == b * q + (a + b - 1) % b;
  }

  /** No sum or product wraps: the string cap bounds the number of pieces, the
      length cap bounds each, and the piece count bounds the files. */
  lemma PieceRangeExact(info: Info, index: nat)
    requires Accepted(info) && index < |info.pieces|
    ensures PieceRange(info, index)
         == Some((index * info.pieceLength, Min(index * info.pieceLength + info.pieceLength, info.totalSize)))
    ensures index * info.pieceLength < info.totalSize < TWO_51
    ensures index * info.pieceLength + info.pieceLength < TWO_51 + MAX_PIECE_LENGTH_HARD < TWO_64
  {
    hide CeilDiv, Tiled, Add64, Mul64;
    PiecesBoundTotal(info);
    var start := index * info.pieceLength;
    MulMonotone(index, |info.pieces| - 1, info.pieceLength);
    Exact64(index, info.pieceLength);
    Exact64(start, info.pieceLength);
  }

  lemma {:induction false} BoundariesAscend(files: seq<FileInfo>, total: nat, i: nat, j: nat)
    requires Tiled(files, total) && i <= j <= |files|
    ensures Boundary(files, total, i) <= Boundary(files, total, j) <= total
    decreases |files| - i
  {
    if i < |files| {
      assert Follows(files, total, i);
      BoundariesAscend(files, total, i + 1, if i < j then j else |files|);
    }
  }

  // --------------------------------------------------- files under one piece

  /** Part of a file: `length` bytes of file `file` from `offset`. */
  datatype Span = Span(file: nat, offset: nat, length: nat)

  /** What one file contributes to the bytes `lo..hi` of the torrent; never
      negative, as `OverlapIs` shows, because no sum wraps. */
  function Overlap(file: FileInfo, index: nat, lo: nat, hi: nat): seq<Span> {
    var end := Add64(file.offset, file.length);
    if file.offset >= hi || end <= lo then []
    else
      var a, b := Max(lo, file.offset), Min(hi, end);
      if b < a then [] else [Span(index, a - file.offset, b - a)]
  }

  function OverlapsFrom(files: seq<FileInfo>, i: nat, lo: nat, hi: nat): seq<Span>
    requires i <= |files|
    decreases |files| - i
  {
    if i == |files| then [] else Overlap(files[i], i, lo, hi) + OverlapsFrom(files, i + 1, lo, hi)
  }

  function SpansOfPiece(info: Info, index: nat): seq<Span> {
    match PieceRange(info, index)
    case None => []
    case Some(range) => OverlapsFrom(info.files, 0, range.0, range.1)
  }

  lemma PieceBounds(info: Info, index: nat)
    requires Accepted(info)
    ensures PieceRange(info, index).Some? <==> index < |info.pieces|
    ensures PieceRange(info, index).Some? ==> PieceRange(info, index).value.0 < PieceRange(info, index).value.1 <= info.totalSize
  {
    hide Accepted, Add64, Mul64;
    if index < |info.pieces| {
      PieceLengthPositive(info);
      PieceRangeExact(info, index);
    }
  }

  /** `files_for_piece`. */
  method FilesForPiece(info: Info, index: nat) returns (spans: seq<Span>)
    requires Accepted(info)
    ensures spans == SpansOfPiece(info, index)
  {
    hide Accepted, Add64, PieceRange, Overlap;
    PieceBounds(info, index);
    var range := PieceRange(info, index);
    if range.None? { return []; }
    var (lo, hi) := range.value;
    spans := [];
    for i := 0 to |info.files|
      invariant spans + OverlapsFrom(info.files, i, lo, hi) == OverlapsFrom(info.files, 0, lo, hi)
    {
      var file := info.files[i];
      var fileEnd := Add64(file.offset, file.length);
      OverlapIs(info, i, lo, hi);
      if file.offset >= hi || fileEnd <= lo { continue; }
      var from, to := Max(lo, file.offset), Min(hi, fileEnd);
      spans := spans + [Span(i, from - file.offset, to - from)];
    }
  }

  lemma OverlapIs(info: Info, i: nat, lo: nat, hi: nat)
    requires Accepted(info) && i < |info.files| && lo <= hi
    ensures var file, end := info.files[i], info.files[i].offset + info.files[i].length;
      Overlap(file, i, lo, hi) ==
        if file.offset >= hi || end <= lo then []
        else [Span(i, Max(lo, file.offset) - file.offset, Min(hi, end) - Max(lo, file.offset))]
    ensures Add64(info.files[i].offset, info.files[i].length) == info.files[i].offset + info.files[i].length
  {
    hide Accepted, Add64;
    FileEnds(info, i);
  }

  lemma FileEnds(info: Info, i: nat)
    requires Accepted(info) && i < |info.files|
    ensures Add64(info.files[i].offset, info.files[i].length) == info.files[i].offset + info.files[i].length
    ensures info.files[i].offset + info.files[i].length == Boundary(info.files, info.totalSize, i + 1) <= info.totalSize
  {
    hide CeilDiv, Add64;
    var file := info.files[i];
    assert Follows(info.files, info.totalSize, i);
    BoundariesAscend(info.files, info.totalSize, i + 1, |info.files|);
    PiecesBoundTotal(info);
    Exact64(file.offset, file.length);
  }

  /** The spans follow one another without gap or overlap from `at` to `end`,
      counted in bytes of the whole torrent, with ascending files and inside
      their files. */
  ghost predicate Chain(files: seq<FileInfo>, spans: seq<Span>, from: nat, at: nat, end: nat)
    decreases |spans|
  {
    if spans == [] then at == end else
    var s := spans[0];
    && from <= s.file < |files|
    && s.offset + s.length <= files[s.file].length
    && files[s.file].offset + s.offset == at
    && Chain(files, spans[1..], s.file + 1, at + s.length, end)
  }

  function TotalLength(spans: seq<Span>): nat {
    if spans == [] then 0 else spans[0].length + TotalLength(spans[1..])
  }

  lemma ChainFromLater(files: seq<FileInfo>, spans: seq<Span>, from: nat, later: nat, at: nat, end: nat)
    requires from <= later && Chain(files, spans, later, at, end)
    ensures Chain(files, spans, from, at, end)
  {
  }

  lemma {:induction false} ChainLength(files: seq<FileInfo>, spans: seq<Span>, from: nat, at: nat, end: nat)
    requires Chain(files, spans, from, at, end)
    ensures at + TotalLength(spans) == end
    decreases |spans|
  {
    if spans != [] {
      ChainLength(files, spans[1..], spans[0].file + 1, at + spans[0].length, end);
    }
  }

  lemma {:induction false} OverlapsChain(info: Info, i: nat, lo: nat, hi: nat)
    requires Accepted(info) && i <= |info.files| && lo <= hi <= info.totalSize
    ensures Chain(info.files, OverlapsFrom(info.files, i, lo, hi), i,
                  Min(hi, Max(lo, Boundary(info.files, info.totalSize, i))), hi)
    decreases |info.files| - i
  {
    hide Accepted, Overlap, Chain;
    var files := info.files;
    if i == |files| {
      assert Chain(files, [], i, hi, hi) by { ChainEnds(files, i, hi); }
    } else {
      var more := OverlapsFrom(files, i + 1, lo, hi);
      OverlapsChain(info, i + 1, lo, hi);
      FileEnds(info, i);
      OverlapIs(info, i, lo, hi);
      var one := Overlap(files[i], i, lo, hi);
      if one == [] {
        assert one + more == more;
        ChainFromLater(files, more, i, i + 1, Min(hi, Max(lo, Boundary(files, info.totalSize, i + 1))), hi);
      } else {
        ChainGrows(files, one[0], more, i, Min(hi, Max(lo, Boundary(files, info.totalSize, i + 1))), hi);
      }
    }
  }

  lemma ChainEnds(files: seq<FileInfo>, from: nat, end: nat)
    ensures Chain(files, [], from, end, end)
  {
  }

  lemma ChainGrows(files: seq<FileInfo>, s: Span, more: seq<Span>, from: nat, next: nat, end: nat)
    requires from == s.file < |files| && s.offset + s.length <= files[s.file].length
    requires files[s.file].offset + s.offset + s.length == next && Chain(files, more, from + 1, next, end)
    ensures Chain(files, [s] + more, from, files[s.file].offset + s.offset, end)
  {
    assert ([s] + more)[1..] == more;
  }

  /** The spans of a piece are in bounds, in file order, without gaps, and add
      up to the length of the piece. */
  lemma PieceIsTiled(info: Info, index: nat)
    requires Accepted(info) && index < |info.pieces|
    ensures var (lo, hi) := PieceRange(info, index).value;
      && Chain(info.files, SpansOfPiece(info, index), 0, lo, hi)
      && TotalLength(SpansOfPiece(info, index)) == hi - lo
  {
    PieceRangeExact(info, index);
    var (lo, hi) := PieceRange(info, index).value;
    OverlapsChain(info, 0, lo, hi);
    ChainLength(info.files, SpansOfPiece(info, index), 0, lo, hi);
  }

  // ------------------------------------------------------------- all pieces

  /** Span `k` of piece `index` holds byte `at` of file `file`. */
  ghost predicate Covers(info: Info, index: nat, k: nat, file: nat, at: nat) {
    && index < |info.pieces| && k < |SpansOfPiece(info, index)|
    && var s := SpansOfPiece(info, index)[k];
       s.file == file && s.offset <= at < s.offset + s.length
  }

  lemma {:induction false} OverlapsMember(files: seq<FileInfo>, i: nat, lo: nat, hi: nat, k: nat)
    requires i <= |files| && k < |OverlapsFrom(files, i, lo, hi)|
    ensures var s := OverlapsFrom(files, i, lo, hi)[k];
      i <= s.file < |files| && Overlap(files[s.file], s.file, lo, hi) == [s]
    decreases |files| - i
  {
    var one := Overlap(files[i], i, lo, hi);
    hide Min, Max, Add64;
    if k >= |one| {
      OverlapsMember(files, i + 1, lo, hi, k - |one|);
      assert OverlapsFrom(files, i, lo, hi)[k] == OverlapsFrom(files, i + 1, lo, hi)[k - |one|];
    }
  }

  lemma {:induction false} OverlapsDistinct(files: seq<FileInfo>, i: nat, lo: nat, hi: nat, k: nat, j: nat)
    requires i <= |files| && k < j < |OverlapsFrom(files, i, lo, hi)|
    ensures OverlapsFrom(files, i, lo, hi)[k].file < OverlapsFrom(files, i, lo, hi)[j].file
    decreases |files| - i
  {
    var one, more := Overlap(files[i], i, lo, hi), OverlapsFrom(files, i + 1, lo, hi);
    var all := OverlapsFrom(files, i, lo, hi);
    assert |one| <= 1 && all == one + more;
    OverlapsMember(files, i + 1, lo, hi, j - |one|);
    assert all[j] == more[j - |one|];
    if k >= |one| {
      assert all[k] == more[k - |one|];
      OverlapsDistinct(files, i + 1, lo, hi, k - |one|, j - |one|);
    }
  }

  lemma {:induction false} OverlapsHas(files: seq<FileInfo>, i: nat, lo: nat, hi: nat, f: nat) returns (k: nat)
    requires i <= f < |files| && Overlap(files[f], f, lo, hi) != []
    ensures k < |OverlapsFrom(files, i, lo, hi)| && OverlapsFrom(files, i, lo, hi)[k] == Overlap(files[f], f, lo, hi)[0]
    decreases |files| - i
  {
    hide Overlap;
    if i == f {
      k := 0;
    } else {
      k := OverlapsHas(files, i + 1, lo, hi, f);
      k := k + |Overlap(files[i], i, lo, hi)|;
    }
  }

  lemma DivisionPlaces(x: nat, d: nat, q: nat)
    requires d > 0
    ensures q * d <= x < q * d + d <==> q == x / d
  {
    assert x == d * (x / d) + x % d;
    if q < x / d { MulMonotone(q + 1, x / d, d); }
    if q > x / d { MulMonotone(x / d + 1, q, d); }
  }

  /** A span covers a byte of a file exactly when its piece is the one that
      byte of the torrent falls in. */
  lemma CoversMeans(info: Info, index: nat, k: nat, file: nat, at: nat)
    requires Accepted(info) && Covers(info, index, k, file, at)
    ensures file < |info.files| && at < info.files[file].length && info.pieceLength > 0
    ensures index == (info.files[file].offset + at) / info.pieceLength
  {
    hide Accepted, PieceRange, Overlap;
    PieceRangeExact(info, index);
    var (lo, hi) := PieceRange(info, index).value;
    OverlapsMember(info.files, 0, lo, hi, k);
    FileEnds(info, file);
    OverlapIs(info, file, lo, hi);
    PieceLengthPositive(info);
    DivisionPlaces(info.files[file].offset + at, info.pieceLength, index);
  }

  lemma CoveringSpan(info: Info, file: nat, at: nat) returns (index: nat, k: nat)
    requires Accepted(info) && file < |info.files| && at < info.files[file].length
    ensures Covers(info, index, k, file, at)
  {
    hide Accepted, PieceRange, Overlap;
    var x := info.files[file].offset + at;
    PieceLengthPositive(info);
    index := x / info.pieceLength;
    FileEnds(info, file);
    PiecesBoundTotal(info);
    DivisionPlaces(x, info.pieceLength, index);
    if index >= |info.pieces| { MulMonotone(|info.pieces|, index, info.pieceLength); }
    PieceRangeExact(info, index);
    var (lo, hi) := PieceRange(info, index).value;
    OverlapIs(info, file, lo, hi);
    k := OverlapsHas(info.files, 0, lo, hi, file);
  }

  lemma PieceLengthPositive(info: Info)
    requires Accepted(info)
    ensures info.pieceLength > 0
  {
  }

  lemma OneSpanPerFile(info: Info, index: nat, k: nat, l: nat, file: nat, at: nat)
    requires Covers(info, index, k, file, at) && Covers(info, index, l, file, at)
    ensures k == l
  {
    hide PieceRange, Overlap;
    var (lo, hi) := PieceRange(info, index).value;
    if k < l { OverlapsDistinct(info.files, 0, lo, hi, k, l); }
    if l < k { OverlapsDistinct(info.files, 0, lo, hi, l, k); }
  }

  /** Over all pieces, every byte of every file is covered exactly once. */
  lemma EveryByteCoveredOnce(info: Info, file: nat, at: nat)
    requires Accepted(info) && file < |info.files| && at < info.files[file].length
    ensures exists index, k :: Covers(info, index, k, file, at)
    ensures forall i, j, k, l :: Covers(info, i, k, file, at) && Covers(info, j, l, file, at) ==> i == j && k == l
  {
    hide Accepted, PieceRange, Overlap, Covers;
    var index, k := CoveringSpan(info, file, at);
    forall i, j, k, l | Covers(info, i, k, file, at) && Covers(info, j, l, file, at)
      ensures i == j && k == l
    {
      CoversMeans(info, i, k, file, at);
      CoversMeans(info, j, l, file, at);
      OneSpanPerFile(info, i, k, l, file, at);
    }
  }
}
