/** Segments of one file: splitting it, restoring and recording progress, and
    how much of it can be read from the front. */
module Segments {
  import opened Prelude

  datatype SegmentState = Pending | Downloading | Completed | Broken(retries: nat)

  /** Bytes `start` to `end`, both inclusive. */
  datatype Segment = Segment(index: nat, start: nat, end: nat, downloaded: nat, state: SegmentState) {
    function Size(): int { end - start + 1 }
  }

  /** Consecutive non-empty ranges that cover `[from, total)`, indexed from `base`. */
  ghost predicate Tiles(segs: seq<Segment>, base: nat, from: nat, total: nat) {
    if segs == [] then from == total
    else
      && segs[0].index == base && segs[0].start == from && from <= segs[0].end
      && Tiles(segs[1..], base + 1, segs[0].end + 1, total)
  }

  ghost predicate Partition(segs: seq<Segment>, total: nat) { Tiles(segs, 0, 0, total) }

  /** No segment claims more than it holds. */
  predicate Bounded(segs: seq<Segment>) {
    forall k :: 0 <= k < |segs| ==> segs[k].downloaded <= segs[k].Size()
  }

  lemma {:induction false} TilesSnoc(segs: seq<Segment>, s: Segment, base: nat, from: nat, mid: nat)
    requires Tiles(segs, base, from, mid)
    requires s.index == base + |segs| && s.start == mid && s.start <= s.end
    ensures Tiles(segs + [s], base, from, s.end + 1)
  {
    if segs != [] {
      TilesSnoc(segs[1..], s, base + 1, segs[0].end + 1, mid);
      assert (segs + [s])[1..] == segs[1..] + [s];
    } else {
      assert (segs + [s])[1..] == [];
    }
  }

  lemma {:induction false} TilesAt(segs: seq<Segment>, base: nat, from: nat, total: nat, k: nat)
    requires Tiles(segs, base, from, total) && k < |segs|
    ensures segs[k].index == base + k && from <= segs[k].start <= segs[k].end < total
    ensures k + 1 < |segs| ==> segs[k + 1].start == segs[k].end + 1
    ensures k == 0 ==> segs[k].start == from
    ensures k + 1 == |segs| ==> segs[k].end == total - 1
  {
    TilesUpTo(segs[1..], base + 1, segs[0].end + 1, total);
    if k > 0 { TilesAt(segs[1..], base + 1, segs[0].end + 1, total, k - 1); }
  }

  lemma {:induction false} TilesUpTo(segs: seq<Segment>, base: nat, from: nat, total: nat)
    requires Tiles(segs, base, from, total)
    ensures from <= total
  {
    if segs != [] { TilesUpTo(segs[1..], base + 1, segs[0].end + 1, total); }
  }

  /** Every byte lies in exactly one segment. */
  lemma {:induction false} TilesCover(segs: seq<Segment>, base: nat, from: nat, total: nat, b: nat)
      returns (k: nat)
    requires Tiles(segs, base, from, total) && from <= b < total
    ensures k < |segs| && segs[k].start <= b <= segs[k].end
    ensures forall j :: 0 <= j < |segs| && segs[j].start <= b <= segs[j].end ==> j == k
  {
    if b <= segs[0].end {
      k := 0;
      forall j | 1 <= j < |segs| ensures segs[j].start > b {
        TilesAt(segs[1..], base + 1, segs[0].end + 1, total, j - 1);
      }
    } else {
      var rest := segs[1..];
      var i := TilesCover(rest, base + 1, segs[0].end + 1, total, b);
      k := i + 1;
      forall j | 0 <= j < |segs| && segs[j].start <= b <= segs[j].end ensures j == k {
        assert segs[j] == rest[j - 1];
      }
    }
  }

  // ------------------------------------------------------------- splitting

  function SegmentCount(total: nat, maxConnections: nat, minSize: nat): nat
    requires minSize > 0
  {
    if total == 0 then 1 else Max(Min(maxConnections, Max(total / minSize, 1)), 1)
  }

  lemma QuotientBounds(total: nat, n: nat)
    requires n > 0
    ensures n * (total / n) <= total
  {
  }

  lemma ProductGrows(i: nat, n: nat, x: nat)
    requires i <= n
    ensures i * x <= n * x && (i + 1) * x == i * x + x
  {
  }

  lemma FactorIsSmaller(m: nat, k: nat, n: nat)
    requires m * n < k * n
    ensures m < k
  {
    if m >= k { ProductGrows(k, m, n); }
  }

  lemma LargeEnough(total: nat, n: nat, m: nat)
    requires 0 < n && 0 < m && n * m <= total
    ensures m <= total / n
  {
    var q := total / n;
    assert total < (q + 1) * n;
    FactorIsSmaller(m, q + 1, n);
  }

  /** The even share is never empty, and no smaller than the minimum when the
      file is that large. */
  lemma ShareSize(total: nat, maxConnections: nat, minSize: nat)
    requires total > 0 && minSize > 0
    ensures var n := SegmentCount(total, maxConnections, minSize);
      0 < n <= total && 1 <= total / n && (total >= minSize ==> minSize <= total / n)
  {
    var n := SegmentCount(total, maxConnections, minSize);
    QuotientBounds(total, minSize);
    if total >= minSize {
      LargeEnough(total, minSize, 1);
      ProductGrows(n, total / minSize, minSize);
      LargeEnough(total, n, minSize);
      ProductGrows(1, minSize, n);
    }
    assert n <= total;
    LargeEnough(total, n, 1);
  }

  /** So many segments are within the connections allowed and no smaller than
      the minimum. */
  predicate Allowed(n: nat, total: nat, maxConnections: nat, minSize: nat) {
    n <= maxConnections && n * minSize <= total
  }

  /** As many segments as are allowed, and one if none is. */
  lemma CountIsLargest(total: nat, maxConnections: nat, minSize: nat)
    requires minSize > 0
    ensures var n := SegmentCount(total, maxConnections, minSize);
      && 1 <= n && (n == 1 || Allowed(n, total, maxConnections, minSize))
      && forall m: nat :: Allowed(m, total, maxConnections, minSize) ==> m <= n
  {
    var n := SegmentCount(total, maxConnections, minSize);
    if n > 1 {
      QuotientBounds(total, minSize);
      ProductGrows(n, total / minSize, minSize);
    }
    forall m: nat | Allowed(m, total, maxConnections, minSize) ensures m <= n {
      if m > 0 {
        ProductGrows(1, m, minSize);
        LargeEnough(total, minSize, m);
      }
    }
  }

  // -------------------------------------------- recording and reading back

  function Downloaded(segs: seq<Segment>): nat {
    if segs == [] then 0 else Downloaded(segs[..|segs| - 1]) + segs[|segs| - 1].downloaded
  }

  function Progress(segs: seq<Segment>): (p: seq<nat>)
    ensures |p| == |segs| && forall k :: 0 <= k < |segs| ==> p[k] == segs[k].downloaded
  {
    seq(|segs|, (k: nat) requires k < |segs| => segs[k].downloaded)
  }

  /** One segment of a snapshot. */
  function Recorded(s: Segment, downloaded: nat): Segment {
    s.(downloaded := downloaded,
       state := if downloaded >= s.Size() then Completed else if downloaded > 0 then Downloading else s.state)
  }

  function Snapshot(segs: seq<Segment>, progress: seq<nat>): (r: seq<Segment>)
    ensures |r| == |segs|
  {
    seq(|segs|, (k: nat) requires k < |segs| => if k < |progress| then Recorded(segs[k], progress[k]) else segs[k])
  }

  /** What the database returns for a stored segment. */
  function Reload(s: Segment): Segment { if s.state == Downloading then s.(state := Pending) else s }

  function ReloadAll(segs: seq<Segment>): (r: seq<Segment>)
    ensures |r| == |segs|
  {
    seq(|segs|, (k: nat) requires k < |segs| => Reload(segs[k]))
  }

  lemma {:induction false} SameTiles(a: seq<Segment>, b: seq<Segment>, base: nat, from: nat, total: nat)
    requires Tiles(a, base, from, total) && |a| == |b|
    requires forall k :: 0 <= k < |a| ==> a[k].index == b[k].index && a[k].start == b[k].start && a[k].end == b[k].end
    ensures Tiles(b, base, from, total)
    decreases |a|
  {
    if a != [] { SameTiles(a[1..], b[1..], base + 1, a[0].end + 1, total); }
  }

  /** A segment is marked complete exactly when it is full. */
  predicate Marked(segs: seq<Segment>) {
    forall k :: 0 <= k < |segs| ==> (segs[k].state == Completed <==> segs[k].downloaded == segs[k].Size())
  }

  /** Taking a snapshot and loading it in a later session loses no byte, forgets
      no boundary and skips exactly the full segments. */
  lemma ReloadKeeps(segs: seq<Segment>, progress: seq<nat>, total: nat)
    requires Partition(segs, total) && Marked(segs) && |progress| == |segs|
    requires forall k :: 0 <= k < |segs| ==> segs[k].downloaded <= progress[k] <= segs[k].Size()
    ensures var r := Snapshot(segs, progress);
      && Partition(r, total) && Bounded(r) && Marked(r) && Progress(r) == progress
      && Partition(ReloadAll(r), total) && Bounded(ReloadAll(r)) && Marked(ReloadAll(r)) && Progress(ReloadAll(r)) == progress
      && (forall k :: 0 <= k < |r| ==> ReloadAll(r)[k].state != Downloading || progress[k] == 0)
  {
    var r := Snapshot(segs, progress);
    SameTiles(segs, r, 0, 0, total);
    SameTiles(segs, ReloadAll(r), 0, 0, total);
    forall k | 0 <= k < |segs| ensures 1 <= segs[k].Size() { TilesAt(segs, 0, 0, total, k); }
  }

  // -------------------------------------------------- the readable prefix

  /** Byte `b` has been downloaded. */
  ghost predicate Has(segs: seq<Segment>, b: int) {
    exists s :: s in segs && s.start <= b <= s.end && b < s.start + s.downloaded
  }

  /** The length of the longest fully downloaded prefix of a file of `total` bytes. */
  ghost predicate LongestPrefix(segs: seq<Segment>, total: nat, n: nat) {
    && n <= total
    && (forall b :: 0 <= b < n ==> Has(segs, b))
    && (n < total ==> !Has(segs, n))
  }

  lemma LongestPrefixIsUnique(segs: seq<Segment>, total: nat, m: nat, n: nat)
    requires LongestPrefix(segs, total, m) && LongestPrefix(segs, total, n)
    ensures m == n
  {
    hide Has;
  }

  /** Insertion into a list sorted by start, after equal keys. */
  function Insert(s: Segment, sorted: seq<Segment>): seq<Segment> {
    if sorted == [] || s.start < sorted[0].start then [s] + sorted
    else [sorted[0]] + Insert(s, sorted[1..])
  }

  /** A stable sort by start, as `sort_by_key` gives. */
  function SortByStart(segs: seq<Segment>): seq<Segment> {
    if segs == [] then [] else Insert(segs[|segs| - 1], SortByStart(segs[..|segs| - 1]))
  }

  lemma {:induction false} InsertMembers(s: Segment, sorted: seq<Segment>, x: Segment)
    ensures x in Insert(s, sorted) <==> x == s || x in sorted
  {
    if sorted != [] && s.start >= sorted[0].start {
      InsertMembers(s, sorted[1..], x);
      assert sorted == [sorted[0]] + sorted[1..];
    }
  }

  lemma {:induction false} SortMembers(segs: seq<Segment>, x: Segment)
    ensures x in SortByStart(segs) <==> x in segs
  {
    if segs != [] {
      SortMembers(segs[..|segs| - 1], x);
      InsertMembers(segs[|segs| - 1], SortByStart(segs[..|segs| - 1]), x);
      assert segs == segs[..|segs| - 1] + [segs[|segs| - 1]];
    }
  }

  predicate StartsAscend(segs: seq<Segment>) { forall i, j :: 0 <= i < j < |segs| ==> segs[i].start <= segs[j].start }

  lemma {:induction false} InsertSorts(s: Segment, sorted: seq<Segment>)
    requires StartsAscend(sorted)
    ensures StartsAscend(Insert(s, sorted))
  {
    if sorted != [] && s.start >= sorted[0].start {
      var rest := Insert(s, sorted[1..]);
      InsertSorts(s, sorted[1..]);
      forall k | 0 <= k < |rest| ensures sorted[0].start <= rest[k].start {
        InsertMembers(s, sorted[1..], rest[k]);
      }
    }
  }

  lemma {:induction false} InsertAdds(s: Segment, sorted: seq<Segment>)
    ensures multiset(Insert(s, sorted)) == multiset(sorted) + multiset{s}
  {
    if sorted != [] {
      assert sorted == [sorted[0]] + sorted[1..];
      if s.start >= sorted[0].start { InsertAdds(s, sorted[1..]); }
    }
  }

  /** Sorting gives the same segments, by their start. */
  lemma {:induction false} SortSorts(segs: seq<Segment>)
    ensures StartsAscend(SortByStart(segs)) && multiset(SortByStart(segs)) == multiset(segs)
  {
    if segs != [] {
      var n := |segs| - 1;
      SortSorts(segs[..n]);
      InsertSorts(segs[n], SortByStart(segs[..n]));
      InsertAdds(segs[n], SortByStart(segs[..n]));
      assert segs == segs[..n] + [segs[n]];
    }
  }

  /** The segments that start at one place, in the order in which they stand. */
  function Starting(segs: seq<Segment>, start: nat): seq<Segment> {
    if segs == [] then []
    else (if segs[0].start == start then [segs[0]] else []) + Starting(segs[1..], start)
  }

  lemma {:induction false} StartingSnoc(segs: seq<Segment>, s: Segment, start: nat)
    ensures Starting(segs + [s], start) == Starting(segs, start) + if s.start == start then [s] else []
  {
    if segs == [] {
      assert (segs + [s])[1..] == [];
    } else {
      StartingSnoc(segs[1..], s, start);
      assert (segs + [s])[1..] == segs[1..] + [s];
    }
  }

  lemma {:induction false} NoneStarting(segs: seq<Segment>, start: nat)
    requires forall k :: 0 <= k < |segs| ==> segs[k].start != start
    ensures Starting(segs, start) == []
  {
    if segs != [] { NoneStarting(segs[1..], start); }
  }

  lemma {:induction false} InsertIsStable(s: Segment, sorted: seq<Segment>, start: nat)
    requires StartsAscend(sorted)
    ensures Starting(Insert(s, sorted), start) == Starting(sorted, start) + if s.start == start then [s] else []
  {
    if sorted == [] || s.start < sorted[0].start {
      assert ([s] + sorted)[1..] == sorted;
      if s.start == start { NoneStarting(sorted, start); }
    } else {
      InsertIsStable(s, sorted[1..], start);
      assert ([sorted[0]] + Insert(s, sorted[1..]))[1..] == Insert(s, sorted[1..]);
    }
  }

  /** And those that start at the same place keep their order. */
  lemma {:induction false} SortIsStable(segs: seq<Segment>, start: nat)
    ensures Starting(SortByStart(segs), start) == Starting(segs, start)
  {
    if segs != [] {
      var n := |segs| - 1;
      SortIsStable(segs[..n], start);
      SortSorts(segs[..n]);
      InsertIsStable(segs[n], SortByStart(segs[..n]), start);
      StartingSnoc(segs[..n], segs[n], start);
      assert segs == segs[..n] + [segs[n]];
    }
  }

  lemma {:induction false} TilesAscend(p: seq<Segment>, base: nat, from: nat, total: nat)
    requires Tiles(p, base, from, total)
    ensures forall i, j :: 0 <= i < j < |p| ==> p[i].start < p[j].start
  {
    if p != [] {
      var rest := p[1..];
      TilesAscend(rest, base + 1, p[0].end + 1, total);
      forall j | 0 <= j < |rest| ensures p[0].start < rest[j].start {
        TilesAt(rest, base + 1, p[0].end + 1, total, j);
      }
      assert p == [p[0]] + rest;
    }
  }

  lemma HeadsAgree(a: seq<Segment>, p: seq<Segment>)
    requires multiset(a) == multiset(p) && StartsAscend(a) && p != []
    requires forall i, j :: 0 <= i < j < |p| ==> p[i].start < p[j].start
    ensures a != [] && a[0] == p[0]
  {
    assert p[0] in multiset(a);
    var j :| 0 <= j < |a| && a[j] == p[0];
    assert a[0] in multiset(p);
    var i :| 0 <= i < |p| && p[i] == a[0];
  }

  lemma TailsAgree(x: Segment, a: seq<Segment>, p: seq<Segment>)
    requires multiset([x] + a) == multiset([x] + p)
    ensures multiset(a) == multiset(p)
  {
    assert multiset(a) == multiset([x] + a) - multiset{x};
    assert multiset(p) == multiset([x] + p) - multiset{x};
  }

  /** Two orders by start of the same segments agree, if no two start alike. */
  lemma {:induction false} OneOrder(a: seq<Segment>, p: seq<Segment>)
    requires multiset(a) == multiset(p) && StartsAscend(a)
    requires forall i, j :: 0 <= i < j < |p| ==> p[i].start < p[j].start
    ensures a == p
  {
    if p == [] {
      assert |a| == |multiset(a)|;
    } else {
      HeadsAgree(a, p);
      assert a == [a[0]] + a[1..] && p == [a[0]] + p[1..];
      TailsAgree(a[0], a[1..], p[1..]);
      OneOrder(a[1..], p[1..]);
    }
  }

  /** The segments split the file, in whatever order they are listed. */
  ghost predicate Splits(segs: seq<Segment>, total: nat) {
    exists p :: Partition(p, total) && multiset(p) == multiset(segs)
  }

  lemma SplitsSorted(segs: seq<Segment>, total: nat)
    ensures Splits(segs, total) <==> Partition(SortByStart(segs), total)
  {
    SortSorts(segs);
    hide SortByStart;
    if Splits(segs, total) {
      var p :| Partition(p, total) && multiset(p) == multiset(segs);
      TilesAscend(p, 0, 0, total);
      OneOrder(SortByStart(segs), p);
    }
  }

  lemma SortHas(segs: seq<Segment>, b: int)
    ensures Has(SortByStart(segs), b) <==> Has(segs, b)
  {
    forall x ensures x in SortByStart(segs) <==> x in segs { SortMembers(segs, x); }
  }

  /** 64-bit arithmetic that stops at the ends of its range. */
  lemma SaturatesExactly(a: nat, b: nat)
    requires a < TWO_64 && b < TWO_64
    ensures SatSub(a, b) < TWO_64 && (a >= b ==> SatSub(a, b) + b == a) && (a < b ==> SatSub(a, b) == 0)
    ensures SatAdd(a, b) < TWO_64 && (a + b < TWO_64 ==> SatAdd(a, b) == a + b)
    ensures a + b >= TWO_64 ==> SatAdd(a, b) == 0xFFFF_FFFF_FFFF_FFFF
  {
  }

  function SatSub(a: nat, b: nat): nat { if a < b then 0 else a - b }

  function SatAdd(a: nat, b: nat): nat { Min(a + b, TWO_64 - 1) }

  lemma HasAt(segs: seq<Segment>, k: nat, b: nat)
    requires k < |segs| && segs[k].start <= b <= segs[k].end && b < segs[k].start + segs[k].downloaded
    ensures Has(segs, b)
  {
    assert segs[k] in segs;
  }

  /** The first byte a segment of a partition lacks is lacking altogether. */
  lemma GapAt(segs: seq<Segment>, total: nat, k: nat)
    requires Partition(segs, total) && k < |segs| && segs[k].downloaded < segs[k].Size()
    ensures segs[k].start + segs[k].downloaded < total
    ensures !Has(segs, segs[k].start + segs[k].downloaded)
  {
    TilesAt(segs, 0, 0, total, k);
    var b := segs[k].start + segs[k].downloaded;
    var i := TilesCover(segs, 0, 0, total, b);
    forall s | s in segs && s.start <= b <= s.end ensures s == segs[k] {
      var j :| 0 <= j < |segs| && segs[j] == s;
    }
  }

  /** The reader's view of cached segments: it stops at the first gap. Every
      byte it offers has been downloaded, whatever the segments are; when they
      partition the file, it offers the longest downloaded prefix. */
  method CachedPrefix(segs: seq<Segment>, ghost total: nat) returns (end: nat)
    requires forall k :: 0 <= k < |segs| ==> segs[k].start <= segs[k].end < TWO_64 - 1
    requires total < TWO_64
    ensures forall b :: 0 <= b < end ==> Has(segs, b)
    ensures Splits(segs, total) ==> LongestPrefix(segs, total, end)
  {
    SplitsSorted(segs, total);
    var ordered := SortByStart(segs);
    forall b ensures Has(ordered, b) <==> Has(segs, b) { SortHas(segs, b); }
    forall x ensures x in ordered <==> x in segs { SortMembers(segs, x); }
    hide SortByStart, Has, Splits;
    end := 0;
    var i := 0;
    while i < |ordered|
      invariant 0 <= i <= |ordered|
      invariant end < TWO_64
      invariant forall b :: 0 <= b < end ==> Has(ordered, b)
      invariant Partition(ordered, total) ==> end <= total && (i < |ordered| ==> ordered[i].start == end) && (i == |ordered| ==> end == total)
    {
      var segment := ordered[i];
      assert segment in ordered;
      if Partition(ordered, total) { TilesAt(ordered, 0, 0, total, i); }
      if segment.start != end { break; }
      var size := SatAdd(SatSub(segment.end, segment.start), 1);
      var next := SatAdd(end, Min(segment.downloaded, size));
      forall b | end <= b < next ensures Has(ordered, b) { HasAt(ordered, i, b); }
      end := next;
      if segment.downloaded < size {
        if Partition(ordered, total) { GapAt(ordered, total, i); }
        break;
      }
      i := i + 1;
    }
  }

  /** A segment with the progress its task last published. */
  function Current(s: Segment, progress: seq<nat>): Segment {
    s.(downloaded := if s.index < |progress| then progress[s.index] else s.downloaded)
  }

  function CurrentAll(segs: seq<Segment>, progress: seq<nat>): (r: seq<Segment>)
    ensures |r| == |segs|
  {
    seq(|segs|, (k: nat) requires k < |segs| => Current(segs[k], progress))
  }

  lemma CurrentHas(a: seq<Segment>, b: seq<Segment>, progress: seq<nat>, at: int)
    requires forall x :: x in a <==> x in b
    requires Has(CurrentAll(a, progress), at)
    ensures Has(CurrentAll(b, progress), at)
  {
    var s :| s in CurrentAll(a, progress) && s.start <= at <= s.end && at < s.start + s.downloaded;
    var k :| 0 <= k < |a| && CurrentAll(a, progress)[k] == s;
    assert a[k] in b;
    var j :| 0 <= j < |b| && b[j] == a[k];
    assert CurrentAll(b, progress)[j] == s;
  }

  lemma CurrentSorted(segs: seq<Segment>, progress: seq<nat>)
    ensures forall b: int :: Has(CurrentAll(SortByStart(segs), progress), b) <==> Has(CurrentAll(segs, progress), b)
  {
    hide Has, CurrentAll, SortByStart;
    var ordered := SortByStart(segs);
    forall x ensures x in ordered <==> x in segs { SortMembers(segs, x); }
    forall b: int ensures Has(CurrentAll(ordered, progress), b) <==> Has(CurrentAll(segs, progress), b) {
      if Has(CurrentAll(ordered, progress), b) { CurrentHas(ordered, segs, progress, b); }
      if Has(CurrentAll(segs, progress), b) { CurrentHas(segs, ordered, progress, b); }
    }
  }

  /** Everything before segment `i` can be read. */
  ghost predicate ReadTo(view: seq<Segment>, total: nat, i: nat) {
    forall b :: 0 <= b < (if i < |view| then view[i].start else total) ==> Has(view, b)
  }

  lemma ReadStep(view: seq<Segment>, total: nat, i: nat)
    requires Partition(view, total) && i < |view| && ReadTo(view, total, i)
    ensures if view[i].downloaded < view[i].Size() then LongestPrefix(view, total, view[i].start + view[i].downloaded)
            else ReadTo(view, total, i + 1)
  {
    TilesAt(view, 0, 0, total, i);
    if view[i].downloaded < view[i].Size() { GapAt(view, total, i); }
    hide Has;
    forall b: nat | view[i].start <= b <= view[i].end && b < view[i].start + view[i].downloaded ensures Has(view, b) {
      HasAt(view, i, b);
    }
  }

  lemma CurrentTiles(segs: seq<Segment>, progress: seq<nat>, total: nat)
    requires Partition(segs, total)
    ensures Partition(CurrentAll(segs, progress), total)
  {
    SameTiles(segs, CurrentAll(segs, progress), 0, 0, total);
  }

  lemma ReadNothing(view: seq<Segment>, total: nat)
    requires Partition(view, total)
    ensures ReadTo(view, total, 0)
  {
  }

  lemma ReadAll(view: seq<Segment>, total: nat)
    requires ReadTo(view, total, |view|)
    ensures LongestPrefix(view, total, total)
  {
    hide Has;
  }

  lemma SameHas(a: seq<Segment>, b: seq<Segment>, total: nat, n: nat)
    requires LongestPrefix(a, total, n) && forall at: int :: Has(a, at) <==> Has(b, at)
    ensures LongestPrefix(b, total, n)
  {
    hide Has;
  }

  class SegmentedDownload {
    const totalSize: nat
    var segments: seq<Segment>
    var segmentProgress: seq<nat>
    var downloaded: nat

    constructor (totalSize: nat)
      ensures this.totalSize == totalSize && segments == [] && segmentProgress == [] && downloaded == 0
    {
      this.totalSize := totalSize;
      segments, segmentProgress, downloaded := [], [], 0;
    }

    /** Splitting a file of known, non-zero size. */
    method InitSegments(maxConnections: nat, minSize: nat)
      requires totalSize > 0 && minSize > 0
      modifies this`segments, this`segmentProgress
      ensures Partition(segments, totalSize)
      ensures |segments| == SegmentCount(totalSize, maxConnections, minSize)
      ensures forall k :: 0 <= k < |segments| ==> segments[k].downloaded == 0 && segments[k].state == Pending
      ensures totalSize >= minSize ==> forall k :: 0 <= k < |segments| ==> segments[k].Size() >= minSize
      ensures forall k :: 0 <= k < |segments| - 1 ==> segments[k].Size() == totalSize / |segments|
      ensures segmentProgress == Progress(segments)
    {
      var numSegments := SegmentCount(totalSize, maxConnections, minSize);
      ShareSize(totalSize, maxConnections, minSize);
      var segmentSize := totalSize / numSegments;
      QuotientBounds(totalSize, numSegments);
      var built: seq<Segment> := [];
      for i := 0 to numSegments
        invariant |built| == i
        invariant Tiles(built, 0, 0, if i == numSegments then totalSize else i * segmentSize)
        invariant forall k :: 0 <= k < i ==> built[k].downloaded == 0 && built[k].state == Pending
        invariant forall k :: 0 <= k < i ==> built[k].Size() >= segmentSize
        invariant forall k :: 0 <= k < i && k < numSegments - 1 ==> built[k].Size() == segmentSize
      {
        ProductGrows(i + 1, numSegments, segmentSize);
        ProductGrows(i, numSegments, segmentSize);
        var start := i * segmentSize;
        var end := if i == numSegments - 1 then totalSize - 1 else (i + 1) * segmentSize - 1;
        var s := Segment(i, start, end, 0, Pending);
        TilesSnoc(built, s, 0, 0, start);
        built := built + [s];
      }
      segmentProgress := Progress(built);
      segments := built;
    }

    method RestoreSegments(saved: seq<Segment>)
      modifies this
      ensures segments == saved && segmentProgress == Progress(saved) && downloaded == Downloaded(saved)
    {
      var sum := 0;
      for i := 0 to |saved|
        invariant sum == Downloaded(saved[..i])
      {
        assert saved[..i + 1][..i] == saved[..i];
        sum := sum + saved[i].downloaded;
      }
      assert saved[..|saved|] == saved;
      downloaded := sum;
      segmentProgress := Progress(saved);
      segments := saved;
    }

    method SegmentsWithProgress() returns (r: seq<Segment>)
      ensures r == Snapshot(segments, segmentProgress)
    {
      r := [];
      for i := 0 to |segments|
        invariant |r| == i && r == Snapshot(segments, segmentProgress)[..i]
      {
        var segment := segments[i];
        if i < |segmentProgress| {
          segment := segment.(downloaded := segmentProgress[i]);
          if segment.downloaded >= segment.Size() {
            segment := segment.(state := Completed);
          } else if segment.downloaded > 0 {
            segment := segment.(state := Downloading);
          }
        }
        r := r + [segment];
      }
    }

    /** How far a reader can safely read: the longest downloaded prefix, in
        whatever order the segments are listed. */
    method ContiguousAvailable() returns (n: nat)
      requires Splits(segments, totalSize)
      ensures LongestPrefix(CurrentAll(segments, segmentProgress), totalSize, n)
    {
      SplitsSorted(segments, totalSize);
      hide SortByStart, Has, Partition, LongestPrefix, ReadTo, Splits;
      var ordered := SortByStart(segments);
      ghost var view := CurrentAll(ordered, segmentProgress);
      CurrentTiles(ordered, segmentProgress, totalSize);
      CurrentSorted(segments, segmentProgress);
      ReadNothing(view, totalSize);
      var i := 0;
      while i < |ordered|
        invariant 0 <= i <= |ordered| && ReadTo(view, totalSize, i)
      {
        var segment := ordered[i];
        var got := if segment.index < |segmentProgress| then segmentProgress[segment.index] else segment.downloaded;
        var size := segment.end - segment.start + 1;
        ReadStep(view, totalSize, i);
        if got < size {
          SameHas(view, CurrentAll(segments, segmentProgress), totalSize, segment.start + got);
          return segment.start + got;
        }
        i := i + 1;
      }
      ReadAll(view, totalSize);
      SameHas(view, CurrentAll(segments, segmentProgress), totalSize, totalSize);
      return totalSize;
    }
  }
}
