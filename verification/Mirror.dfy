/** Mirrors of one file: which URL is current, which have failed, and the loop
    that fails over between them. Two entries may hold the same URL; a URL then
    stands for its first entry. */
module Mirror {
  import opened Prelude

  type Url = seq<byte>

  const MAX_FAILURES: nat := 3

  predicate Distinct(s: seq<nat>) { forall i, j :: 0 <= i < j < |s| ==> s[i] != s[j] }

  predicate AllFailed(n: nat, failed: seq<nat>) { forall j :: 0 <= j < n ==> j in failed }

  /** The current entry is marked failed only when every entry is. */
  predicate Healthy(n: nat, current: nat, failed: seq<nat>) { current in failed ==> AllFailed(n, failed) }

  function UpTo(n: nat): (s: set<nat>)
    ensures |s| == n && forall i: nat :: i in s <==> i < n
  {
    if n == 0 then {} else UpTo(n - 1) + {n - 1}
  }

  function Elements(s: seq<nat>): (r: set<nat>)
    ensures forall i :: i in r <==> i in s
  {
    if s == [] then {} else Elements(s[..|s| - 1]) + {s[|s| - 1]}
  }

  lemma {:induction false} DistinctSize(s: seq<nat>)
    requires Distinct(s)
    ensures |Elements(s)| == |s|
  {
    if s != [] {
      var front := s[..|s| - 1];
      DistinctSize(front);
      assert s[|s| - 1] !in front;
    }
  }

  /** The marked entries are distinct indices, so there are at most `n`. */
  lemma FailedBound(n: nat, failed: seq<nat>)
    requires Distinct(failed) && forall i :: i in failed ==> i < n
    ensures |failed| <= n
    ensures |failed| == n ==> AllFailed(n, failed)
  {
    DistinctSize(failed);
    SubsetSize(Elements(failed), UpTo(n));
    if |failed| == n {
      forall j | 0 <= j < n ensures j in failed {
        if j !in failed { MissingOne(n, failed, j); }
      }
    }
  }

  lemma MissingOne(n: nat, failed: seq<nat>, j: nat)
    requires Distinct(failed) && forall i :: i in failed ==> i < n
    requires j < n && j !in failed
    ensures |failed| < n
  {
    DistinctSize(failed);
    SubsetSize(Elements(failed) + {j}, UpTo(n));
  }

  lemma MoreFailed(n: nat, a: seq<nat>, b: seq<nat>)
    requires a <= b
    ensures AllFailed(n, a) ==> AllFailed(n, b)
  {
    assert b == a + b[|a|..];
  }

  lemma SubsetSize(a: set<nat>, b: set<nat>)
    requires a <= b
    ensures |a| <= |b|
  {
    assert b == a + (b - a);
  }

  /** The entry `offset` places on. */
  function Turn(current: nat, offset: nat, n: nat): nat
    requires n > 0
  {
    (current + offset) % n
  }

  /** Every other entry is met within one turn. */
  lemma OffsetOf(n: nat, current: nat, j: nat) returns (offset: nat)
    requires current < n && j < n && j != current
    ensures 1 <= offset < n && Turn(current, offset, n) == j
  {
    offset := if j > current then j - current else j + n - current;
    if j < current { assert current + offset == j + n; }
  }

  /** The first entry after `current` that is not marked. */
  predicate FirstLive(current: nat, offset: nat, n: nat, failed: seq<nat>, found: nat)
    requires n > 0
  {
    found == Turn(current, offset, n) && forall k :: 1 <= k < offset ==> Turn(current, k, n) in failed
  }

  /** There is only one such entry, so the switch has no choice. */
  lemma FirstLiveIsUnique(current: nat, n: nat, failed: seq<nat>, i: nat, found: nat, j: nat, other: nat)
    requires n > 0 && 1 <= i && FirstLive(current, i, n, failed, found) && found !in failed
    requires 1 <= j && FirstLive(current, j, n, failed, other) && other !in failed
    ensures i == j && found == other == Turn(current, i, n)
  {
  }

  class MirrorManager {
    const urls: seq<Url>
    var currentIndex: nat
    var failed: seq<nat>
    var failureCounts: seq<nat>

    ghost predicate Valid()
      reads this
    {
      && currentIndex < |urls| == |failureCounts|
      && Distinct(failed) && (forall i :: i in failed ==> i < |urls|)
      && Healthy(|urls|, currentIndex, failed)
    }

    constructor (primary: Url, mirrors: seq<Url>)
      ensures Valid() && urls == [primary] + mirrors && currentIndex == 0 && failed == []
      ensures forall i :: 0 <= i < |failureCounts| ==> failureCounts[i] == 0
    {
      urls := [primary] + mirrors;
      currentIndex, failed := 0, [];
      failureCounts := seq(1 + |mirrors|, _ => 0);
    }

    function CurrentUrl(): Url
      requires currentIndex < |urls|
      reads this
    {
      urls[currentIndex]
    }

    /** Moving to the next entry not marked failed; none if all others are. */
    method SwitchToNext() returns (r: Option<Url>)
      requires currentIndex < |urls|
      modifies this`currentIndex
      ensures currentIndex < |urls|
      ensures r.Some? ==> currentIndex !in failed && r.value == urls[currentIndex]
      ensures r.Some? <==> exists j :: 0 <= j < |urls| && j != old(currentIndex) && j !in failed
      ensures r.None? ==> currentIndex == old(currentIndex)
      ensures r.Some? ==> exists offset :: 1 <= offset < |urls| && FirstLive(old(currentIndex), offset, |urls|, failed, currentIndex)
    {
      var n := |urls|;
      for offset := 1 to n
        invariant currentIndex == old(currentIndex)
        invariant forall k :: 1 <= k < offset ==> Turn(currentIndex, k, n) in failed
      {
        var idx := Turn(currentIndex, offset, n);
        if idx !in failed {
          NotTurned(n, currentIndex, offset);
          assert FirstLive(currentIndex, offset, n, failed, idx);
          currentIndex := idx;
          return Some(urls[idx]);
        }
      }
      forall j | 0 <= j < n && j != currentIndex ensures j in failed {
        var offset := OffsetOf(n, currentIndex, j);
      }
      return None;
    }

    /** A failure of one URL: three mark it, and a failing current URL is left. */
    method ReportUrlFailure(url: Url) returns (r: Option<Url>)
      requires Valid()
      modifies this
      ensures Valid() && old(failed) <= failed
      ensures url !in urls ==> r == Some(CurrentUrl()) && failed == old(failed) && failureCounts == old(failureCounts) && currentIndex == old(currentIndex)
      ensures url in urls ==>
        var i := IndexOf(urls, url);
        && failureCounts == old(failureCounts)[i := old(failureCounts)[i] + 1]
        && failed == (if failureCounts[i] >= MAX_FAILURES && i !in old(failed) then old(failed) + [i] else old(failed))
        && (i != old(currentIndex) ==> currentIndex == old(currentIndex))
      ensures AllFailed(|urls|, old(failed)) ==> currentIndex == old(currentIndex)
      ensures r.Some? ==> r.value == CurrentUrl()
    {
      var idx := IndexOf(urls, url);
      if idx < |urls| {
        failureCounts := failureCounts[idx := failureCounts[idx] + 1];
        if failureCounts[idx] >= MAX_FAILURES && idx !in failed {
          failed := failed + [idx];
        }
        if currentIndex == idx {
          r := SwitchToNext();
          return;
        }
      }
      return Some(urls[currentIndex]);
    }

    /** Giving up on a URL at once. */
    method FailoverFrom(url: Url) returns (r: Option<Url>)
      requires Valid()
      modifies this
      ensures Valid() && failureCounts == old(failureCounts)
      ensures url !in urls ==> r.None? && failed == old(failed) && currentIndex == old(currentIndex)
      ensures url in urls ==>
        var i := IndexOf(urls, url);
        && failed == (if i in old(failed) then old(failed) else old(failed) + [i])
        && (i != old(currentIndex) ==> currentIndex == old(currentIndex) && r == Some(CurrentUrl()))
        && (i == old(currentIndex) ==> (r.None? <==> AllFailed(|urls|, failed)))
      ensures r.Some? ==> r.value == CurrentUrl()
    {
      var idx := IndexOf(urls, url);
      if idx == |urls| { return None; }
      if idx !in failed { failed := failed + [idx]; }
      if currentIndex == idx {
        r := SwitchToNext();
      } else {
        r := Some(urls[currentIndex]);
      }
    }
  }

  lemma NotTurned(n: nat, current: nat, offset: nat)
    requires current < n && 1 <= offset < n
    ensures Turn(current, offset, n) != current
  {
    if current + offset >= n { assert (current + offset) % n == current + offset - n; }
  }

  /** What an attempt may do to the mirrors: any number of failure reports. */
  method Attempt(m: MirrorManager) returns (ok: bool)
    requires m.Valid()
    modifies m
    ensures m.Valid() && old(m.failed) <= m.failed
    ensures IndexOf(m.urls, old(m.CurrentUrl())) != old(m.currentIndex) ==> m.currentIndex == old(m.currentIndex)
    ensures AllFailed(|m.urls|, old(m.failed)) ==> m.currentIndex == old(m.currentIndex)
  {
    var reports: nat := *;
    while reports > 0
      invariant m.Valid() && old(m.failed) <= m.failed
      invariant IndexOf(m.urls, old(m.CurrentUrl())) != old(m.currentIndex) ==> m.currentIndex == old(m.currentIndex)
      invariant AllFailed(|m.urls|, old(m.failed)) ==> m.currentIndex == old(m.currentIndex)
    {
      var url: Url := *;
      MoreFailed(|m.urls|, old(m.failed), m.failed);
      var r := m.ReportUrlFailure(url);
      reports := reports - 1;
    }
    ok := *;
  }

  /** The download loop. Whatever the attempts report, a failed attempt that is
      followed by another has marked one more URL failed, so there is at most one
      attempt more than there are URLs. The first success ends it, and it is given
      up only when all URLs have failed or the next is the one just tried. */
  method Download(m: MirrorManager) returns (ok: bool, attempts: nat, ghost outcomes: seq<bool>, ghost tried: Url)
    requires m.Valid()
    modifies m
    ensures m.Valid() && 1 <= attempts <= |m.urls| + 1
    ensures old(m.failed) <= m.failed
    ensures |outcomes| == attempts && ok == outcomes[attempts - 1]
    ensures forall k :: 0 <= k < attempts - 1 ==> !outcomes[k]
    ensures !ok ==> AllFailed(|m.urls|, m.failed) || m.CurrentUrl() == tried
  {
    var activeUrl := m.CurrentUrl();
    attempts, outcomes := 0, [];
    FailedBound(|m.urls|, m.failed);
    while true
      invariant m.Valid() && old(m.failed) <= m.failed && |m.failed| <= |m.urls|
      invariant activeUrl == m.CurrentUrl()
      invariant attempts <= |m.failed| - |old(m.failed)|
      invariant |outcomes| == attempts && forall k :: 0 <= k < attempts ==> !outcomes[k]
      decreases |m.urls| - |m.failed|
    {
      var attemptUrl := activeUrl;
      ghost var before := m.failed;
      attempts := attempts + 1;
      ok := Attempt(m);
      outcomes, tried := outcomes + [ok], attemptUrl;
      FailedBound(|m.urls|, m.failed);
      if ok { return; }
      var next := m.FailoverFrom(attemptUrl);
      FailedBound(|m.urls|, m.failed);
      if next.None? || next.value == attemptUrl { return; }
      activeUrl := next.value;
    }
  }
}
