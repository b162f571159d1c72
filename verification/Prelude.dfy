/** Vocabulary shared by every component: bytes, optional values, results and
    the machine integer widths the original uses. */
module Prelude {

  type byte = x: int | 0 <= x < 256

  /** 2^63 and 2^64: one past the largest `i64` and `u64`/`usize`. */
  const TWO_63: int := 0x8000_0000_0000_0000
  const TWO_64: int := 0x1_0000_0000_0000_0000

  datatype Option<+T> = None | Some(value: T)

  datatype Result<+T> = Ok(value: T) | Err

  function Min(a: int, b: int): int { if a < b then a else b }

  function Max(a: int, b: int): int { if a < b then b else a }

  /** A `u64` addition or multiplication of a release build: it wraps. */
  function Add64(a: nat, b: nat): nat { (a + b) % TWO_64 }

  function Mul64(a: nat, b: nat): nat { (a * b) % TWO_64 }

  /** The first position of `c` in `s`, or `|s|`. */
  function IndexOf<T(==)>(s: seq<T>, c: T): (i: nat)
    ensures i <= |s|
    ensures i < |s| ==> s[i] == c
    ensures forall k :: 0 <= k < i ==> s[k] != c
  {
    if s == [] then 0 else if s[0] == c then 0 else 1 + IndexOf(s[1..], c)
  }

  /** Where `c` first occurs is decided by the text up to that place. */
  lemma IndexOfAt<T>(pre: seq<T>, c: T, tail: seq<T>)
    requires c !in pre
    ensures IndexOf(pre + [c] + tail, c) == |pre|
  {
    var s := pre + [c] + tail;
    assert s[|pre|] == c;
    assert forall k :: 0 <= k < |pre| ==> s[k] == pre[k];
  }

  function Zeros(n: nat): (s: seq<byte>)
    ensures |s| == n
  {
    seq(n, _ => 0)
  }

  /** The pieces one after another. */
  function Concat(chunks: seq<seq<byte>>): seq<byte> {
    if chunks == [] then [] else Concat(chunks[..|chunks| - 1]) + chunks[|chunks| - 1]
  }

  function Sum(g: seq<nat>): nat { if g == [] then 0 else Sum(g[..|g| - 1]) + g[|g| - 1] }

  lemma SumSnoc(g: seq<nat>, n: nat)
    ensures Sum(g + [n]) == Sum(g) + n
  {
    assert (g + [n])[..|g|] == g;
  }

  lemma {:induction false} SumWithout(g: seq<nat>, k: nat)
    requires k < |g|
    ensures Sum(g[..k] + g[k + 1..]) + g[k] == Sum(g)
    decreases |g|
  {
    var n := |g| - 1;
    if k == n {
      assert g[..k] + g[k + 1..] == g[..n];
    } else {
      SumWithout(g[..n], k);
      assert g[..k] + g[k + 1..] == (g[..n][..k] + g[..n][k + 1..]) + [g[n]];
      SumSnoc(g[..n][..k] + g[..n][k + 1..], g[n]);
    }
  }
}
