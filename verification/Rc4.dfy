/** The RC4 cipher with its first 1024 bytes dropped: a specification on values,
    its laws, and the in-place implementation. */
module Rc4 {
  import opened Prelude

  /** `wrapping_add` and exclusive or of bytes. */
  function Add(a: byte, b: byte): byte { (a + b) % 256 }

  function Xor(a: byte, b: byte): byte {
    Eight();
    XorBits(a, b, 8)
  }

  function TwoTo(n: nat): nat { if n == 0 then 1 else 2 * TwoTo(n - 1) }

  /** Bit by bit, from the lowest of `n`. */
  function XorBits(a: nat, b: nat, n: nat): (r: nat)
    ensures r < TwoTo(n)
  {
    if n == 0 then 0 else (a % 2 + b % 2) % 2 + 2 * XorBits(a / 2, b / 2, n - 1)
  }

  lemma LowBit(low: nat, rest: nat)
    requires low < 2
    ensures (low + 2 * rest) % 2 == low && (low + 2 * rest) / 2 == rest
  {
  }

  lemma BitTwice(a: nat, k: nat)
    requires a < 2 && k < 2
    ensures ((a + k) % 2 + k) % 2 == a
  {
  }

  lemma {:induction false} XorBitsTwice(a: nat, k: nat, n: nat)
    requires a < TwoTo(n)
    ensures XorBits(XorBits(a, k, n), k, n) == a
  {
    if n > 0 {
      LowBit((a % 2 + k % 2) % 2, XorBits(a / 2, k / 2, n - 1));
      BitTwice(a % 2, k % 2);
      XorBitsTwice(a / 2, k / 2, n - 1);
    }
  }

  predicate Bit(x: nat, k: nat) { if k == 0 then x % 2 == 1 else Bit(x / 2, k - 1) }

  /** A number below 2^n is its lowest n bits. */
  lemma {:induction false} SameBits(a: nat, b: nat, n: nat)
    requires a < TwoTo(n) && b < TwoTo(n) && forall k :: 0 <= k < n ==> Bit(a, k) == Bit(b, k)
    ensures a == b
  {
    if n > 0 {
      assert Bit(a, 0) == Bit(b, 0);
      forall k | 0 <= k < n - 1 ensures Bit(a / 2, k) == Bit(b / 2, k) {
        assert Bit(a, k + 1) == Bit(b, k + 1);
      }
      SameBits(a / 2, b / 2, n - 1);
    }
  }

  lemma {:induction false} XorBit(a: nat, b: nat, n: nat, k: nat)
    requires k < n
    ensures Bit(XorBits(a, b, n), k) <==> Bit(a, k) != Bit(b, k)
  {
    LowBit((a % 2 + b % 2) % 2, XorBits(a / 2, b / 2, n - 1));
    if k > 0 { XorBit(a / 2, b / 2, n - 1, k - 1); }
  }

  /** The bits in which two bytes differ; and a sum that starts over after 255. */
  lemma BytesExactly(a: byte, b: byte, k: nat)
    requires k < 8
    ensures Bit(Xor(a, b), k) <==> Bit(a, k) != Bit(b, k)
    ensures Add(a, b) as int == if a + b < 256 then a as int + b else a as int + b - 256
  {
    Eight();
    XorBit(a, b, 8, k);
    hide XorBits, Bit;
  }

  lemma XorTwice(a: byte, k: byte)
    ensures Xor(Xor(a, k), k) == a
  {
    Eight();
    XorBitsTwice(a, k, 8);
  }

  lemma Eight()
    ensures TwoTo(8) == 256
  {
    assert TwoTo(4) == 16;
  }

  const DISCARD: nat := 1024

  /** The permutation and the two indices. */
  datatype Cipher = Cipher(state: seq<byte>, i: byte, j: byte)

  function Swapped(s: seq<byte>, a: byte, b: byte): (r: seq<byte>)
    requires |s| == 256
    ensures |r| == 256
  {
    s[a := s[b]][b := s[a]]
  }

  /** One turn of the generator. */
  function Turn(c: Cipher): (r: Cipher)
    requires |c.state| == 256
    ensures |r.state| == 256
  {
    var i := Add(c.i, 1);
    var j := Add(c.j, c.state[i]);
    Cipher(Swapped(c.state, i, j), i, j)
  }

  /** The key byte a turn leaves. */
  function KeyByte(c: Cipher): byte
    requires |c.state| == 256
  {
    c.state[Add(c.state[c.i], c.state[c.j])]
  }

  function Advance(c: Cipher, n: nat): (r: Cipher)
    requires |c.state| == 256
    ensures |r.state| == 256
  {
    if n == 0 then c else Turn(Advance(c, n - 1))
  }

  /** The key byte for position `k` from here. */
  function KeyAt(c: Cipher, k: nat): byte
    requires |c.state| == 256
  {
    KeyByte(Advance(c, k + 1))
  }

  /** Encryption and decryption: each byte meets the key byte of its place. */
  function Crypt(c: Cipher, data: seq<byte>): (r: seq<byte>)
    requires |c.state| == 256
    ensures |r| == |data|
  {
    seq(|data|, (k: nat) requires k < |data| => Xor(data[k], KeyAt(c, k)))
  }

  lemma CryptAt(c: Cipher, data: seq<byte>, k: nat)
    requires |c.state| == 256 && k < |data|
    ensures Crypt(c, data)[k] == Xor(data[k], KeyAt(c, k))
  {
    hide Xor, KeyAt;
  }

  // ------------------------------------------------------------------- laws

  lemma {:induction false} AdvanceAdds(c: Cipher, m: nat, n: nat)
    requires |c.state| == 256
    ensures Advance(Advance(c, m), n) == Advance(c, m + n)
  {
    hide Turn;
    if n > 0 { AdvanceAdds(c, m, n - 1); }
  }

  lemma KeyAtShifts(c: Cipher, m: nat, k: nat)
    requires |c.state| == 256
    ensures KeyAt(Advance(c, m), k) == KeyAt(c, m + k)
  {
    hide Advance, KeyByte;
    AdvanceAdds(c, m, k + 1);
  }

  lemma LeftPiece(c: Cipher, a: seq<byte>, b: seq<byte>, k: nat)
    requires |c.state| == 256 && k < |a|
    ensures Crypt(c, a + b)[k] == Crypt(c, a)[k]
  {
    hide *;
    CryptAt(c, a + b, k);
    CryptAt(c, a, k);
  }

  lemma RightPiece(c: Cipher, d: Cipher, a: seq<byte>, b: seq<byte>, k: nat)
    requires |c.state| == |d.state| == 256 && k < |b| && KeyAt(d, k) == KeyAt(c, |a| + k)
    ensures Crypt(c, a + b)[|a| + k] == Crypt(d, b)[k]
  {
    hide *;
    CryptAt(c, a + b, |a| + k);
    CryptAt(d, b, k);
  }

  lemma Glue(whole: seq<byte>, left: seq<byte>, right: seq<byte>)
    requires |whole| == |left| + |right|
    requires forall k :: 0 <= k < |left| ==> whole[k] == left[k]
    requires forall k :: 0 <= k < |right| ==> whole[|left|..][k] == right[k]
    ensures whole == left + right
  {
    assert whole == whole[..|left|] + whole[|left|..];
  }

  lemma TwoPieces(c: Cipher, d: Cipher, a: seq<byte>, b: seq<byte>)
    requires |c.state| == |d.state| == 256
    requires forall k: nat :: k < |b| ==> KeyAt(d, k) == KeyAt(c, |a| + k)
    ensures Crypt(c, a + b) == Crypt(c, a) + Crypt(d, b)
  {
    var whole, left, right := Crypt(c, a + b), Crypt(c, a), Crypt(d, b);
    hide *;
    forall k | 0 <= k < |a| ensures whole[k] == left[k] { LeftPiece(c, a, b, k); }
    forall k | 0 <= k < |b| ensures whole[|a|..][k] == right[k] { RightPiece(c, d, a, b, k); }
    Glue(whole, left, right);
  }

  /** Where the data is cut does not matter. */
  lemma {:induction false} CryptInPieces(c: Cipher, a: seq<byte>, b: seq<byte>)
    requires |c.state| == 256
    ensures Crypt(c, a + b) == Crypt(c, a) + Crypt(Advance(c, |a|), b)
    ensures Advance(Advance(c, |a|), |b|) == Advance(c, |a + b|)
  {
    hide *;
    AdvanceAdds(c, |a|, |b|);
    forall k: nat | k < |b| ensures KeyAt(Advance(c, |a|), k) == KeyAt(c, |a| + k) { KeyAtShifts(c, |a|, k); }
    TwoPieces(c, Advance(c, |a|), a, b);
  }

  /** Decrypting with the state that encrypted gives the data back. */
  lemma CryptTwice(c: Cipher, data: seq<byte>)
    requires |c.state| == 256
    ensures Crypt(c, Crypt(c, data)) == data
  {
    hide *;
    forall k | 0 <= k < |data| ensures Crypt(c, Crypt(c, data))[k] == data[k] {
      CryptAt(c, data, k);
      CryptAt(c, Crypt(c, data), k);
      XorTwice(data[k], KeyAt(c, k));
    }
  }

  function Identity(): (s: seq<byte>)
    ensures |s| == 256 && forall k :: 0 <= k < 256 ==> s[k] == k
  {
    seq(256, (k: nat) requires k < 256 => k)
  }

  /** The state holds every byte exactly once. */
  ghost predicate Permutation(s: seq<byte>) { |s| == 256 && multiset(s) == multiset(Identity()) }

  lemma SwapKeepsPermutation(s: seq<byte>, a: byte, b: byte)
    requires Permutation(s)
    ensures Permutation(Swapped(s, a, b))
  {
    hide Identity;
    assert multiset(Swapped(s, a, b)) == multiset(s);
  }

  lemma TurnPermutes(c: Cipher)
    requires Permutation(c.state)
    ensures Permutation(Turn(c).state)
  {
    hide Identity, Add;
    SwapKeepsPermutation(c.state, Add(c.i, 1), Add(c.j, c.state[Add(c.i, 1)]));
  }

  lemma {:induction false} AlwaysPermutation(c: Cipher, n: nat)
    requires Permutation(c.state)
    ensures |c.state| == 256 && Permutation(Advance(c, n).state)
  {
    assert |c.state| == 256;
    hide Identity, Permutation, Turn;
    if n > 0 {
      AlwaysPermutation(c, n - 1);
      TurnPermutes(Advance(c, n - 1));
    }
  }

  // -------------------------------------------------------- key scheduling

  /** The state and index after `n` swaps of key scheduling. */
  function Schedule(key: seq<byte>, n: nat): (r: (seq<byte>, byte))
    requires key != [] && n <= 256
    ensures |r.0| == 256
  {
    if n == 0 then (Identity(), 0)
    else
      var (s, j) := Schedule(key, n - 1);
      var j' := Add(Add(j, s[n - 1]), key[(n - 1) % |key|]);
      (Swapped(s, n - 1, j'), j')
  }

  function New(key: seq<byte>): (c: Cipher)
    requires key != []
    ensures |c.state| == 256
  {
    Advance(Cipher(Schedule(key, 256).0, 0, 0), DISCARD)
  }

  lemma {:induction false} SchedulePermutes(key: seq<byte>, n: nat)
    requires key != [] && n <= 256
    ensures Permutation(Schedule(key, n).0)
  {
    hide Identity, Permutation;
    if n > 0 {
      SchedulePermutes(key, n - 1);
      var (s, j) := Schedule(key, n - 1);
      SwapKeepsPermutation(s, n - 1, Add(Add(j, s[n - 1]), key[(n - 1) % |key|]));
    } else {
      IdentityPermutes();
    }
  }

  lemma IdentityPermutes()
    ensures Permutation(Identity())
  {
  }

  /** In every state any key can reach, every byte occurs exactly once. */
  lemma NewIsPermutation(key: seq<byte>, n: nat)
    requires key != []
    ensures Permutation(Advance(New(key), n).state)
  {
    hide Permutation, Identity, Schedule, Advance;
    SchedulePermutes(key, 256);
    AlwaysPermutation(Cipher(Schedule(key, 256).0, 0, 0), DISCARD);
    AlwaysPermutation(New(key), n);
  }

  // --------------------------------------------------------- the cipher object

  class Rc4Cipher {
    const state: array<byte>
    var i: byte
    var j: byte

    ghost predicate Valid()
      reads this
    {
      state.Length == 256
    }

    function Abs(): (c: Cipher)
      requires state.Length == 256
      reads this, state
      ensures |c.state| == 256
    {
      Cipher(state[..], i, j)
    }

    constructor (key: seq<byte>)
      requires key != []
      ensures Valid() && fresh(state) && Abs() == New(key)
    {
      var scheduled := ScheduleKey(key);
      state := scheduled;
      i, j := 0, 0;
      new;
      var discard := new byte[DISCARD](_ => 0);
      Process(discard, 0, DISCARD);
    }

    /** A copy in the same state. */
    constructor Clone(other: Rc4Cipher)
      requires other.Valid()
      ensures Valid() && fresh(state) && Abs() == other.Abs()
    {
      var source := other.state[..];
      state := new byte[256](k requires 0 <= k < 256 => source[k]);
      i, j := other.i, other.j;
      new;
      assert state[..] == other.state[..];
    }

    /** Encrypting or decrypting part of a buffer in place. */
    method Process(data: array<byte>, from: nat, to: nat)
      requires Valid() && data != state && from <= to <= data.Length
      modifies this, state, data
      ensures Valid() && Abs() == Advance(old(Abs()), to - from)
      ensures data[from..to] == Crypt(old(Abs()), old(data[from..to]))
      ensures data[..from] == old(data[..from]) && data[to..] == old(data[to..])
    {
      hide Crypt, Xor, Turn, KeyByte, Advance;
      ghost var start, before := Abs(), data[..];
      AdvanceNone(start);
      for k := from to to
        invariant Valid() && Abs() == Advance(start, k - from)
        invariant forall m :: from <= m < k ==> data[m] == Xor(before[m], KeyAt(start, m - from))
        invariant forall m :: 0 <= m < from || k <= m < data.Length ==> data[m] == before[m]
      {
        var key := NextKey();
        OneMore(start, k - from);
        data[k] := Xor(data[k], key);
      }
      forall k | 0 <= k < to - from ensures data[from..to][k] == Crypt(start, before[from..to])[k] {
        CryptAt(start, before[from..to], k);
      }
    }

    /** One turn of the generator. */
    method NextKey() returns (key: byte)
      requires Valid()
      modifies this, state
      ensures Valid() && Abs() == Turn(old(Abs())) && key == KeyByte(Abs())
    {
      i := Add(i, 1);
      j := Add(j, state[i]);
      Exchange(state, i, j);
      key := state[Add(state[i], state[j])];
    }
  }

  lemma ScheduleStart(key: seq<byte>)
    requires key != []
    ensures Schedule(key, 0) == (Identity(), 0)
  {
  }

  lemma ScheduleStep(key: seq<byte>, n: nat)
    requires key != [] && n < 256
    ensures var (s, j) := Schedule(key, n);
      var j' := Add(Add(j, s[n]), key[n % |key|]);
      Schedule(key, n + 1) == (Swapped(s, n, j'), j')
  {
  }

  /** The identity, shuffled by the key. */
  method ScheduleKey(key: seq<byte>) returns (state: array<byte>)
    requires key != []
    ensures fresh(state) && state.Length == 256 && state[..] == Schedule(key, 256).0
  {
    hide Advance, Schedule, Add;
    state := new byte[256](k requires 0 <= k < 256 => k);
    assert state[..] == Identity();
    ScheduleStart(key);
    var j: byte := 0;
    for n := 0 to 256
      invariant state[..] == Schedule(key, n).0 && j == Schedule(key, n).1
    {
      ScheduleStep(key, n);
      j := Add(Add(j, state[n]), key[n % |key|]);
      Exchange(state, n, j);
    }
  }

  method Exchange(s: array<byte>, a: byte, b: byte)
    requires s.Length == 256
    modifies s
    ensures s[..] == Swapped(old(s[..]), a, b)
  {
    s[a], s[b] := s[b], s[a];
  }

  lemma AdvanceNone(c: Cipher)
    requires |c.state| == 256
    ensures Advance(c, 0) == c
  {
  }

  lemma OneMore(c: Cipher, k: nat)
    requires |c.state| == 256
    ensures Advance(c, k + 1) == Turn(Advance(c, k)) && KeyAt(c, k) == KeyByte(Advance(c, k + 1))
  {
  }
}
