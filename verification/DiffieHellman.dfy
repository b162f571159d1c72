/** The key exchange: numbers as 96 big-endian bytes, and a secret both sides
    compute. */
module DiffieHellman {
  import opened Prelude

  const DH_PRIME: seq<byte> := [
    0xFF, 0xFF, 0xFF, 0xFF, 0xFF, 0xFF, 0xFF, 0xFF, 0xC9, 0x0F, 0xDA, 0xA2, 0x21, 0x68, 0xC2, 0x34,
    0xC4, 0xC6, 0x62, 0x8B, 0x80, 0xDC, 0x1C, 0xD1, 0x29, 0x02, 0x4E, 0x08, 0x8A, 0x67, 0xCC, 0x74,
    0x02, 0x0B, 0xBE, 0xA6, 0x3B, 0x13, 0x9B, 0x22, 0x51, 0x4A, 0x08, 0x79, 0x8E, 0x34, 0x04, 0xDD,
    0xEF, 0x95, 0x19, 0xB3, 0xCD, 0x3A, 0x43, 0x1B, 0x30, 0x2B, 0x0A, 0x6D, 0xF2, 0x5F, 0x14, 0x37,
    0x4F, 0xE1, 0x35, 0x6D, 0x6D, 0x51, 0xC2, 0x45, 0xE4, 0x85, 0xB5, 0x76, 0x62, 0x5E, 0x7E, 0xC6,
    0xF4, 0x4C, 0x42, 0xE9, 0xA6, 0x37, 0xED, 0x6B, 0x0B, 0xFF, 0x5C, 0xB6, 0xF4, 0x06, 0xB7, 0xED]

  const GENERATOR: nat := 2
  const SIZE: nat := 96

  // ---------------------------------------------------------------- numbers

  /** The number a string of bytes writes, most significant byte first. */
  function Number(s: seq<byte>): nat {
    if s == [] then 0 else Number(s[..|s| - 1]) * 256 + s[|s| - 1]
  }

  /** The fewest bytes that write a number; zero takes one. */
  function Bytes(n: nat): (s: seq<byte>)
    ensures s != []
  {
    if n < 256 then [n] else Bytes(n / 256) + [n % 256]
  }

  /** A number in 96 bytes, padded on the left. */
  function Padded(n: nat): (s: seq<byte>)
    ensures |s| == SIZE
  {
    var b := Bytes(n);
    var k := Min(|b|, SIZE);
    Zeros(SIZE - k) + b[..k]
  }

  function Power(b: nat, e: nat): nat { if e == 0 then 1 else Power(b, e - 1) * b }

  function ModPow(b: nat, e: nat, m: nat): nat
    requires m > 0
  {
    Power(b, e) % m
  }

  lemma {:induction false} NumberOfBytes(n: nat)
    ensures Number(Bytes(n)) == n
  {
    if n >= 256 {
      NumberOfBytes(n / 256);
      assert Bytes(n)[..|Bytes(n)| - 1] == Bytes(n / 256);
    } else {
      assert [n][..0] == [];
    }
  }

  lemma {:induction false} BytesLength(n: nat, k: nat)
    requires k >= 1 && n < Power(256, k)
    ensures |Bytes(n)| <= k
    decreases k
  {
    if n >= 256 {
      assert Power(256, 0) == 1 && Power(256, 1) == Power(256, 0) * 256;
      assert n / 256 < Power(256, k - 1);
      BytesLength(n / 256, k - 1);
    }
  }

  lemma {:induction false} NumberOfZeros(k: nat, s: seq<byte>)
    ensures Number(Zeros(k) + s) == Number(s)
    decreases |s|, k
  {
    if s == [] {
      assert Zeros(k) + s == Zeros(k);
      if k > 0 {
        assert Zeros(k)[..k - 1] == Zeros(k - 1);
        NumberOfZeros(k - 1, s);
        assert Zeros(k - 1) + s == Zeros(k - 1);
      }
    } else {
      var n := |s| - 1;
      NumberOfZeros(k, s[..n]);
      assert (Zeros(k) + s)[..k + n] == Zeros(k) + s[..n];
    }
  }

  lemma {:induction false} NumberBound(s: seq<byte>)
    ensures Number(s) < Power(256, |s|)
  {
    if s != [] { NumberBound(s[..|s| - 1]); }
  }

  /** A number below the modulus survives the padding. */
  lemma PaddedRoundTrip(n: nat)
    requires n < Power(256, SIZE)
    ensures Number(Padded(n)) == n
  {
    hide Number, Power;
    BytesLength(n, SIZE);
    NumberOfBytes(n);
    assert Bytes(n)[..|Bytes(n)|] == Bytes(n);
    NumberOfZeros(SIZE - |Bytes(n)|, Bytes(n));
  }

  function Prime(): nat { Number(DH_PRIME) }

  lemma PrimeBounds()
    ensures 3 < Prime() < Power(256, SIZE)
  {
    hide Power;
    NumberBound(DH_PRIME);
    hide Number;
    assert |DH_PRIME| == SIZE;
    LastByte(DH_PRIME);
  }

  lemma LastByte(s: seq<byte>)
    requires s != []
    ensures Number(s) >= s[|s| - 1]
  {
  }

  // ------------------------------------------------------ modular arithmetic

  lemma {:induction false} AddMultiple(a: nat, k: nat, m: nat)
    requires m > 0
    ensures (a + k * m) % m == a % m
    decreases k
  {
    if k > 0 {
      AddMultiple(a, k - 1, m);
      assert a + k * m == (a + (k - 1) * m) + m;
      AddOne(a + (k - 1) * m, m);
    }
  }

  lemma AtLeastOnce(d: nat, m: nat)
    requires d >= 1
    ensures d * m >= m
  {
  }

  lemma Distribute(a: int, b: int, m: int)
    ensures (b - a) * m == b * m - a * m
  {
  }

  lemma Quotient(a: int, b: int, m: nat, r: nat, s: nat)
    requires r < m && s < m && a * m + r == b * m + s
    ensures r == s
  {
    Distribute(a, b, m);
    Distribute(b, a, m);
    if a < b { AtLeastOnce(b - a, m); }
    if a > b { AtLeastOnce(a - b, m); }
  }

  lemma AddOne(a: nat, m: nat)
    requires m > 0
    ensures (a + m) % m == a % m
  {
    var q := a / m;
    var q' := (a + m) / m;
    assert (q + 1) * m == q * m + m;
    Quotient(q', q + 1, m, (a + m) % m, a % m);
  }

  lemma MulMod(x: nat, y: nat, m: nat)
    requires m > 0
    ensures ((x % m) * y) % m == (x * y) % m
  {
    var q, r := x / m, x % m;
    assert x == q * m + r;
    Expand(q, m, r, y);
    AddMultiple(r * y, q * y, m);
  }

  lemma Expand(q: nat, m: nat, r: nat, y: nat)
    ensures (q * m + r) * y == r * y + (q * y) * m
  {
    assert (q * m) * y == (q * y) * m;
  }

  lemma {:induction false} PowerMod(x: nat, e: nat, m: nat)
    requires m > 0
    ensures Power(x % m, e) % m == Power(x, e) % m
  {
    if e > 0 {
      PowerMod(x, e - 1, m);
      var a, b := Power(x % m, e - 1), Power(x, e - 1);
      MulMod(a, x % m, m);
      MulMod(b, x % m, m);
      MulMod(x, b, m);
      assert (x % m) * b == b * (x % m) && x * b == b * x;
    }
  }

  lemma {:induction false} PowerAdd(b: nat, m: nat, n: nat)
    ensures Power(b, m + n) == Power(b, m) * Power(b, n)
  {
    if n > 0 {
      PowerAdd(b, m, n - 1);
      assert (Power(b, m) * Power(b, n - 1)) * b == Power(b, m) * (Power(b, n - 1) * b);
    }
  }

  lemma {:induction false} PowerPower(b: nat, m: nat, n: nat)
    ensures Power(Power(b, m), n) == Power(b, m * n)
  {
    if n > 0 {
      PowerPower(b, m, n - 1);
      assert m * n == m * (n - 1) + m;
      PowerAdd(b, m * (n - 1), m);
    }
  }

  // ------------------------------------------------------------ the exchange

  datatype KeyPair = KeyPair(secret: nat, public: seq<byte>)

  function Generate(secret: nat): KeyPair {
    PrimeBounds();
    KeyPair(secret, Padded(ModPow(GENERATOR, secret, Prime())))
  }

  function SharedSecret(keys: KeyPair, peer: seq<byte>): (s: seq<byte>)
    ensures |s| == SIZE
  {
    PrimeBounds();
    Padded(ModPow(Number(peer), keys.secret, Prime()))
  }

  lemma PublicNumber(a: nat)
    ensures Number(Generate(a).public) == Power(GENERATOR, a) % Prime()
  {
    hide Power, Number, Padded;
    PrimeBounds();
    PaddedRoundTrip(ModPow(GENERATOR, a, Prime()));
  }

  /** The secret is the peer's number raised to one's own: of the other side's
      public number, the generator raised to both. */
  lemma SecretExactly(keys: KeyPair, peer: seq<byte>, a: nat, b: nat)
    ensures Number(SharedSecret(keys, peer)) == Power(Number(peer), keys.secret) % Prime()
    ensures Number(SharedSecret(Generate(a), Generate(b).public)) == Power(2, a * b) % Prime()
  {
    hide Power, Number, Padded;
    PrimeBounds();
    PaddedRoundTrip(ModPow(Number(peer), keys.secret, Prime()));
    PublicNumber(b);
    PaddedRoundTrip(ModPow(Number(Generate(b).public), a, Prime()));
    PowerMod(Power(GENERATOR, b), a, Prime());
    PowerPower(GENERATOR, b, a);
    assert b * a == a * b;
  }

  /** Both sides compute the same secret. */
  lemma SecretsAgree(a: nat, b: nat)
    ensures SharedSecret(Generate(a), Generate(b).public) == SharedSecret(Generate(b), Generate(a).public)
  {
    hide Power, Number, Padded;
    PrimeBounds();
    PublicNumber(a);
    PublicNumber(b);
    PowerMod(Power(GENERATOR, b), a, Prime());
    PowerMod(Power(GENERATOR, a), b, Prime());
    PowerPower(GENERATOR, a, b);
    PowerPower(GENERATOR, b, a);
    assert a * b == b * a;
  }

  /** Peer values that are refused: 0, 1, p - 1 and anything outside the group. */
  function IsDegenerate(peer: seq<byte>): bool {
    var y := Number(peer);
    y <= 1 || y >= Prime() - 1
  }

  /** What is accepted lies strictly between 1 and p - 1. */
  lemma AcceptedExactly(peer: seq<byte>)
    ensures Prime() > 3
    ensures !IsDegenerate(peer) <==> 2 <= Number(peer) <= Prime() - 2
  {
    PrimeBounds();
    hide Prime, Number;
  }

  /** Why they are refused: whatever the key, 0, 1 and p - 1 leave one of three
      secrets. */
  lemma {:induction false} DegenerateIsTrivial(y: nat, e: nat)
    requires y == 0 || y == 1 || y == Prime() - 1
    ensures Prime() > 3 && ModPow(y, e, Prime()) in {0, 1, Prime() - 1}
  {
    hide Number;
    PrimeBounds();
    hide Prime;
    if e > 0 {
      DegenerateIsTrivial(y, e - 1);
      var p := Prime();
      MulMod(Power(y, e - 1), y, p);
      TrivialProduct(Power(y, e - 1) % p, y, p);
    } else {
      One(Prime());
    }
  }

  lemma One(p: nat)
    requires p > 3
    ensures 1 % p == 1
  {
  }

  lemma TrivialProduct(r: nat, y: nat, p: nat)
    requires p > 3 && r in {0, 1, p - 1} && y in {0, 1, p - 1}
    ensures (r * y) % p in {0, 1, p - 1}
  {
    if r == p - 1 && y == p - 1 {
      Square(p);
    } else if r == 1 {
      assert r * y == y;
    } else if y == 1 {
      assert r * y == r;
    } else {
      assert r * y == 0;
    }
  }

  lemma Square(p: nat)
    requires p > 3
    ensures ((p - 1) * (p - 1)) % p == 1
  {
    assert (p - 1) * (p - 1) == 1 + (p - 2) * p;
    AddMultiple(1, p - 2, p);
  }
}
