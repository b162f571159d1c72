/** The encrypted handshake, as its initiator performs it, against a responder
    that follows the protocol, and the stream both use afterwards. The hash is
    any function to 20 bytes; timeouts are the end of the stream. */
module Mse {
  import opened Prelude
  import opened Rc4
  import opened DiffieHellman

  type Hash = seq<byte> -> seq<byte>

  ghost predicate IsHash(h: Hash) { forall s :: |h(s)| == 20 }

  const VC: seq<byte> := [0, 0, 0, 0, 0, 0, 0, 0]
  const KEY_A: seq<byte> := [107, 101, 121, 65]
  const KEY_B: seq<byte> := [107, 101, 121, 66]
  const REQ_1: seq<byte> := [114, 101, 113, 49]
  const REQ_2: seq<byte> := [114, 101, 113, 50]
  const REQ_3: seq<byte> := [114, 101, 113, 51]
  const CRYPTO_RC4: nat := 2
  const MAX_PADB: nat := 512

  // ------------------------------------------------------------ the ciphers

  datatype Keys = Keys(encrypt: Cipher, decrypt: Cipher)

  /** What one side starts with: the sides hold the same ciphers, crossed over. */
  function DeriveKeys(h: Hash, secret: seq<byte>, infoHash: seq<byte>, initiator: bool): (k: Keys)
    requires IsHash(h)
    ensures |k.encrypt.state| == 256 && |k.decrypt.state| == 256
  {
    var a := New(h(KEY_A + secret + infoHash));
    var b := New(h(KEY_B + secret + infoHash));
    if initiator then Keys(a, b) else Keys(b, a)
  }

  // ------------------------------------------------------------- the fields

  /** `n` in `k` big-endian bytes. */
  function Field(n: nat, k: nat): (s: seq<byte>)
    ensures |s| == k
  {
    if k == 0 then [] else Field(n / 256, k - 1) + [n % 256]
  }

  lemma {:induction false} FieldReads(n: nat, k: nat)
    requires n < Power(256, k)
    ensures Number(Field(n, k)) == n
  {
    if k > 0 {
      FieldReads(n / 256, k - 1);
      assert Field(n, k)[..k - 1] == Field(n / 256, k - 1);
    }
  }

  lemma Widths()
    ensures Power(256, 2) == 0x1_0000 && Power(256, 4) == 0x1_0000_0000
  {
    assert Power(256, 1) == 256;
    assert Power(256, 3) == 0x100_0000;
  }

  /** What follows the hashes in the initiator's second message. */
  function Offer(provide: nat, padC: seq<byte>): (s: seq<byte>)
    ensures |s| == 16 + |padC|
  {
    VC + Field(provide, 4) + Field(|padC|, 2) + padC + Field(0, 2)
  }

  /** What follows the responder's padding. */
  function Answer(select: nat, padD: seq<byte>): (s: seq<byte>)
    ensures |s| == 14 + |padD|
  {
    VC + Field(select, 4) + Field(|padD|, 2) + padD
  }

  function XorAll(a: seq<byte>, b: seq<byte>): (s: seq<byte>)
    requires |a| == |b|
    ensures |s| == |a|
  {
    seq(|a|, (k: nat) requires k < |a| => Xor(a[k], b[k]))
  }

  /** The bits in which the two differ, byte by byte; so either gives back the other. */
  lemma XorAllExactly(a: seq<byte>, b: seq<byte>)
    requires |a| == |b|
    ensures forall k, i :: 0 <= k < |a| && 0 <= i < 8 ==> (Bit(XorAll(a, b)[k], i) <==> Bit(a[k], i) != Bit(b[k], i))
    ensures XorAll(XorAll(a, b), b) == a
  {
    hide Xor;
    forall k, i | 0 <= k < |a| && 0 <= i < 8 ensures Bit(XorAll(a, b)[k], i) <==> Bit(a[k], i) != Bit(b[k], i) {
      BytesExactly(a[k], b[k], i);
    }
    forall k | 0 <= k < |a| ensures XorAll(XorAll(a, b), b)[k] == a[k] { XorTwice(a[k], b[k]); }
  }

  /** The initiator's second message. */
  function Request(h: Hash, secret: seq<byte>, infoHash: seq<byte>, provide: nat, padC: seq<byte>): seq<byte>
    requires IsHash(h)
  {
    h(REQ_1 + secret) + XorAll(h(REQ_2 + infoHash), h(REQ_3 + secret))
      + Crypt(DeriveKeys(h, secret, infoHash, true).encrypt, Offer(provide, padC))
  }

  /** What a responder reads of the encrypted part. */
  datatype Offered = Offered(provide: nat, padC: seq<byte>, cipher: Cipher)

  /** A responder of the protocol: it decrypts the fields in turn and checks the
      verification constant. */
  function ReadOffer(c: Cipher, wire: seq<byte>): Option<Offered>
    requires |c.state| == 256
  {
    if |wire| < 14 then None
    else
      var head := Crypt(c, wire[..14]);
      var n := Number(head[12..14]);
      if head[..8] != VC || |wire| < 16 + n then None
      else Some(Offered(Number(head[8..12]), Crypt(Advance(c, 14), wire[14..14 + n]), Advance(c, 16 + n)))
  }

  // -------------------------------------------------- reading the response

  predicate MatchAt(stream: seq<byte>, pattern: seq<byte>, k: nat) {
    k + |pattern| <= |stream| && stream[k..k + |pattern|] == pattern
  }

  /** Where the pattern is first found, among the offsets that are looked at. */
  function Scan(stream: seq<byte>, pattern: seq<byte>, k: nat): (r: Option<nat>)
    ensures r.Some? ==> k <= r.value <= MAX_PADB + 1 && MatchAt(stream, pattern, r.value)
    ensures r.Some? ==> forall m :: k <= m < r.value ==> !MatchAt(stream, pattern, m)
    ensures r.None? ==> forall m :: k <= m <= MAX_PADB + 1 ==> !MatchAt(stream, pattern, m)
    decreases MAX_PADB + 2 - k
  {
    if k > MAX_PADB + 1 then None
    else if MatchAt(stream, pattern, k) then Some(k)
    else Scan(stream, pattern, k + 1)
  }

  datatype Selected = Selected(select: nat, cipher: Cipher, used: nat)

  function ReadSelect(c: Cipher, rest: seq<byte>): Option<Selected>
    requires |c.state| == 256
  {
    if |rest| < 6 then None
    else
      var head := Crypt(c, rest[..6]);
      var n := Number(head[4..6]);
      if |rest| < 6 + n then None else Some(Selected(Number(head[..4]), Advance(c, 6 + n), 6 + n))
  }

  function Receive(c: Cipher, stream: seq<byte>): (r: Option<Selected>)
    requires |c.state| == 256
    ensures r.Some? ==> r.value.used <= |stream|
  {
    match Scan(stream, Crypt(c, VC), 0)
    case None => None
    case Some(k) =>
      match ReadSelect(Advance(c, 8), stream[k + 8..])
      case None => None
      case Some(s) => Some(Selected(s.select, s.cipher, k + 8 + s.used))
  }

  /** Looking for the marker byte by byte, in a window of its length, so that
      nothing past it is consumed. */
  method FindMarker(stream: seq<byte>, expected: seq<byte>) returns (found: Option<nat>, used: nat)
    requires |expected| == 8
    ensures found == Scan(stream, expected, 0)
    ensures found.Some? ==> used == found.value + 8
  {
    hide Scan, MatchAt;
    var window: seq<byte> := [];
    var skipped := 0;
    used := 0;
    while true
      invariant used <= |stream| && |window| <= 8 && skipped <= MAX_PADB + 1
      invariant used == skipped + |window| && window == stream[skipped..used]
      invariant |window| < 8 ==> skipped == 0
      invariant Scan(stream, expected, 0) == Scan(stream, expected, skipped)
      decreases |stream| - used
    {
      if |window| == 8 { ScanStep(stream, expected, skipped); }
      if |window| == 8 && window == expected { return Some(skipped), used; }
      if skipped > MAX_PADB { return None, used; }
      if used == |stream| {
        if |window| < 8 { TooFew(stream, expected, skipped); }
        TooShort(stream, expected, skipped);
        return None, used;
      }
      var b := stream[used];
      WindowMoves(stream, skipped, used);
      used := used + 1;
      if |window| == 8 {
        window := window[1..];
        skipped := skipped + 1;
      }
      window := window + [b];
    }
  }

  lemma WindowMoves(stream: seq<byte>, from: nat, to: nat)
    requires from <= to < |stream|
    ensures stream[from..to] + [stream[to]] == stream[from..to + 1]
    ensures from < to ==> stream[from..to][1..] + [stream[to]] == stream[from + 1..to + 1]
  {
  }

  /** Looking at one offset. */
  lemma ScanStep(stream: seq<byte>, expected: seq<byte>, k: nat)
    requires |expected| == 8 && k + 8 <= |stream| && k <= MAX_PADB + 1
    ensures stream[k..k + 8] == expected ==> Scan(stream, expected, k) == Some(k)
    ensures stream[k..k + 8] != expected ==>
      !MatchAt(stream, expected, k) && Scan(stream, expected, k) == Scan(stream, expected, k + 1)
    ensures stream[k..k + 8] != expected && k == MAX_PADB + 1 ==> Scan(stream, expected, k).None?
  {
  }

  lemma TooFew(stream: seq<byte>, expected: seq<byte>, k: nat)
    requires |expected| == 8 && k + 8 > |stream|
    ensures !MatchAt(stream, expected, k)
  {
  }

  lemma {:induction false} TooShort(stream: seq<byte>, expected: seq<byte>, k: nat)
    requires |expected| == 8 && k + 8 >= |stream| && !MatchAt(stream, expected, k)
    ensures Scan(stream, expected, k).None?
    decreases MAX_PADB + 2 - k
  {
    if k <= MAX_PADB + 1 { TooShort(stream, expected, k + 1); }
  }

  /** A copy of some bytes, decrypted. */
  method Decrypted(cipher: Rc4Cipher, s: seq<byte>) returns (plain: seq<byte>)
    requires cipher.Valid()
    modifies cipher, cipher.state
    ensures cipher.Valid() && cipher.Abs() == Advance(old(cipher.Abs()), |s|)
    ensures plain == Crypt(old(cipher.Abs()), s)
  {
    hide Crypt, Advance;
    var buf := new byte[|s|](k requires 0 <= k < |s| => s[k]);
    assert buf[0..|s|] == s;
    cipher.Process(buf, 0, |s|);
    plain := buf[0..|s|];
  }

  /** Skipping the padding, then reading the selected method. */
  method ReceiveCryptoResponse(stream: seq<byte>, decrypt: Rc4Cipher) returns (select: Option<nat>, used: nat)
    requires decrypt.Valid()
    modifies decrypt, decrypt.state
    ensures decrypt.Valid()
    ensures select.Some? <==> Receive(old(decrypt.Abs()), stream).Some?
    ensures select.Some? ==> Receive(old(decrypt.Abs()), stream) == Some(Selected(select.value, decrypt.Abs(), used))
  {
    hide Crypt, Advance, Number, Scan;
    ghost var c := decrypt.Abs();
    var probe := new Rc4Cipher.Clone(decrypt);
    var expected := Decrypted(probe, VC);
    var found;
    found, used := FindMarker(stream, expected);
    if found.None? { return None, used; }

    var marker := Decrypted(decrypt, expected);
    if |stream| < used + 6 { return None, used; }
    var rest := stream[used..];
    var buf := Decrypted(decrypt, rest[..6]);
    used := used + 6;
    var cryptoSelect := Number(buf[..4]);
    var length := Number(buf[4..6]);
    if |stream| < used + length { return None, used; }
    var padding := Decrypted(decrypt, rest[6..6 + length]);
    AdvanceAdds(Advance(c, 8), 6, length);
    used := used + length;
    select := Some(cryptoSelect);
  }

  // ------------------------------------------------------------ in sync

  /** The responder's second message. */
  function Response(c: Cipher, padB: seq<byte>, select: nat, padD: seq<byte>): seq<byte>
    requires |c.state| == 256
  {
    padB + Crypt(c, Answer(select, padD))
  }

  /** No copy of the marker begins before the responder's own. */
  ghost predicate NoEarlierMarker(stream: seq<byte>, marker: seq<byte>, at: nat) {
    forall m :: 0 <= m < at ==> !MatchAt(stream, marker, m)
  }

  lemma AnswerParts(c: Cipher, select: nat, padD: seq<byte>)
    requires |c.state| == 256
    ensures Crypt(c, Answer(select, padD)) ==
      Crypt(c, VC) + (Crypt(Advance(c, 8), Field(select, 4) + Field(|padD|, 2)) + Crypt(Advance(c, 14), padD))
  {
    hide Crypt, Advance, Field;
    var fields := Field(select, 4) + Field(|padD|, 2);
    assert Answer(select, padD) == VC + (fields + padD);
    CryptInPieces(c, VC, fields + padD);
    CryptInPieces(Advance(c, 8), fields, padD);
    AdvanceAdds(c, 8, 6);
  }

  /** An answer is read back whole, whatever follows it. */
  lemma AnswerReads(c: Cipher, select: nat, padD: seq<byte>, later: seq<byte>)
    requires |c.state| == 256 && select < Power(256, 4) && |padD| < Power(256, 2)
    ensures ReadSelect(Advance(c, 8), Crypt(Advance(c, 8), Field(select, 4) + Field(|padD|, 2)) + Crypt(Advance(c, 14), padD) + later)
         == Some(Selected(select, Advance(c, 14 + |padD|), 6 + |padD|))
  {
    hide Crypt, Advance, Field, Number, Power;
    var d := Advance(c, 8);
    var fields := Field(select, 4) + Field(|padD|, 2);
    var rest := Crypt(d, fields) + Crypt(Advance(c, 14), padD) + later;
    assert rest[..6] == Crypt(d, fields);
    CryptTwice(d, fields);
    assert fields[..4] == Field(select, 4) && fields[4..6] == Field(|padD|, 2);
    FieldReads(select, 4);
    FieldReads(|padD|, 2);
    AdvanceAdds(c, 8, 6 + |padD|);
  }

  /** With at most 512 (indeed 513) bytes of padding before it and no earlier
      copy of the marker, an answer is found and read, and both sides' ciphers
      for this direction end in the same state. */
  lemma ResponseInSync(c: Cipher, padB: seq<byte>, select: nat, padD: seq<byte>, later: seq<byte>)
    requires |c.state| == 256 && select < Power(256, 4) && |padD| < Power(256, 2) && |padB| <= MAX_PADB + 1
    requires NoEarlierMarker(Response(c, padB, select, padD) + later, Crypt(c, VC), |padB|)
    ensures Receive(c, Response(c, padB, select, padD) + later)
         == Some(Selected(select, Advance(c, |Answer(select, padD)|), |padB| + 14 + |padD|))
  {
    hide Crypt, Advance, Field, Number, Power, ReadSelect, Answer, Receive, Scan;
    var stream := Response(c, padB, select, padD) + later;
    var body := Crypt(Advance(c, 8), Field(select, 4) + Field(|padD|, 2)) + Crypt(Advance(c, 14), padD);
    AnswerParts(c, select, padD);
    Layers(padB, Crypt(c, VC), body, later);
    assert MatchAt(stream, Crypt(c, VC), |padB|);
    AnswerReads(c, select, padD, later);
    ReceiveAt(c, stream, |padB|);
  }

  lemma ReceiveAt(c: Cipher, stream: seq<byte>, k: nat)
    requires |c.state| == 256 && k <= MAX_PADB + 1 && MatchAt(stream, Crypt(c, VC), k)
    requires NoEarlierMarker(stream, Crypt(c, VC), k)
    requires ReadSelect(Advance(c, 8), stream[k + 8..]).Some?
    ensures var s := ReadSelect(Advance(c, 8), stream[k + 8..]).value;
      Receive(c, stream) == Some(Selected(s.select, s.cipher, k + 8 + s.used))
  {
    hide Crypt, Advance, ReadSelect, MatchAt;
  }

  lemma Layers(a: seq<byte>, b: seq<byte>, c: seq<byte>, d: seq<byte>)
    ensures var s := a + (b + c) + d;
      s[|a|..|a| + |b|] == b && s[|a| + |b|..] == c + d && |a| + |b| <= |s|
  {
    var s := a + (b + c) + d;
    assert s == a + b + (c + d);
  }

  /** If the padding is longer, or a copy of the marker comes earlier, the
      responder's marker is not the one that is used. */
  lemma ElsewhereOtherwise(c: Cipher, stream: seq<byte>, at: nat)
    requires |c.state| == 256
    requires at > MAX_PADB + 1 || !NoEarlierMarker(stream, Crypt(c, VC), at)
    ensures Scan(stream, Crypt(c, VC), 0) != Some(at)
  {
    hide Crypt, Scan;
  }

  lemma OfferHead(c: Cipher, provide: nat, padC: seq<byte>)
    requires |c.state| == 256 && provide < Power(256, 4) && |padC| < Power(256, 2)
    ensures var wire := Crypt(c, Offer(provide, padC)); var head := Crypt(c, wire[..14]);
      |wire| == 16 + |padC| && head[..8] == VC && Number(head[8..12]) == provide && Number(head[12..14]) == |padC|
    ensures Crypt(Advance(c, 14), Crypt(c, Offer(provide, padC))[14..14 + |padC|]) == padC
  {
    hide Crypt, Advance, Field, Number, Power;
    var head, tail := VC + Field(provide, 4) + Field(|padC|, 2), Field(0, 2);
    assert Offer(provide, padC) == head + (padC + tail);
    CryptInPieces(c, head, padC + tail);
    CryptInPieces(Advance(c, 14), padC, tail);
    CryptTwice(c, head);
    CryptTwice(Advance(c, 14), padC);
    var wire := Crypt(c, Offer(provide, padC));
    assert wire[..14] == Crypt(c, head);
    assert wire[14..14 + |padC|] == Crypt(Advance(c, 14), padC);
    assert head[..8] == VC && head[8..12] == Field(provide, 4) && head[12..14] == Field(|padC|, 2);
    FieldReads(provide, 4);
    FieldReads(|padC|, 2);
  }

  /** The responder reads what was offered, and both sides' ciphers for this
      direction end in the same state. */
  lemma OfferInSync(c: Cipher, provide: nat, padC: seq<byte>)
    requires |c.state| == 256 && provide < Power(256, 4) && |padC| < Power(256, 2)
    ensures ReadOffer(c, Crypt(c, Offer(provide, padC)))
         == Some(Offered(provide, padC, Advance(c, |Offer(provide, padC)|)))
  {
    hide Crypt, Advance, Offer, Number, Power;
    OfferHead(c, provide, padC);
  }

  /** The ciphers of the exchange. Each side makes its keys from its own private
      number and the other's public bytes. For every padding within bounds and no
      earlier copy of the marker, the responder reads the initiator's offer, the
      initiator reads the responder's choice, and both pairs of ciphers are left
      in equal states, whatever is sent afterwards. */
  lemma HandshakeInSync(
      h: Hash, infoHash: seq<byte>, a: nat, b: nat, provide: nat, padC: seq<byte>,
      padB: seq<byte>, select: nat, padD: seq<byte>, later: seq<byte>)
    requires IsHash(h)
    requires provide < 0x1_0000_0000 && select < 0x1_0000_0000 && |padC| < 0x1_0000 && |padD| < 0x1_0000
    requires |padB| <= MAX_PADB
    requires var r := DeriveKeys(h, SharedSecret(Generate(b), Generate(a).public), infoHash, false);
      NoEarlierMarker(Response(r.encrypt, padB, select, padD) + later, Crypt(r.encrypt, VC), |padB|)
    ensures var i := DeriveKeys(h, SharedSecret(Generate(a), Generate(b).public), infoHash, true);
      var r := DeriveKeys(h, SharedSecret(Generate(b), Generate(a).public), infoHash, false);
      var offer := Crypt(i.encrypt, Offer(provide, padC));
      && ReadOffer(r.decrypt, offer) == Some(Offered(provide, padC, Advance(i.encrypt, |Offer(provide, padC)|)))
      && Receive(i.decrypt, Response(r.encrypt, padB, select, padD) + later)
         == Some(Selected(select, Advance(r.encrypt, |Answer(select, padD)|), |padB| + 14 + |padD|))
  {
    hide Crypt, Advance, Power, Receive, ReadOffer, Response, SharedSecret, Generate, New;
    SecretsAgree(a, b);
    Widths();
    var i := DeriveKeys(h, SharedSecret(Generate(a), Generate(b).public), infoHash, true);
    var r := DeriveKeys(h, SharedSecret(Generate(b), Generate(a).public), infoHash, false);
    assert i.encrypt == r.decrypt && i.decrypt == r.encrypt;
    OfferInSync(i.encrypt, provide, padC);
    ResponseInSync(r.encrypt, padB, select, padD, later);
  }

  // -------------------------------------------------------------- afterwards

  /** What is on the wire after a series of writes, or what is had from a series
      of reads: each piece in turn, the cipher going on. */
  function CryptEach(c: Cipher, chunks: seq<seq<byte>>): seq<byte>
    requires |c.state| == 256
  {
    if chunks == [] then []
    else
      var front := chunks[..|chunks| - 1];
      CryptEach(c, front) + Crypt(Advance(c, |Concat(front)|), chunks[|chunks| - 1])
  }

  lemma {:induction false} CryptEachIsCrypt(c: Cipher, chunks: seq<seq<byte>>)
    requires |c.state| == 256
    ensures CryptEach(c, chunks) == Crypt(c, Concat(chunks))
  {
    hide Crypt, Advance;
    if chunks == [] {
      assert |Crypt(c, [])| == 0;
    } else {
      var front := chunks[..|chunks| - 1];
      CryptEachIsCrypt(c, front);
      CryptInPieces(c, Concat(front), chunks[|chunks| - 1]);
    }
  }

  /** From equal states, what is written in any pieces is what is read, whatever
      pieces it arrives in. */
  lemma TrafficDecrypts(c: Cipher, written: seq<seq<byte>>, arrived: seq<seq<byte>>)
    requires |c.state| == 256 && Concat(arrived) == CryptEach(c, written)
    ensures CryptEach(c, arrived) == Concat(written)
  {
    hide Crypt, Advance;
    CryptEachIsCrypt(c, written);
    CryptEachIsCrypt(c, arrived);
    CryptTwice(c, Concat(written));
  }

  /** The stream after the handshake. `wire` is what has been sent and `incoming`
      what has arrived and not been read. Only the RC4 method encrypts. */
  class EncryptedStream {
    const encryptCipher: Rc4Cipher
    const decryptCipher: Rc4Cipher
    const cryptoMethod: nat
    var wire: seq<byte>
    var incoming: seq<byte>

    ghost predicate Valid()
      reads this, encryptCipher, decryptCipher
    {
      && encryptCipher.Valid() && decryptCipher.Valid()
      && encryptCipher != decryptCipher && encryptCipher.state != decryptCipher.state
    }

    constructor (encrypt: Rc4Cipher, decrypt: Rc4Cipher, cryptoMethod: nat, incoming: seq<byte>)
      requires encrypt.Valid() && decrypt.Valid() && encrypt != decrypt && encrypt.state != decrypt.state
      ensures Valid() && encryptCipher == encrypt && decryptCipher == decrypt && this.cryptoMethod == cryptoMethod
      ensures wire == [] && this.incoming == incoming
    {
      encryptCipher, decryptCipher, this.cryptoMethod := encrypt, decrypt, cryptoMethod;
      wire, this.incoming := [], incoming;
    }

    method WriteAll(buf: seq<byte>)
      requires Valid()
      modifies this`wire, encryptCipher, encryptCipher.state
      ensures Valid()
      ensures cryptoMethod == CRYPTO_RC4 ==>
        wire == old(wire) + Crypt(old(encryptCipher.Abs()), buf) && encryptCipher.Abs() == Advance(old(encryptCipher.Abs()), |buf|)
      ensures cryptoMethod != CRYPTO_RC4 ==> wire == old(wire) + buf && encryptCipher.Abs() == old(encryptCipher.Abs())
      ensures decryptCipher.Abs() == old(decryptCipher.Abs())
    {
      if cryptoMethod == CRYPTO_RC4 {
        var encrypted := Decrypted(encryptCipher, buf);
        wire := wire + encrypted;
      } else {
        wire := wire + buf;
      }
    }

    /** Reading some of what has arrived into a buffer. */
    method Read(buf: array<byte>) returns (n: nat)
      requires Valid() && buf != encryptCipher.state && buf != decryptCipher.state
      modifies this`incoming, decryptCipher, decryptCipher.state, buf
      ensures Valid() && n <= buf.Length && n <= |old(incoming)| && incoming == old(incoming)[n..]
      ensures cryptoMethod == CRYPTO_RC4 ==>
        buf[..n] == Crypt(old(decryptCipher.Abs()), old(incoming)[..n]) && decryptCipher.Abs() == Advance(old(decryptCipher.Abs()), n)
      ensures cryptoMethod != CRYPTO_RC4 ==> buf[..n] == old(incoming)[..n] && decryptCipher.Abs() == old(decryptCipher.Abs())
      ensures buf[n..] == old(buf[n..])
      ensures encryptCipher.Abs() == old(encryptCipher.Abs())
    {
      hide Crypt, Advance;
      n :| n <= buf.Length && n <= |incoming|;
      ghost var arrived := incoming[..n];
      forall k | 0 <= k < n { buf[k] := incoming[k]; }
      assert buf[0..n] == arrived;
      incoming := incoming[n..];
      if n > 0 && cryptoMethod == CRYPTO_RC4 {
        decryptCipher.Process(buf, 0, n);
      } else if n == 0 {
        AdvanceNone(decryptCipher.Abs());
      }
      assert buf[..n] == buf[0..n];
    }
  }

  // ------------------------------------------------- both sides, end to end

  /** What a side holds once the handshake is done; `incoming` is what it has
      received beyond it. */
  datatype Side = Side(encrypt: Cipher, decrypt: Cipher, select: nat, incoming: seq<byte>)

  datatype Initiated = Initiated(sent: seq<byte>, side: Option<Side>)

  /** What the initiator sends and ends with, given the peer's public value and
      what follows it. */
  function Outgoing(h: Hash, infoHash: seq<byte>, a: nat, padA: seq<byte>, provide: nat, padC: seq<byte>,
                    yb: seq<byte>, stream: seq<byte>): (r: Initiated)
    requires IsHash(h)
    ensures r.side.Some? ==> |r.side.value.encrypt.state| == |r.side.value.decrypt.state| == 256
  {
    var first := Generate(a).public + padA;
    if IsDegenerate(yb) then Initiated(first, None)
    else
      var secret := SharedSecret(Generate(a), yb);
      var keys := DeriveKeys(h, secret, infoHash, true);
      var s := Receive(keys.decrypt, stream);
      Initiated(first + Request(h, secret, infoHash, provide, padC),
                if s.None? then None
                else Some(Side(Advance(keys.encrypt, |Offer(provide, padC)|), s.value.cipher, s.value.select, stream[s.value.used..])))
  }

  datatype Responded = Responded(offered: Offered, answer: seq<byte>, side: Side)

  /** A responder of the protocol: it reads the initiator's public value, finds
      the hash of the secret after the padding, checks the hashes, reads the
      offer and answers. */
  function Respond(h: Hash, infoHash: seq<byte>, b: nat, padB: seq<byte>, select: nat, padD: seq<byte>,
                   wire: seq<byte>): (r: Option<Responded>)
    requires IsHash(h)
    ensures r.Some? ==> |r.value.side.encrypt.state| == |r.value.side.decrypt.state| == 256
  {
    if |wire| < SIZE then None
    else
      var secret := SharedSecret(Generate(b), wire[..SIZE]);
      match Scan(wire[SIZE..], h(REQ_1 + secret), 0)
      case None => None
      case Some(k) =>
        var rest := wire[SIZE..][k + 20..];
        if |rest| < 20 || rest[..20] != XorAll(h(REQ_2 + infoHash), h(REQ_3 + secret)) then None
        else
          var keys := DeriveKeys(h, secret, infoHash, false);
          match ReadOffer(keys.decrypt, rest[20..])
          case None => None
          case Some(o) =>
            Some(Responded(o, Response(keys.encrypt, padB, select, padD),
                           Side(Advance(keys.encrypt, |Answer(select, padD)|), o.cipher, select, rest[20..][16 + |o.padC|..])))
  }

  /** What a responder has checked of whatever it answers: the hash of the secret
      among the offsets looked at, after it the hashes for this very torrent, and
      then the verification constant under the initiator's cipher. */
  lemma RespondsOnlyTo(h: Hash, infoHash: seq<byte>, b: nat, padB: seq<byte>, select: nat, padD: seq<byte>,
                       wire: seq<byte>) returns (k: nat)
    requires IsHash(h) && Respond(h, infoHash, b, padB, select, padD, wire).Some?
    ensures k <= MAX_PADB + 1 && |wire| >= SIZE + k + 54
    ensures var secret := SharedSecret(Generate(b), wire[..SIZE]);
      && wire[SIZE + k..SIZE + k + 20] == h(REQ_1 + secret)
      && wire[SIZE + k + 20..SIZE + k + 40] == XorAll(h(REQ_2 + infoHash), h(REQ_3 + secret))
      && Crypt(DeriveKeys(h, secret, infoHash, false).decrypt, wire[SIZE + k + 40..SIZE + k + 54])[..8] == VC
  {
    hide Crypt, DeriveKeys, SharedSecret, Generate, XorAll, Scan;
    k := RespondChecked(h, infoHash, b, padB, select, padD, wire);
    SlicesOf(wire, k, h(REQ_1 + SharedSecret(Generate(b), wire[..SIZE])));
  }

  lemma RespondChecked(h: Hash, infoHash: seq<byte>, b: nat, padB: seq<byte>, select: nat, padD: seq<byte>,
                       wire: seq<byte>) returns (k: nat)
    requires IsHash(h) && Respond(h, infoHash, b, padB, select, padD, wire).Some?
    ensures k <= MAX_PADB + 1 && |wire| >= SIZE
    ensures var secret := SharedSecret(Generate(b), wire[..SIZE]);
      && MatchAt(wire[SIZE..], h(REQ_1 + secret), k) && |wire[SIZE..]| >= k + 54
      && wire[SIZE..][k + 20..][..20] == XorAll(h(REQ_2 + infoHash), h(REQ_3 + secret))
      && Crypt(DeriveKeys(h, secret, infoHash, false).decrypt, wire[SIZE..][k + 20..][20..][..14])[..8] == VC
  {
    var secret := SharedSecret(Generate(b), wire[..SIZE]);
    k := Scan(wire[SIZE..], h(REQ_1 + secret), 0).value;
    hide Crypt, SharedSecret, Generate, XorAll, Advance, ReadOffer, Response, Answer, Scan;
    OfferChecked(DeriveKeys(h, secret, infoHash, false).decrypt, wire[SIZE..][k + 20..][20..]);
    hide DeriveKeys;
  }

  lemma SlicesOf(wire: seq<byte>, k: nat, mark: seq<byte>)
    requires |wire| >= SIZE + k + 54 && |mark| == 20 && MatchAt(wire[SIZE..], mark, k)
    ensures wire[SIZE + k..SIZE + k + 20] == mark
    ensures wire[SIZE..][k + 20..][..20] == wire[SIZE + k + 20..SIZE + k + 40]
    ensures wire[SIZE..][k + 20..][20..][..14] == wire[SIZE + k + 40..SIZE + k + 54]
  {
  }

  lemma OfferChecked(c: Cipher, wire: seq<byte>)
    requires |c.state| == 256 && ReadOffer(c, wire).Some?
    ensures |wire| >= 14 && Crypt(c, wire[..14])[..8] == VC
  {
    hide Crypt, Advance;
  }

  /** Where the hash of the secret first stands is decided by what precedes it. */
  lemma ScanFinds(stream: seq<byte>, pattern: seq<byte>, at: nat)
    requires at <= MAX_PADB + 1 && MatchAt(stream, pattern, at) && NoEarlierMarker(stream, pattern, at)
    ensures Scan(stream, pattern, 0) == Some(at)
  {
    hide MatchAt;
  }

  lemma RequestParts(pad: seq<byte>, x: seq<byte>, y: seq<byte>, z: seq<byte>)
    ensures var s := pad + (x + y + z);
      && MatchAt(s, x, |pad|) && s[|pad| + |x|..] == y + z && (y + z)[..|y|] == y && (y + z)[|y|..] == z
  {
    var s := pad + (x + y + z);
    assert s[|pad|..] == x + y + z;
    assert s[|pad| + |x|..] == y + z;
  }

  /** A responder of the protocol reads whatever the initiator has sent. */
  lemma RespondReads(h: Hash, infoHash: seq<byte>, a: nat, b: nat, padA: seq<byte>, provide: nat, padC: seq<byte>,
                     padB: seq<byte>, select: nat, padD: seq<byte>)
    requires IsHash(h) && provide < 0x1_0000_0000 && |padC| < 0x1_0000 && |padA| <= MAX_PADB
    requires var secret := SharedSecret(Generate(b), Generate(a).public);
      NoEarlierMarker(padA + Request(h, secret, infoHash, provide, padC), h(REQ_1 + secret), |padA|)
    ensures |Generate(a).public| == SIZE
    ensures var secret := SharedSecret(Generate(b), Generate(a).public);
      var keys := DeriveKeys(h, secret, infoHash, false);
      Respond(h, infoHash, b, padB, select, padD, Generate(a).public + padA + Request(h, secret, infoHash, provide, padC))
      == Some(Responded(
           Offered(provide, padC, Advance(keys.decrypt, |Offer(provide, padC)|)), Response(keys.encrypt, padB, select, padD),
           Side(Advance(keys.encrypt, |Answer(select, padD)|), Advance(keys.decrypt, |Offer(provide, padC)|), select, [])))
  {
    hide Crypt, Advance, Power, ReadOffer, Response, SharedSecret, Generate, New, Offer, Answer, XorAll, Scan, MatchAt, NoEarlierMarker;
    PublicSize(a);
    var public := Generate(a).public;
    var secret := SharedSecret(Generate(b), public);
    var keys := DeriveKeys(h, secret, infoHash, false);
    var x, y := h(REQ_1 + secret), XorAll(h(REQ_2 + infoHash), h(REQ_3 + secret));
    var z := Crypt(keys.decrypt, Offer(provide, padC));
    var request := Request(h, secret, infoHash, provide, padC);
    assert request == x + y + z;
    var wire := public + padA + request;
    assert wire[..SIZE] == public && wire[SIZE..] == padA + request;
    RequestParts(padA, x, y, z);
    ScanFinds(wire[SIZE..], x, |padA|);
    Widths();
    OfferInSync(keys.decrypt, provide, padC);
    assert z[16 + |padC|..] == [];
  }

  /** The whole exchange, for all private numbers, paddings within bounds and
      choices, and whatever follows, with no earlier copy of either marker: the
      initiator gets through exactly if the responder's public value is not
      degenerate, and then both sides hold the same ciphers, crossed over, and
      the same choice, and nothing that follows is lost. */
  lemma HandshakeCompletes(
      h: Hash, infoHash: seq<byte>, a: nat, b: nat, padA: seq<byte>, provide: nat, padC: seq<byte>,
      padB: seq<byte>, select: nat, padD: seq<byte>, later: seq<byte>)
    requires IsHash(h) && |padA| <= MAX_PADB && |padB| <= MAX_PADB
    requires provide < 0x1_0000_0000 && select < 0x1_0000_0000 && |padC| < 0x1_0000 && |padD| < 0x1_0000
    requires var secret := SharedSecret(Generate(b), Generate(a).public);
      var c := DeriveKeys(h, secret, infoHash, false).encrypt;
      && NoEarlierMarker(padA + Request(h, secret, infoHash, provide, padC), h(REQ_1 + secret), |padA|)
      && NoEarlierMarker(Response(c, padB, select, padD) + later, Crypt(c, VC), |padB|)
    ensures var c := DeriveKeys(h, SharedSecret(Generate(b), Generate(a).public), infoHash, false).encrypt;
      var i := Outgoing(h, infoHash, a, padA, provide, padC, Generate(b).public, Response(c, padB, select, padD) + later);
      var r := Respond(h, infoHash, b, padB, select, padD, i.sent);
      && (i.side.Some? <==> !IsDegenerate(Generate(b).public))
      && (i.side.Some? ==>
            && r.Some? && r.value.offered.provide == provide && r.value.offered.padC == padC
            && r.value.answer == Response(c, padB, select, padD)
            && r.value.side.encrypt == Advance(c, |Answer(select, padD)|)
            && i.side.value == Side(r.value.side.decrypt, r.value.side.encrypt, select, later)
            && r.value.side.select == select && r.value.side.incoming == [])
  {
    hide Crypt, Advance, Power, Receive, ReadOffer, Response, SharedSecret, Generate, New, Offer, Answer, Request,
      Respond, IsDegenerate, NoEarlierMarker;
    if !IsDegenerate(Generate(b).public) {
      SecretsAgree(a, b);
      Widths();
      var secret := SharedSecret(Generate(b), Generate(a).public);
      var c := DeriveKeys(h, secret, infoHash, false).encrypt;
      ResponseInSync(c, padB, select, padD, later);
      RespondReads(h, infoHash, a, b, padA, provide, padC, padB, select, padD);
      ResponseSize(c, padB, select, padD);
      assert (Response(c, padB, select, padD) + later)[|padB| + 14 + |padD|..] == later;
    }
  }

  lemma PublicSize(a: nat)
    ensures |Generate(a).public| == SIZE
  {
  }

  lemma ResponseSize(c: Cipher, padB: seq<byte>, select: nat, padD: seq<byte>)
    requires |c.state| == 256
    ensures |Response(c, padB, select, padD)| == |padB| + 14 + |padD|
  {
  }

  /** After such a handshake, under RC4, everything either side writes, in any
      pieces, is what the other reads, in whatever pieces it arrives. */
  lemma ConversationDecrypts(
      h: Hash, infoHash: seq<byte>, a: nat, b: nat, padA: seq<byte>, provide: nat, padC: seq<byte>,
      padB: seq<byte>, select: nat, padD: seq<byte>, later: seq<byte>,
      written: seq<seq<byte>>, arrived: seq<seq<byte>>, back: seq<seq<byte>>, returned: seq<seq<byte>>)
    requires IsHash(h) && |padA| <= MAX_PADB && |padB| <= MAX_PADB
    requires provide < 0x1_0000_0000 && select < 0x1_0000_0000 && |padC| < 0x1_0000 && |padD| < 0x1_0000
    requires var secret := SharedSecret(Generate(b), Generate(a).public);
      var c := DeriveKeys(h, secret, infoHash, false).encrypt;
      && NoEarlierMarker(padA + Request(h, secret, infoHash, provide, padC), h(REQ_1 + secret), |padA|)
      && NoEarlierMarker(Response(c, padB, select, padD) + later, Crypt(c, VC), |padB|)
      && later == CryptEach(Advance(c, |Answer(select, padD)|), written)
    requires !IsDegenerate(Generate(b).public)
    ensures var c := DeriveKeys(h, SharedSecret(Generate(b), Generate(a).public), infoHash, false).encrypt;
      var i := Outgoing(h, infoHash, a, padA, provide, padC, Generate(b).public, Response(c, padB, select, padD) + later);
      var r := Respond(h, infoHash, b, padB, select, padD, i.sent);
      && i.side.Some? && r.Some?
      && (Concat(arrived) == i.side.value.incoming ==> CryptEach(i.side.value.decrypt, arrived) == Concat(written))
      && (Concat(returned) == CryptEach(i.side.value.encrypt, back) ==>
            CryptEach(r.value.side.decrypt, returned) == Concat(back))
  {
    hide Crypt, Advance, Power, Receive, ReadOffer, Response, SharedSecret, Generate, New, Offer, Answer, Request,
      Respond, IsDegenerate, NoEarlierMarker, CryptEach, Concat, Outgoing;
    HandshakeCompletes(h, infoHash, a, b, padA, provide, padC, padB, select, padD, later);
    var secret := SharedSecret(Generate(b), Generate(a).public);
    var c := DeriveKeys(h, secret, infoHash, false).encrypt;
    var i := Outgoing(h, infoHash, a, padA, provide, padC, Generate(b).public, Response(c, padB, select, padD) + later);
    if Concat(arrived) == i.side.value.incoming { TrafficDecrypts(i.side.value.decrypt, written, arrived); }
    if Concat(returned) == CryptEach(i.side.value.encrypt, back) { TrafficDecrypts(i.side.value.encrypt, back, returned); }
  }

  /** The initiator. A degenerate public value ends it; otherwise it sends its
      request and waits for the answer. The encrypting cipher it keeps is the one
      the request has already advanced. */
  method HandshakeOutgoing(h: Hash, infoHash: seq<byte>, a: nat, padA: seq<byte>, provide: nat, padC: seq<byte>,
                           yb: seq<byte>, stream: seq<byte>)
      returns (sent: seq<byte>, r: Option<EncryptedStream>)
    requires IsHash(h) && |yb| == SIZE
    ensures sent == Outgoing(h, infoHash, a, padA, provide, padC, yb, stream).sent
    ensures r.Some? <==> Outgoing(h, infoHash, a, padA, provide, padC, yb, stream).side.Some?
    ensures r.Some? ==>
      && r.value.Valid() && r.value.wire == []
      && Side(r.value.encryptCipher.Abs(), r.value.decryptCipher.Abs(), r.value.cryptoMethod, r.value.incoming)
         == Outgoing(h, infoHash, a, padA, provide, padC, yb, stream).side.value
  {
    hide Crypt, Advance, New, Generate, SharedSecret, IsDegenerate, Receive, Offer;
    var keyPair := Generate(a);
    sent := keyPair.public + padA;
    if IsDegenerate(yb) { return sent, None; }
    var secret := SharedSecret(keyPair, yb);
    var skey := XorAll(h(REQ_2 + infoHash), h(REQ_3 + secret));
    var encrypt := new Rc4Cipher(h(KEY_A + secret + infoHash));
    var encrypted := Decrypted(encrypt, Offer(provide, padC));
    sent := sent + (h(REQ_1 + secret) + skey + encrypted);
    var decrypt := new Rc4Cipher(h(KEY_B + secret + infoHash));
    var select, used := ReceiveCryptoResponse(stream, decrypt);
    if select.None? { return sent, None; }
    var wrapped := new EncryptedStream(encrypt, decrypt, select.value, stream[used..]);
    r := Some(wrapped);
  }
}
