/** Well-formed UTF-8, exactly: the encodings of Unicode scalar values (section 3
    of RFC 3629). */
module Utf8 {
  import opened Prelude
  import opened Text

  /** Any code point but the surrogates. */
  predicate Scalar(c: nat) { c < 0x110000 && !(0xD800 <= c < 0xE000) }

  function Encoded(c: nat): seq<byte>
    requires Scalar(c)
  {
    if c < 0x80 then [c]
    else if c < 0x800 then [0xC0 + c / 0x40, 0x80 + c % 0x40]
    else
      var high := c / 0x40;
      if c < 0x10000 then [0xE0 + high / 0x40, 0x80 + high % 0x40, 0x80 + c % 0x40]
      else [0xF0 + high / 0x40 / 0x40, 0x80 + high / 0x40 % 0x40, 0x80 + high % 0x40, 0x80 + c % 0x40]
  }

  function EncodedAll(cs: seq<nat>): seq<byte>
    requires forall k :: 0 <= k < |cs| ==> Scalar(cs[k])
  {
    if cs == [] then [] else Encoded(cs[0]) + EncodedAll(cs[1..])
  }

  lemma Front(c: nat, t: seq<byte>)
    requires Scalar(c)
    ensures ValidUtf8(Encoded(c) + t) <==> ValidUtf8(t)
  {
    var e := Encoded(c);
    var s := e + t;
    assert s[|e|..] == t;
    assert forall k :: 0 <= k < |e| ==> s[k] == e[k];
  }

  lemma {:induction false} EncodedIsValid(cs: seq<nat>)
    requires forall k :: 0 <= k < |cs| ==> Scalar(cs[k])
    ensures ValidUtf8(EncodedAll(cs))
  {
    if cs != [] {
      EncodedIsValid(cs[1..]);
      Front(cs[0], EncodedAll(cs[1..]));
    }
  }

  /** What a well-formed string begins with. */
  lemma FirstScalar(s: seq<byte>) returns (c: nat, t: seq<byte>)
    requires s != [] && ValidUtf8(s)
    ensures Scalar(c) && s == Encoded(c) + t && |t| < |s| && ValidUtf8(t)
  {
    if s[0] < 0x80 {
      c, t := s[0], s[1..];
    } else if s[0] < 0xE0 {
      c, t := More(s[0] as int - 0xC0, s[1]), s[2..];
      TwoBytes(s[0], s[1]);
    } else if s[0] < 0xF0 {
      c, t := More(More(s[0] as int - 0xE0, s[1]), s[2]), s[3..];
      ThreeBytes(s[0], s[1], s[2]);
    } else {
      c, t := More(More(More(s[0] as int - 0xF0, s[1]), s[2]), s[3]), s[4..];
      FourBytes(s[0], s[1], s[2], s[3]);
    }
  }

  /** The number so far, and the six bits of a continuation byte. */
  function More(c: nat, b: byte): (r: nat)
    requires Continuation(b)
    ensures r / 0x40 == c && r % 0x40 == b as int - 0x80 && c * 0x40 <= r < (c + 1) * 0x40
  {
    c * 0x40 + (b as int - 0x80)
  }

  lemma TwoBytes(a: byte, b: byte)
    requires 0xC2 <= a < 0xE0 && Continuation(b)
    ensures var c := More(a as int - 0xC0, b); Scalar(c) && Encoded(c) == [a, b]
  {
  }

  lemma ThreeBytes(a: byte, b: byte, d: byte)
    requires 0xE0 <= a < 0xF0 && Continuation(b) && Continuation(d)
    requires (a == 0xE0 ==> b >= 0xA0) && (a == 0xED ==> b < 0xA0)
    ensures var c := More(More(a as int - 0xE0, b), d); Scalar(c) && Encoded(c) == [a, b, d]
  {
    hide More;
  }

  lemma FourBytes(a: byte, b: byte, d: byte, e: byte)
    requires 0xF0 <= a < 0xF5 && Continuation(b) && Continuation(d) && Continuation(e)
    requires (a == 0xF0 ==> b >= 0x90) && (a == 0xF4 ==> b < 0x90)
    ensures var c := More(More(More(a as int - 0xF0, b), d), e); Scalar(c) && Encoded(c) == [a, b, d, e]
  {
    hide More;
  }

  /** Every well-formed string encodes some scalar values. */
  lemma {:induction false} ValidIsEncoded(s: seq<byte>) returns (cs: seq<nat>)
    requires ValidUtf8(s)
    ensures (forall k :: 0 <= k < |cs| ==> Scalar(cs[k])) && EncodedAll(cs) == s
    decreases |s|
  {
    cs := [];
    if s != [] {
      hide ValidUtf8, Encoded;
      var c, t := FirstScalar(s);
      var rest := ValidIsEncoded(t);
      cs := [c] + rest;
      assert cs[1..] == rest;
    }
  }
}
