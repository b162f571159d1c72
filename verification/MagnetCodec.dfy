/** The codecs of magnet URIs: percent escapes (section 2.1 of RFC 3986) and
    base 32 (section 6 of RFC 4648). A Rust string is its UTF-8 bytes. */
module MagnetCodec {
  import opened Prelude
  import opened Text

  const AMPERSAND: byte := 38
  const EQUALS: byte := 61
  const PERCENT: byte := 37
  const SPACE: byte := 32

  // --------------------------------------------------------- percent codec

  predicate Unreserved(c: byte) {
    65 <= c <= 90 || 97 <= c <= 122 || IsDigit(c) || c == 45 || c == 95 || c == 46 || c == 126
  }

  function HexValue(c: byte): Option<nat> {
    if IsDigit(c) then Some(c - ZERO)
    else if 97 <= c <= 102 then Some(c - 87)
    else if 65 <= c <= 70 then Some(c - 55)
    else None
  }

  function UpperHex(n: nat): byte
    requires n < 16
  {
    if n < 10 then ZERO + n else 55 + n
  }

  function LowerHex(n: nat): byte
    requires n < 16
  {
    if n < 10 then ZERO + n else 87 + n
  }

  function EscapeByte(c: byte): seq<byte> {
    if Unreserved(c) then [c] else [PERCENT, UpperHex(c / 16), UpperHex(c % 16)]
  }

  function Escape(s: seq<byte>): seq<byte> {
    if s == [] then [] else EscapeByte(s[0]) + Escape(s[1..])
  }

  /** One token of an escaped string: the bytes it stands for and its length. */
  function Token(s: seq<byte>): (t: (seq<byte>, nat))
    requires s != []
    ensures 0 < t.1 <= |s|
  {
    if s[0] == PERCENT then
      if |s| >= 2 && HexValue(s[1]).Some? then
        if |s| >= 3 && HexValue(s[2]).Some?
        then ([HexValue(s[1]).value * 16 + HexValue(s[2]).value], 3)
        else ([PERCENT, s[1]], 2)
      else ([PERCENT], 1)
    else if s[0] == PLUS then ([SPACE], 1)
    else ([s[0]], 1)
  }

  function Unescape(s: seq<byte>): seq<byte> {
    if s == [] then [] else Token(s).0 + Unescape(s[Token(s).1..])
  }

  /** What stands for what in front of an escaped string: a plus for a space, a
      percent sign and two hex digits for a byte, and a percent sign without them
      for itself. */
  lemma UnescapeFront(c: byte, t: seq<byte>)
    ensures Unescape([PLUS] + t) == [SPACE] + Unescape(t)
    ensures c != PERCENT && c != PLUS ==> Unescape([c] + t) == [c] + Unescape(t)
    ensures t == [] || HexValue(t[0]).None? ==> Unescape([PERCENT] + t) == [PERCENT] + Unescape(t)
  {
    hide HexValue;
    assert ([PLUS] + t)[1..] == t;
    assert ([c] + t)[1..] == t;
    assert ([PERCENT] + t)[1..] == t;
  }

  lemma UnescapeDigits(a: byte, b: byte, t: seq<byte>)
    requires HexValue(a).Some? && HexValue(b).Some?
    ensures Unescape([PERCENT, a, b] + t) == [HexValue(a).value * 16 + HexValue(b).value] + Unescape(t)
  {
    var s := [PERCENT, a, b] + t;
    assert s[0] == PERCENT && s[1] == a && s[2] == b && s[3..] == t;
    hide HexValue;
    assert Token(s) == ([HexValue(a).value * 16 + HexValue(b).value], 3);
    hide Token;
  }

  lemma UnescapeHalf(a: byte, t: seq<byte>)
    requires HexValue(a).Some? && (t == [] || HexValue(t[0]).None?)
    ensures Unescape([PERCENT, a] + t) == [PERCENT, a] + Unescape(t)
  {
    var s := [PERCENT, a] + t;
    assert s[0] == PERCENT && s[1] == a && s[2..] == t;
    assert |s| > 2 ==> s[2] == t[0];
    hide HexValue;
    assert Token(s) == ([PERCENT, a], 2);
    hide Token;
  }

  /** The unreserved characters, and the hex digits with their values. */
  lemma CharactersExactly(c: byte, ch: char)
    requires ch as int == c
    ensures Unreserved(c) <==> 'A' <= ch <= 'Z' || 'a' <= ch <= 'z' || '0' <= ch <= '9' || ch in "-_.~"
    ensures HexValue(c).Some? <==> '0' <= ch <= '9' || 'a' <= ch <= 'f' || 'A' <= ch <= 'F'
    ensures HexValue(c).Some? ==> HexValue(c).value < 16 && (c == UpperHex(HexValue(c).value) || c == LowerHex(HexValue(c).value))
  {
  }

  lemma DigitsExactly(v: nat)
    requires v < 16
    ensures UpperHex(v) == "0123456789ABCDEF"[v] as int && LowerHex(v) == "0123456789abcdef"[v] as int
    ensures HexValue(UpperHex(v)) == HexValue(LowerHex(v)) == Some(v)
  {
  }

  /** `url_decode`: bytes that are not UTF-8 are replaced by `lossy`. */
  function UrlDecode(s: seq<byte>, lossy: seq<byte> -> seq<byte>): seq<byte> {
    var b := Unescape(s);
    if ValidUtf8(b) then b else lossy(b)
  }

  method UrlEncodeLoop(s: seq<byte>) returns (result: seq<byte>)
    ensures result == Escape(s)
  {
    result := [];
    for i := 0 to |s|
      invariant result + Escape(s[i..]) == Escape(s)
    {
      assert s[i..][1..] == s[i + 1..];
      result := result + EscapeByte(s[i]);
    }
  }

  method UrlDecodeLoop(s: seq<byte>) returns (bytes: seq<byte>)
    ensures bytes == Unescape(s)
  {
    bytes := [];
    var i := 0;
    while i < |s|
      invariant i <= |s|
      invariant bytes + Unescape(s[i..]) == Unescape(s)
    {
      hide Token;
      ghost var rest := s[i..];
      ghost var before := bytes;
      var token;
      token, i := NextToken(s, i);
      assert rest[Token(rest).1..] == s[i..];
      bytes := bytes + token;
      Regroup(before, token, Unescape(s[i..]));
    }
  }

  lemma Regroup(a: seq<byte>, b: seq<byte>, c: seq<byte>)
    ensures a + (b + c) == a + b + c
  {
  }

  /** One turn of the decoding loop: a `%` takes up to two hex digits with it,
      and stands for a byte only if both are there. */
  method NextToken(s: seq<byte>, start: nat) returns (token: seq<byte>, i: nat)
    requires start < |s|
    ensures token == Token(s[start..]).0 && i == start + Token(s[start..]).1
  {
    var c := s[start];
    i := start + 1;
    if c == PERCENT {
      var hex: seq<byte> := [];
      if i < |s| && HexValue(s[i]).Some? {
        hex := hex + [s[i]];
        i := i + 1;
        if i < |s| && HexValue(s[i]).Some? {
          hex := hex + [s[i]];
          i := i + 1;
        }
      }
      token := if |hex| == 2 then [HexValue(hex[0]).value * 16 + HexValue(hex[1]).value] else [PERCENT] + hex;
    } else if c == PLUS {
      token := [SPACE];
    } else {
      token := [c];
    }
  }

  lemma UnescapeByte(c: byte, t: seq<byte>)
    ensures Unescape(EscapeByte(c) + t) == [c] + Unescape(t)
  {
    var s := EscapeByte(c) + t;
    if Unreserved(c) {
      assert s[1..] == t;
    } else {
      assert HexValue(UpperHex(c / 16)) == Some(c / 16) && HexValue(UpperHex(c % 16)) == Some(c % 16);
      assert s[3..] == t;
    }
  }

  /** Decoding an encoded string gives the string back, whatever follows. */
  lemma {:induction false} UnescapeEscape(s: seq<byte>, t: seq<byte>)
    ensures Unescape(Escape(s) + t) == s + Unescape(t)
    decreases |s|
  {
    hide EscapeByte, Token;
    if s == [] {
      assert Escape(s) + t == t;
    } else {
      assert Escape(s) + t == EscapeByte(s[0]) + (Escape(s[1..]) + t);
      UnescapeByte(s[0], Escape(s[1..]) + t);
      UnescapeEscape(s[1..], t);
      assert s == [s[0]] + s[1..];
    }
  }

  lemma UrlRoundTrip(s: seq<byte>, lossy: seq<byte> -> seq<byte>)
    requires ValidUtf8(s)
    ensures UrlDecode(Escape(s), lossy) == s
  {
    UnescapeEscape(s, []);
    assert Escape(s) + [] == Escape(s) && s + [] == s;
  }

  /** Encoded text contains no separator. */
  lemma {:induction false} EscapedIsClean(s: seq<byte>)
    ensures AMPERSAND !in Escape(s) && EQUALS !in Escape(s)
    decreases |s|
  {
    if s != [] {
      EscapedIsClean(s[1..]);
      assert AMPERSAND !in EscapeByte(s[0]) && EQUALS !in EscapeByte(s[0]);
    }
  }

  /** Text without escapes decodes to itself. */
  lemma {:induction false} UnescapePlain(s: seq<byte>)
    requires PERCENT !in s && PLUS !in s
    ensures Unescape(s) == s
    decreases |s|
  {
    if s != [] {
      UnescapePlain(s[1..]);
      assert s == [s[0]] + s[1..];
    }
  }

  // ---------------------------------------------------------------- base 32

  function Upper(c: byte): byte { if 97 <= c <= 122 then c - 32 else c }

  /** The position of a character in the base-32 alphabet `A-Z2-7`. */
  function Base32Digit(c: byte): Option<nat> {
    var u := Upper(c);
    if 65 <= u <= 90 then Some(u - 65) else if 50 <= u <= 55 then Some(u - 24) else None
  }

  /** Letters of either case, then the digits 2 to 7. */
  lemma Base32Exactly(c: byte, ch: char)
    requires ch as int == c
    ensures Base32Digit(c) ==
      if 'A' <= ch <= 'Z' then Some(ch as int - 'A' as int)
      else if 'a' <= ch <= 'z' then Some(ch as int - 'a' as int)
      else if '2' <= ch <= '7' then Some(26 + ch as int - '2' as int)
      else None
  {
  }

  predicate IsBase32(s: seq<byte>) { forall k :: 0 <= k < |s| ==> Base32Digit(s[k]).Some? }

  /** The number a base-32 string writes. */
  function Base32Value(s: seq<byte>): nat
    requires IsBase32(s)
  {
    if s == [] then 0 else Base32Value(s[..|s| - 1]) * 32 + Base32Digit(s[|s| - 1]).value
  }

  function BigEndian(b: seq<byte>): nat {
    if b == [] then 0 else BigEndian(b[..|b| - 1]) * 256 + b[|b| - 1]
  }

  function Pow2(n: nat): (p: nat)
    ensures p > 0
  {
    if n == 0 then 1 else 2 * Pow2(n - 1)
  }

  lemma Powers(n: nat)
    ensures Pow2(0) == 1
    ensures Pow2(n + 5) == 32 * Pow2(n)
    ensures n >= 3 ==> 32 * Pow2(n) == 256 * Pow2(n - 3)
  {
    assert Pow2(n + 5) == 2 * Pow2(n + 4) == 4 * Pow2(n + 3) == 8 * Pow2(n + 2) == 16 * Pow2(n + 1);
    if n >= 3 { assert Pow2(n) == 2 * Pow2(n - 1) == 4 * Pow2(n - 2) == 8 * Pow2(n - 3); }
  }

  /** The shift register: whole bytes so far, and `count` bits not yet out. */
  datatype Register = Register(output: seq<byte>, bits: nat, count: nat)

  predicate Settled(r: Register) { r.count < 8 && r.bits < Pow2(r.count) }

  /** Five more bits, and a byte out when there are eight. */
  function Feed(r: Register, digit: nat): (r': Register)
    requires Settled(r) && digit < 32
    ensures Settled(r') && 8 * |r'.output| + r'.count == 8 * |r.output| + r.count + 5
  {
    hide Pow2;
    var bits, count := r.bits * 32 + digit, r.count + 5;
    Powers(r.count);
    if count < 8 then
      Register(r.output, bits, count)
    else
      var p := Pow2(count - 8);
      Divide(bits, p);
      Register(r.output + [bits / p], bits % p, count - 8)
  }

  lemma Divide(bits: nat, p: nat)
    requires p > 0 && bits < 256 * p
    ensures bits / p < 256 && bits % p < p && bits == bits / p * p + bits % p
  {
    var q := bits / p;
    assert bits == q * p + bits % p;
    if q >= 256 { TimesMonotone(256, q, p); }
  }

  lemma TimesMonotone(a: nat, b: nat, c: nat)
    requires a <= b
    ensures a * c <= b * c
  {
  }

  /** The number the register holds: its bytes, then its bits. */
  function Held(r: Register): nat { BigEndian(r.output) * Pow2(r.count) + r.bits }

  lemma FeedAppends(r: Register, digit: nat)
    requires Settled(r) && digit < 32
    ensures Held(Feed(r, digit)) == Held(r) * 32 + digit
  {
    hide Pow2, BigEndian;
    var bits, e := r.bits * 32 + digit, BigEndian(r.output);
    Powers(r.count);
    Distribute(e, Pow2(r.count), r.bits, digit);
    if r.count >= 3 {
      var p := Pow2(r.count - 3);
      Divide(bits, p);
      ShiftOut(r.output, bits / p, bits % p, p);
    }
  }

  lemma ShiftOut(output: seq<byte>, q: byte, rest: nat, p: nat)
    ensures BigEndian(output + [q]) * p + rest == BigEndian(output) * (256 * p) + (q * p + rest)
  {
    assert (output + [q])[..|output|] == output;
    var e := BigEndian(output);
    assert (e * 256 + q) * p == e * (256 * p) + q * p;
  }

  lemma Distribute(e: nat, p: nat, bits: nat, digit: nat)
    ensures e * (32 * p) + (bits * 32 + digit) == (e * p + bits) * 32 + digit
  {
    assert e * (32 * p) == e * p * 32;
  }

  function Base32State(s: seq<byte>): (r: Register)
    requires IsBase32(s)
    ensures Settled(r) && 8 * |r.output| + r.count == 5 * |s|
    ensures Held(r) == Base32Value(s)
  {
    hide Feed;
    Powers(0);
    if s == [] then Register([], 0, 0)
    else
      var front, digit := Base32State(s[..|s| - 1]), Base32Digit(s[|s| - 1]).value;
      FeedAppends(front, digit);
      Feed(front, digit)
  }

  /** `base32_decode`: 32 characters give 20 bytes of the same value. */
  function Base32Decode(s: seq<byte>): (r: Option<seq<byte>>)
    ensures r.Some? <==> |s| == 32 && IsBase32(s)
    ensures r.Some? ==> |r.value| == 20 && BigEndian(r.value) == Base32Value(s)
  {
    Powers(0);
    if |s| == 32 && IsBase32(s) then Some(Base32State(s).output) else None
  }

  method Base32DecodeLoop(input: seq<byte>) returns (r: Option<seq<byte>>)
    ensures r == Base32Decode(input)
  {
    hide *;
    if |input| != 32 { return None; }
    var state := Register([], 0, 0);
    StateOfNothing();
    assert input[..0] == [];
    for i := 0 to 32
      invariant IsBase32(input[..i]) && state == Base32State(input[..i])
    {
      var digit := Base32Digit(input[i]);
      if digit.None? {
        NotBase32(input, i);
        return None;
      }
      StateMore(input, i);
      state := FeedLoop(state, digit.value);
    }
    assert input[..32] == input;
    DecodeIsState(input);
    r := Some(state.output);
  }

  lemma StateOfNothing()
    ensures IsBase32([]) && Base32State([]) == Register([], 0, 0)
  {
    hide Feed, Held, Pow2, BigEndian, Base32Value, Settled;
  }

  lemma NotBase32(input: seq<byte>, i: nat)
    requires i < |input| && Base32Digit(input[i]).None?
    ensures !IsBase32(input)
  {
  }

  lemma DecodeIsState(input: seq<byte>)
    requires |input| == 32 && IsBase32(input)
    ensures Base32Decode(input) == Some(Base32State(input).output)
  {
  }

  lemma StateMore(input: seq<byte>, i: nat)
    requires i < |input| && IsBase32(input[..i]) && Base32Digit(input[i]).Some?
    ensures IsBase32(input[..i + 1])
    ensures Base32Digit(input[i]).value < 32
    ensures Base32State(input[..i + 1]) == Feed(Base32State(input[..i]), Base32Digit(input[i]).value)
  {
    hide Feed;
    assert input[..i + 1] == input[..i] + [input[i]];
    assert input[..i + 1][..i] == input[..i];
  }

  /** The two ways of `Feed`, and that eight bits fit a byte. */
  lemma FeedCases(r: Register, digit: nat)
    requires Settled(r) && digit < 32
    ensures r.count < 3 ==> Feed(r, digit) == Register(r.output, r.bits * 32 + digit, r.count + 5)
    ensures r.count >= 3 ==>
      var bits, p := r.bits * 32 + digit, Pow2(r.count - 3);
      bits / p < 256 && Feed(r, digit) == Register(r.output + [bits / p], bits % p, r.count - 3)
  {
    hide Pow2;
    Powers(r.count);
    if r.count >= 3 { Divide(r.bits * 32 + digit, Pow2(r.count - 3)); }
  }

  method FeedLoop(r: Register, digit: nat) returns (r': Register)
    requires Settled(r) && digit < 32
    ensures r' == Feed(r, digit)
  {
    hide Pow2, Feed;
    FeedCases(r, digit);
    var output: seq<byte>, bits: nat, bitCount: nat := r.output, r.bits * 32 + digit, r.count + 5;
    while bitCount >= 8
      invariant bitCount == r.count + 5 || bitCount < 8
      invariant Register(output, bits, bitCount)
             == if bitCount == r.count + 5 then Register(r.output, r.bits * 32 + digit, r.count + 5) else Feed(r, digit)
    {
      bitCount := bitCount - 8;
      output := output + [bits / Pow2(bitCount)];
      bits := bits % Pow2(bitCount);
    }
    r' := Register(output, bits, bitCount);
  }
}
