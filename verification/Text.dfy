/** Decimal numbers and separators as the original's parsers read them. */
module Text {
  import opened Prelude

  const ZERO: byte := 48
  const PLUS: byte := 43
  const MINUS: byte := 45

  predicate IsDigit(c: byte) { ZERO <= c < ZERO + 10 }

  predicate AllDigits(s: seq<byte>) { forall k :: 0 <= k < |s| ==> IsDigit(s[k]) }

  /** The number a string of digits writes. */
  function Decimal(s: seq<byte>): nat
    requires AllDigits(s)
  {
    if s == [] then 0 else Decimal(s[..|s| - 1]) * 10 + (s[|s| - 1] - ZERO)
  }

  /** `to_string` of an unsigned number. */
  function Digits(n: nat): (s: seq<byte>)
    ensures s != [] && AllDigits(s)
    ensures s[0] == ZERO <==> n == 0
    ensures n == 0 ==> s == [ZERO]
  {
    if n < 10 then [ZERO + n] else Digits(n / 10) + [ZERO + n % 10]
  }

  /** `str::parse` of an unsigned type: an optional plus sign, then digits. */
  function ParseUnsigned(s: seq<byte>, limit: nat): Option<nat> {
    var d := if s != [] && s[0] == PLUS then s[1..] else s;
    if d == [] || !AllDigits(d) || Decimal(d) >= limit then None else Some(Decimal(d))
  }

  /** `str::parse::<i64>`: either sign, then digits, within the range. */
  function ParseI64(s: seq<byte>): Option<int> {
    if s != [] && s[0] == MINUS then
      var d := s[1..];
      if d == [] || !AllDigits(d) || Decimal(d) > TWO_63 then None else Some(0 - Decimal(d) as int)
    else
      ParseUnsigned(s, TWO_63)
  }

  /** `i64::to_string`. */
  function SignedDigits(n: int): (s: seq<byte>)
    ensures s != []
  {
    if n < 0 then [MINUS] + Digits(-n) else Digits(n)
  }

  lemma {:induction false} DecimalOfDigits(n: nat)
    ensures Decimal(Digits(n)) == n
  {
    if n >= 10 {
      DecimalOfDigits(n / 10);
      assert Digits(n)[..|Digits(n)| - 1] == Digits(n / 10);
    } else {
      assert Decimal([ZERO + n]) == Decimal([]) * 10 + n;
    }
  }

  /** A printed unsigned number reads back, exactly when the type can hold it. */
  lemma UnsignedRoundTrip(n: nat, limit: nat)
    ensures ParseUnsigned(Digits(n), limit) == if n < limit then Some(n) else None
  {
    DecimalOfDigits(n);
  }

  /** A printed `i64` reads back. */
  lemma SignedRoundTrip(n: int)
    requires -TWO_63 <= n < TWO_63
    ensures ParseI64(SignedDigits(n)) == Some(n)
  {
    var m: nat := if n < 0 then -n else n;
    var d := Digits(m);
    DecimalOfDigits(m);
    assert ([MINUS] + d)[1..] == d;
  }

  /** `split(sep)`: the pieces between separators, never none. */
  function Split(s: seq<byte>, sep: byte): (parts: seq<seq<byte>>)
    ensures parts != []
    ensures forall k :: 0 <= k < |parts| ==> sep !in parts[k]
    decreases |s|
  {
    var i := IndexOf(s, sep);
    if i == |s| then [s] else [s[..i]] + Split(s[i + 1..], sep)
  }

  function Join(parts: seq<seq<byte>>, sep: byte): seq<byte>
    requires parts != []
  {
    if |parts| == 1 then parts[0] else parts[0] + [sep] + Join(parts[1..], sep)
  }

  lemma {:induction false} SplitOfJoin(parts: seq<seq<byte>>, sep: byte)
    requires parts != []
    requires forall k :: 0 <= k < |parts| ==> sep !in parts[k]
    ensures Split(Join(parts, sep), sep) == parts
  {
    if |parts| == 1 {
      assert IndexOf(parts[0], sep) == |parts[0]|;
    } else {
      var rest := Join(parts[1..], sep);
      var s := parts[0] + [sep] + rest;
      IndexOfAt(parts[0], sep, rest);
      assert s[..|parts[0]|] == parts[0] && s[|parts[0]| + 1..] == rest;
      SplitOfJoin(parts[1..], sep);
    }
  }

  lemma JoinBefore(part: seq<byte>, parts: seq<seq<byte>>, sep: byte)
    requires parts != []
    ensures Join([part] + parts, sep) == part + [sep] + Join(parts, sep)
  {
    assert ([part] + parts)[1..] == parts;
  }

  lemma {:induction false} JoinOfSplit(s: seq<byte>, sep: byte)
    ensures Join(Split(s, sep), sep) == s
    decreases |s|
  {
    var i := IndexOf(s, sep);
    if i < |s| {
      var rest := Split(s[i + 1..], sep);
      assert Split(s, sep) == [s[..i]] + rest;
      JoinOfSplit(s[i + 1..], sep);
      hide Split, Join;
      JoinBefore(s[..i], rest, sep);
      assert s == s[..i] + [sep] + s[i + 1..];
    }
  }

  // ------------------------------------------------------------------ UTF-8

  predicate Continuation(c: byte) { 0x80 <= c < 0xC0 }

  /** Well-formed UTF-8 (section 4 of RFC 3629). */
  predicate ValidUtf8(s: seq<byte>) {
    || s == []
    || (s[0] < 0x80 && ValidUtf8(s[1..]))
    || (|s| >= 2 && 0xC2 <= s[0] < 0xE0 && Continuation(s[1]) && ValidUtf8(s[2..]))
    || (|s| >= 3 && 0xE0 <= s[0] < 0xF0 && Continuation(s[1]) && Continuation(s[2])
        && (s[0] == 0xE0 ==> s[1] >= 0xA0) && (s[0] == 0xED ==> s[1] < 0xA0) && ValidUtf8(s[3..]))
    || (|s| >= 4 && 0xF0 <= s[0] < 0xF5 && Continuation(s[1]) && Continuation(s[2]) && Continuation(s[3])
        && (s[0] == 0xF0 ==> s[1] >= 0x90) && (s[0] == 0xF4 ==> s[1] < 0x90) && ValidUtf8(s[4..]))
  }

  predicate Ascii(s: seq<byte>) { forall k :: 0 <= k < |s| ==> s[k] < 0x80 }

  lemma {:induction false} AsciiIsUtf8(s: seq<byte>)
    requires Ascii(s)
    ensures ValidUtf8(s)
    decreases |s|
  {
    if s != [] { AsciiIsUtf8(s[1..]); }
  }
}
