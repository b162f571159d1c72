/** The numbers and strings that are read, and those that are refused: exactly
    which text stands for which number. */
module Numbers {
  import opened Prelude
  import opened Text
  import opened Bencode

  /** Digits that write `n`, perhaps with zeros in front. */
  predicate Writes(d: seq<byte>, n: nat) { d != [] && AllDigits(d) && Decimal(d) == n }

  lemma DropPlus(d: seq<byte>)
    ensures ([PLUS] + d)[1..] == d && ([MINUS] + d)[1..] == d
  {
  }

  lemma SignIsNoDigit(d: seq<byte>)
    requires AllDigits(d) && d != []
    ensures d[0] != PLUS && d[0] != MINUS
  {
  }

  /** An unsigned number is read from digits, with or without one plus sign
      before them, if the type can hold it. */
  lemma UnsignedExactly(s: seq<byte>, limit: nat, n: nat)
    ensures ParseUnsigned(s, limit) == Some(n) <==>
      n < limit && (Writes(s, n) || (s != [] && s[0] == PLUS && Writes(s[1..], n)))
  {
    if s != [] && AllDigits(s) { SignIsNoDigit(s); }
  }

  lemma {:induction false} DigitsOfDecimal(d: seq<byte>)
    requires d != [] && AllDigits(d) && (d[0] == ZERO ==> |d| == 1)
    ensures Digits(Decimal(d)) == d
    decreases |d|
  {
    var front, last := d[..|d| - 1], d[|d| - 1];
    if front == [] {
      assert Decimal(d) == last - ZERO;
    } else {
      DigitsOfDecimal(front);
      assert front[0] == d[0];
      assert Decimal(front) > 0 && Decimal(d) / 10 == Decimal(front) && Decimal(d) % 10 == last - ZERO;
      assert d == front + [last];
    }
  }

  /** The text of an integer: as it is printed, or after a plus sign. */
  predicate IntegerText(num: seq<byte>, n: int) {
    && -TWO_63 <= n < TWO_63
    && (num == SignedDigits(n) || (n >= 0 && num != [] && num[0] == PLUS && Writes(num[1..], n)))
  }

  predicate BadZero(num: seq<byte>) {
    (|num| > 1 && num[0] == ZERO) || (|num| >= 2 && num[0] == MINUS && num[1] == ZERO)
  }

  lemma TextIsRead(num: seq<byte>, n: int)
    requires IntegerText(num, n)
    ensures ParseI64(num) == Some(n) && !BadZero(num)
  {
    if num == SignedDigits(n) {
      SignedRoundTrip(n);
      if n < 0 { DropPlus(Digits(-n)); } else { SignIsNoDigit(num); }
    } else {
      UnsignedExactly(num, TWO_63, n);
    }
  }

  lemma ReadIsText(num: seq<byte>, n: int)
    requires ParseI64(num) == Some(n) && !BadZero(num)
    ensures IntegerText(num, n)
  {
    if num != [] && num[0] == MINUS {
      var d := num[1..];
      assert d[0] == num[1];
      DigitsOfDecimal(d);
      DecimalIsPositive(d);
      assert num == [MINUS] + d;
    } else {
      UnsignedExactly(num, TWO_63, n);
      if Writes(num, n) { DigitsOfDecimal(num); }
    }
  }

  lemma DecimalIsPositive(d: seq<byte>)
    requires d != [] && AllDigits(d) && d[0] != ZERO
    ensures Decimal(d) > 0
  {
    DigitsOfDecimal(d);
  }

  /** An integer is accepted exactly if its text is what would be printed for it
      or has a plus sign: no other zeros in front, no minus zero, 64 bits. */
  lemma IntegerExactly(num: seq<byte>, rest: seq<byte>, n: int)
    requires CHAR_E !in num
    ensures var data := [CHAR_I] + num + [CHAR_E] + rest;
      && (ParseInteger(data) == Good(Integer(n), rest) <==> IntegerText(num, n))
      && (ParseInteger(data).Good? ==> exists m :: ParseInteger(data) == Good(Integer(m), rest))
  {
    var data := [CHAR_I] + num + [CHAR_E] + rest;
    IndexOfAt(num, CHAR_E, rest);
    assert data[1..] == num + [CHAR_E] + rest;
    assert data[1..|num| + 1] == num && data[|num| + 2..] == rest;
    assert ParseInteger(data) ==
      if BadZero(num) || ParseI64(num).None? then Bad else Good(Integer(ParseI64(num).value), rest);
    hide ParseInteger, BadZero, IntegerText, ParseI64;
    if ParseI64(num) == Some(n) && !BadZero(num) { ReadIsText(num, n); }
    if IntegerText(num, n) { TextIsRead(num, n); }
  }

  /** Without its end marker an integer is refused. */
  lemma IntegerNeedsEnd(data: seq<byte>)
    requires data != [] && CHAR_E !in data[1..]
    ensures ParseInteger(data) == Bad
  {
  }

  /** A string is accepted exactly if its length is a number, within the limit,
      and so many bytes follow the colon. */
  lemma StringExactly(len: seq<byte>, after: seq<byte>, b: seq<byte>, rest: seq<byte>)
    requires COLON !in len
    ensures ParseBytes(len + [COLON] + after) == Good(b, rest) <==>
      ParseUnsigned(len, TWO_64) == Some(|b|) && |b| <= MAX_STRING_LENGTH && after == b + rest
  {
    var data := len + [COLON] + after;
    LengthAndRest(len, after);
    hide ParseUnsigned;
    var n := ParseUnsigned(len, TWO_64);
    if n.Some? && n.value <= |after| {
      DropTaken(len, after, n.value);
      CutAt(after, b, rest, n.value);
    }
  }

  lemma LengthAndRest(len: seq<byte>, after: seq<byte>)
    requires COLON !in len
    ensures IndexOf(len + [COLON] + after, COLON) == |len| && (len + [COLON] + after)[..|len|] == len
  {
    IndexOfAt(len, COLON, after);
  }

  lemma DropTaken(len: seq<byte>, after: seq<byte>, n: nat)
    requires n <= |after|
    ensures var data := len + [COLON] + after;
      data[|len| + 1..|len| + 1 + n] == after[..n] && data[|len| + 1 + n..] == after[n..]
  {
  }

  lemma CutAt(s: seq<byte>, b: seq<byte>, rest: seq<byte>, n: nat)
    requires n <= |s|
    ensures b == s[..n] && rest == s[n..] <==> |b| == n && s == b + rest
  {
    assert s == s[..n] + s[n..];
  }
}
