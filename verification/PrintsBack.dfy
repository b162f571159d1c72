/** Parsing and then printing: which inputs come out as they went in. */
module PrintsBack {
  import opened Prelude
  import opened Text
  import opened Bencode
  import opened BencodeLaws
  import opened Numbers

  // ---------------------------------------------------------------- numbers

  /** Text of a number in which nothing is superfluous. */
  predicate PlainNumber(s: seq<byte>) { s != [] && s[0] != PLUS && (s[0] == ZERO ==> |s| == 1) }

  lemma {:induction false} DigitsAreShortest(d: seq<byte>)
    requires d != [] && AllDigits(d)
    ensures |Digits(Decimal(d))| <= |d|
    decreases |d|
  {
    var front, last := d[..|d| - 1], d[|d| - 1];
    if front == [] {
      assert Decimal(d) == last - ZERO;
    } else if Decimal(front) > 0 {
      DigitsAreShortest(front);
      assert Decimal(d) / 10 == Decimal(front);
    }
  }

  lemma {:induction false} ZeroInFront(d: seq<byte>)
    requires AllDigits(d)
    ensures AllDigits([ZERO] + d) && Decimal([ZERO] + d) == Decimal(d)
    decreases |d|
  {
    var s := [ZERO] + d;
    if d != [] {
      ZeroInFront(d[..|d| - 1]);
      assert s[..|s| - 1] == [ZERO] + d[..|d| - 1];
    }
  }

  /** A length is printed as it was written, or shorter. */
  lemma LengthPrints(s: seq<byte>, n: nat)
    requires ParseUnsigned(s, TWO_64) == Some(n)
    ensures if PlainNumber(s) then Digits(n) == s else |Digits(n)| < |s|
  {
    UnsignedExactly(s, TWO_64, n);
    if s[0] == PLUS {
      SignIsNoDigit(s[1..]);
      DigitsAreShortest(s[1..]);
    } else if s[0] == ZERO && |s| > 1 {
      assert s == [ZERO] + s[1..];
      ZeroInFront(s[1..]);
      DigitsAreShortest(s[1..]);
    } else {
      DigitsOfDecimal(s);
    }
  }

  // ------------------------------------------------------------- whole texts

  /** `text` is what `data` was, up to `rest`, if `plain`, and else shorter. */
  predicate Back(plain: bool, data: seq<byte>, text: seq<byte>, rest: seq<byte>) {
    if plain then data == text + rest else |text| + |rest| < |data|
  }

  lemma BackChain(p: bool, q: bool, data: seq<byte>, a: seq<byte>, mid: seq<byte>, b: seq<byte>, rest: seq<byte>)
    requires Back(p, data, a, mid) && Back(q, mid, b, rest)
    ensures Back(p && q, data, a + b, rest)
  {
    if p && q { assert data == a + b + rest; }
  }

  lemma BackMark(c: byte, p: bool, data: seq<byte>, a: seq<byte>, rest: seq<byte>)
    requires data != [] && data[0] == c && Back(p, data[1..], a, rest)
    ensures Back(p, data, [c] + a, rest)
  {
    if p { assert data == [c] + data[1..]; }
  }

  predicate PlainInteger(data: seq<byte>) { |data| > 1 && data[1] != PLUS }

  lemma IntegerPrints(data: seq<byte>)
    requires data != [] && data[0] == CHAR_I && ParseInteger(data).Good?
    ensures Back(PlainInteger(data), data, Encode(ParseInteger(data).value), ParseInteger(data).rest)
  {
    var end := IndexOf(data[1..], CHAR_E);
    var num, rest := data[1..end + 1], data[end + 2..];
    var n := ParseInteger(data).value.n;
    assert data[1..][end] == CHAR_E;
    assert data == [CHAR_I] + num + [CHAR_E] + rest;
    ReadIsText(num, n);
    if num == SignedDigits(n) {
      if n >= 0 { SignIsNoDigit(num); }
      assert num[0] == data[1];
      assert data == Encode(Integer(n)) + rest;
    } else {
      assert num[0] == data[1];
      DigitsAreShortest(num[1..]);
    }
  }

  predicate PlainString(data: seq<byte>) { PlainNumber(data[..IndexOf(data, COLON)]) }

  lemma StringPrints(data: seq<byte>)
    requires ParseBytes(data).Good?
    ensures Back(PlainString(data), data, EncodeBytes(ParseBytes(data).value), ParseBytes(data).rest)
  {
    var colon := IndexOf(data, COLON);
    var len := data[..colon];
    var b, rest := ParseBytes(data).value, ParseBytes(data).rest;
    assert data == len + [COLON] + b + rest;
    LengthPrints(len, |b|);
    if PlainNumber(len) { assert data == EncodeBytes(b) + rest; }
  }

  /** No number in the text that is read as a value has a plus sign, and no
      length has a superfluous zero. */
  predicate Plain(data: seq<byte>, depth: nat)
    requires ParseAt(data, depth).Good?
    decreases |data|, 0
  {
    if data[0] == CHAR_I then PlainInteger(data)
    else if data[0] == CHAR_L then PlainItems(data[1..], depth + 1)
    else if data[0] == CHAR_D then PlainEntries(data[1..], depth + 1, None)
    else PlainString(data)
  }

  predicate PlainItems(data: seq<byte>, depth: nat)
    requires ParseItems(data, depth).Good?
    decreases |data|, 1
  {
    data[0] != CHAR_E ==> Plain(data, depth) && PlainItems(ParseAt(data, depth).rest, depth)
  }

  predicate PlainEntries(data: seq<byte>, depth: nat, last: Option<seq<byte>>)
    requires ParseEntries(data, depth, last).Good?
    decreases |data|, 1
  {
    data[0] != CHAR_E ==>
      var key := ParseBytes(data);
      && PlainString(data) && Plain(key.rest, depth)
      && PlainEntries(ParseAt(key.rest, depth).rest, depth, Some(key.value))
  }

  lemma {:induction false} ValuePrints(data: seq<byte>, depth: nat)
    requires ParseAt(data, depth).Good?
    ensures Back(Plain(data, depth), data, Encode(ParseAt(data, depth).value), ParseAt(data, depth).rest)
    decreases |data|, 0
  {
    hide Back;
    if data[0] == CHAR_I {
      hide ParseInteger, PlainInteger, Encode;
      IntegerPrints(data);
    } else if data[0] == CHAR_L {
      ItemsPrint(data[1..], depth + 1);
      ListPrints(data, PlainItems(data[1..], depth + 1), ParseItems(data[1..], depth + 1));
    } else if data[0] == CHAR_D {
      EntriesPrint(data[1..], depth + 1, None);
      DictPrints(data, PlainEntries(data[1..], depth + 1, None), ParseEntries(data[1..], depth + 1, None));
    } else {
      hide ParseBytes, PlainString, EncodeBytes;
      StringPrints(data);
    }
  }

  lemma ListPrints(data: seq<byte>, p: bool, items: Parsed<seq<Value>>)
    requires items.Good? && data != [] && data[0] == CHAR_L
    requires Back(p, data[1..], EncodeItems(items.value) + [CHAR_E], items.rest)
    ensures Back(p, data, Encode(List(items.value)), items.rest)
  {
    hide Back, EncodeItems;
    BackMark(CHAR_L, p, data, EncodeItems(items.value) + [CHAR_E], items.rest);
    assert [CHAR_L] + (EncodeItems(items.value) + [CHAR_E]) == Encode(List(items.value));
  }

  lemma DictPrints(data: seq<byte>, p: bool, entries: Parsed<seq<Entry>>)
    requires entries.Good? && data != [] && data[0] == CHAR_D
    requires Back(p, data[1..], EncodeEntries(entries.value) + [CHAR_E], entries.rest)
    ensures Back(p, data, Encode(Dict(entries.value)), entries.rest)
  {
    hide Back, EncodeEntries;
    BackMark(CHAR_D, p, data, EncodeEntries(entries.value) + [CHAR_E], entries.rest);
    assert [CHAR_D] + (EncodeEntries(entries.value) + [CHAR_E]) == Encode(Dict(entries.value));
  }

  lemma EndPrints(data: seq<byte>)
    requires data != [] && data[0] == CHAR_E
    ensures Back(true, data, [] + [CHAR_E], data[1..])
  {
  }

  lemma {:induction false} ItemsPrint(data: seq<byte>, depth: nat)
    requires ParseItems(data, depth).Good?
    ensures var p := ParseItems(data, depth);
      Back(PlainItems(data, depth), data, EncodeItems(p.value) + [CHAR_E], p.rest)
    decreases |data|, 1
  {
    hide Back, ParseAt, Plain, Encode;
    if data[0] == CHAR_E {
      EndPrints(data);
    } else {
      var v := ParseAt(data, depth);
      var more := ParseItems(v.rest, depth);
      ValuePrints(data, depth);
      ItemsPrint(v.rest, depth);
      BackChain(Plain(data, depth), PlainItems(v.rest, depth), data, Encode(v.value), v.rest,
                EncodeItems(more.value) + [CHAR_E], more.rest);
      assert ([v.value] + more.value)[1..] == more.value;
      assert Encode(v.value) + (EncodeItems(more.value) + [CHAR_E]) == EncodeItems([v.value] + more.value) + [CHAR_E];
    }
  }

  lemma {:induction false} EntriesPrint(data: seq<byte>, depth: nat, last: Option<seq<byte>>)
    requires ParseEntries(data, depth, last).Good?
    ensures var p := ParseEntries(data, depth, last);
      Back(PlainEntries(data, depth, last), data, EncodeEntries(p.value) + [CHAR_E], p.rest)
    decreases |data|, 1
  {
    hide Back, ParseAt, ParseBytes, Plain, PlainString, Encode, EncodeBytes, Less;
    if data[0] == CHAR_E {
      EndPrints(data);
    } else {
      var key := ParseBytes(data);
      var v := ParseAt(key.rest, depth);
      var more := ParseEntries(v.rest, depth, Some(key.value));
      StringPrints(data);
      ValuePrints(key.rest, depth);
      BackChain(PlainString(data), Plain(key.rest, depth), data, EncodeBytes(key.value), key.rest, Encode(v.value), v.rest);
      EntriesPrint(v.rest, depth, Some(key.value));
      BackChain(PlainString(data) && Plain(key.rest, depth), PlainEntries(v.rest, depth, Some(key.value)), data,
                EncodeBytes(key.value) + Encode(v.value), v.rest, EncodeEntries(more.value) + [CHAR_E], more.rest);
      FirstOfEntries(Entry(key.value, v.value), more.value);
    }
  }

  lemma FirstOfEntries(e: Entry, more: seq<Entry>)
    ensures EncodeBytes(e.key) + Encode(e.value) + (EncodeEntries(more) + [CHAR_E]) == EncodeEntries([e] + more) + [CHAR_E]
  {
    hide EncodeBytes, Encode;
    assert ([e] + more)[1..] == more;
    assert EncodeEntries([e] + more) == EncodeBytes(e.key) + Encode(e.value) + EncodeEntries(more);
  }

  /** Printing what was parsed gives back the bytes it was parsed from exactly
      when they are plain; otherwise it gives fewer. */
  lemma PrintedExactly(data: seq<byte>, depth: nat)
    requires ParseAt(data, depth).Good?
    ensures var p := ParseAt(data, depth);
      && (Plain(data, depth) <==> data == Encode(p.value) + p.rest)
      && (!Plain(data, depth) ==> |Encode(p.value)| < |data| - |p.rest|)
  {
    ValuePrints(data, depth);
    hide ParseAt, Plain, Encode;
  }

  /** Two inputs that are accepted and printed differently: `i+5e`, and the text
      `04:spam`. */
  lemma NotPlain()
    ensures ParseExact([CHAR_I, PLUS, 53, CHAR_E]) == Ok(Integer(5)) && Encode(Integer(5)) == [CHAR_I, 53, CHAR_E]
    ensures ParseExact([ZERO, 52, COLON, 115, 112, 97, 109]) == Ok(Bytes([115, 112, 97, 109]))
    ensures Encode(Bytes([115, 112, 97, 109])) == [52, COLON, 115, 112, 97, 109]
  {
    PlusFive();
    PaddedFour();
  }

  lemma PlusFive()
    ensures ParseExact([CHAR_I, PLUS, 53, CHAR_E]) == Ok(Integer(5)) && Encode(Integer(5)) == [CHAR_I, 53, CHAR_E]
  {
    var num := [PLUS, 53];
    OneDigit(53);
    assert Writes([53], 5);
    assert num[1..] == [53];
    IntegerExactly(num, [], 5);
    assert [CHAR_I] + num + [CHAR_E] + [] == [CHAR_I, PLUS, 53, CHAR_E];
  }

  lemma OneDigit(c: byte)
    requires IsDigit(c)
    ensures AllDigits([c]) && Decimal([c]) == c - ZERO
  {
    assert Decimal([]) == 0;
    assert [c][..0] == [];
  }

  lemma PaddedFour()
    ensures ParseExact([ZERO, 52, COLON, 115, 112, 97, 109]) == Ok(Bytes([115, 112, 97, 109]))
    ensures Encode(Bytes([115, 112, 97, 109])) == [52, COLON, 115, 112, 97, 109]
  {
    var spam: seq<byte> := [115, 112, 97, 109];
    PaddedLength();
    hide Digits, Decimal, ParseUnsigned;
    StringExactly([ZERO, 52], spam, spam, []);
    hide ParseBytes;
    assert [ZERO, 52] + [COLON] + spam == [ZERO, 52, COLON, 115, 112, 97, 109];
  }

  lemma PaddedLength()
    ensures ParseUnsigned([ZERO, 52], TWO_64) == Some(4) && Digits(4) == [52]
  {
    OneDigit(52);
    ZeroInFront([52]);
    assert [ZERO] + [52] == [ZERO, 52];
    UnsignedExactly([ZERO, 52], TWO_64, 4);
  }
}
