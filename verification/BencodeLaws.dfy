/** What the bencode parser and printer promise together. */
module BencodeLaws {
  import opened Prelude
  import opened Text
  import opened Bencode

  // ------------------------------------------------- printing then parsing

  lemma BytesRoundTrip(b: seq<byte>, tail: seq<byte>)
    ensures ParseBytes(EncodeBytes(b) + tail) == if |b| <= MAX_STRING_LENGTH then Good(b, tail) else Bad
    ensures IsDigit((EncodeBytes(b) + tail)[0])
  {
    hide Digits, ParseUnsigned, IndexOf;
    var digits := Digits(|b|);
    var data := EncodeBytes(b) + tail;
    IndexOfAt(digits, COLON, b + tail);
    UnsignedRoundTrip(|b|, TWO_64);
    StringParts(digits, b, tail);
    assert data == digits + [COLON] + b + tail;
  }

  lemma StringParts(digits: seq<byte>, b: seq<byte>, tail: seq<byte>)
    ensures var data := digits + [COLON] + b + tail;
      && data == digits + [COLON] + (b + tail)
      && data[..|digits|] == digits
      && data[|digits| + 1..|digits| + 1 + |b|] == b
      && data[|digits| + 1 + |b|..] == tail
      && (digits != [] ==> data[0] == digits[0])
  {
  }

  lemma IntegerRoundTrip(n: int, tail: seq<byte>)
    requires -TWO_63 <= n < TWO_63
    ensures ParseInteger(Encode(Integer(n)) + tail) == Good(Integer(n), tail)
  {
    hide Digits, ParseI64, IndexOf;
    var num := SignedDigits(n);
    IndexOfAt(num, CHAR_E, tail);
    IntegerParts(num, tail);
    SignedRoundTrip(n);
    if n < 0 { assert num[1] == Digits(-n)[0]; }
  }

  lemma IntegerParts(num: seq<byte>, tail: seq<byte>)
    ensures var data := [CHAR_I] + num + [CHAR_E] + tail;
      && data[1..] == num + [CHAR_E] + tail
      && data[1..|num| + 1] == num
      && data[|num| + 2..] == tail
  {
  }

  /** Every value of the original's type, printed and followed by any bytes,
      parses back to exactly that value and those bytes when it is within the
      parser's limits, and is rejected when it is not. */
  lemma {:induction false} RoundTrip(v: Value, depth: nat, tail: seq<byte>)
    requires WellTyped(v)
    ensures ParseAt(Encode(v) + tail, depth) == if Fits(v, depth) then Good(v, tail) else Bad
    decreases v, 1
  {
    hide ParseAt, ParseItems, ParseEntries, Encode, EncodeItems, EncodeEntries, Fits, EntryFits, WellTyped, Ascending;
    if depth <= MAX_PARSE_DEPTH {
      Typed(v);
      match v {
        case Integer(n) => IntegerCase(n, depth, tail);
        case Bytes(b) => BytesCase(b, depth, tail);
        case List(items) =>
          ItemsRoundTrip(items, depth + 1, tail);
          FitsList(items, depth);
          ListCase(items, depth, tail);
        case Dict(entries) =>
          EntriesRoundTrip(entries, depth + 1, None, tail);
          FitsDict(entries, depth);
          DictCase(entries, depth, tail);
      }
    } else {
      TooDeep(v, Encode(v) + tail, depth);
    }
  }

  /** What a value of the original's type consists of. */
  lemma Typed(v: Value)
    requires WellTyped(v)
    ensures v.Integer? ==> -TWO_63 <= v.n < TWO_63
    ensures v.List? ==> forall i :: 0 <= i < |v.items| ==> WellTyped(v.items[i])
    ensures v.Dict? ==> Ascending(None, v.entries) && forall i :: 0 <= i < |v.entries| ==> WellTyped(v.entries[i].value)
  {
  }

  lemma Bracketed(open: byte, body: seq<byte>, tail: seq<byte>)
    ensures ([open] + body + [CHAR_E] + tail)[1..] == body + ([CHAR_E] + tail)
  {
  }

  lemma IntegerCase(n: int, depth: nat, tail: seq<byte>)
    requires -TWO_63 <= n < TWO_63 && depth <= MAX_PARSE_DEPTH
    ensures ParseAt(Encode(Integer(n)) + tail, depth) == Good(Integer(n), tail) && Fits(Integer(n), depth)
  {
    IntegerRoundTrip(n, tail);
  }

  lemma TooDeep(v: Value, data: seq<byte>, depth: nat)
    requires depth > MAX_PARSE_DEPTH
    ensures ParseAt(data, depth) == Bad && !Fits(v, depth)
  {
  }

  lemma FitsList(items: seq<Value>, depth: nat)
    requires depth <= MAX_PARSE_DEPTH
    ensures Fits(List(items), depth) <==> forall i :: 0 <= i < |items| ==> Fits(items[i], depth + 1)
  {
  }

  lemma FitsDict(entries: seq<Entry>, depth: nat)
    requires depth <= MAX_PARSE_DEPTH
    ensures Fits(Dict(entries), depth) <==> forall i :: 0 <= i < |entries| ==> EntryFits(entries[i], depth + 1)
  {
  }

  lemma BytesCase(b: seq<byte>, depth: nat, tail: seq<byte>)
    requires depth <= MAX_PARSE_DEPTH
    ensures ParseAt(Encode(Bytes(b)) + tail, depth) == if Fits(Bytes(b), depth) then Good(Bytes(b), tail) else Bad
  {
    BytesRoundTrip(b, tail);
  }

  lemma ListCase(items: seq<Value>, depth: nat, tail: seq<byte>)
    requires depth <= MAX_PARSE_DEPTH
    requires ParseItems(EncodeItems(items) + ([CHAR_E] + tail), depth + 1)
          == if Fits(List(items), depth) then Good(items, tail) else Bad
    ensures ParseAt(Encode(List(items)) + tail, depth) == if Fits(List(items), depth) then Good(List(items), tail) else Bad
  {
    Bracketed(CHAR_L, EncodeItems(items), tail);
  }

  lemma DictCase(entries: seq<Entry>, depth: nat, tail: seq<byte>)
    requires depth <= MAX_PARSE_DEPTH
    requires ParseEntries(EncodeEntries(entries) + ([CHAR_E] + tail), depth + 1, None)
          == if Fits(Dict(entries), depth) then Good(entries, tail) else Bad
    ensures ParseAt(Encode(Dict(entries)) + tail, depth)
         == if Fits(Dict(entries), depth) then Good(Dict(entries), tail) else Bad
  {
    Bracketed(CHAR_D, EncodeEntries(entries), tail);
  }

  lemma FirstByte(v: Value)
    ensures Encode(v) != [] && Encode(v)[0] != CHAR_E
  {
  }

  lemma {:induction false} ItemsRoundTrip(items: seq<Value>, depth: nat, tail: seq<byte>)
    requires forall i :: 0 <= i < |items| ==> WellTyped(items[i])
    ensures ParseItems(EncodeItems(items) + ([CHAR_E] + tail), depth)
         == if forall i :: 0 <= i < |items| ==> Fits(items[i], depth) then Good(items, tail) else Bad
    decreases items, 0
  {
    hide ParseAt, Encode;
    if items == [] {
      assert ([CHAR_E] + tail)[1..] == tail;
      assert EncodeItems(items) + ([CHAR_E] + tail) == [CHAR_E] + tail;
    } else {
      var more := EncodeItems(items[1..]) + ([CHAR_E] + tail);
      assert EncodeItems(items) + ([CHAR_E] + tail) == Encode(items[0]) + more;
      FirstByte(items[0]);
      RoundTrip(items[0], depth, more);
      ItemsRoundTrip(items[1..], depth, tail);
      assert [items[0]] + items[1..] == items;
      assert forall i :: 1 <= i < |items| ==> items[i] == items[1..][i - 1];
    }
  }

  lemma {:induction false} EntriesRoundTrip(entries: seq<Entry>, depth: nat, last: Option<seq<byte>>, tail: seq<byte>)
    requires Ascending(last, entries)
    requires forall i :: 0 <= i < |entries| ==> WellTyped(entries[i].value)
    ensures ParseEntries(EncodeEntries(entries) + ([CHAR_E] + tail), depth, last)
         == if forall i :: 0 <= i < |entries| ==> EntryFits(entries[i], depth) then Good(entries, tail) else Bad
    decreases entries, 0
  {
    hide ParseAt, ParseBytes, EncodeBytes, Encode;
    if entries == [] {
      assert ([CHAR_E] + tail)[1..] == tail;
      assert EncodeEntries(entries) + ([CHAR_E] + tail) == [CHAR_E] + tail;
    } else {
      var e := entries[0];
      assert Ascending(Some(e.key), entries[1..]) && (last.Some? ==> Less(last.value, e.key));
      FirstEntry(entries, [CHAR_E] + tail);
      hide ParseEntries, EncodeEntries, Ascending, Less, EntryFits;
      var more := EncodeEntries(entries[1..]) + ([CHAR_E] + tail);
      var data := EncodeEntries(entries) + ([CHAR_E] + tail);
      BytesRoundTrip(e.key, Encode(e.value) + more);
      RoundTrip(e.value, depth, more);
      EntriesRoundTrip(entries[1..], depth, Some(e.key), tail);
      EntryStep(data, e, Encode(e.value) + more, more, depth, last);
      AllEntriesFit(entries, depth);
    }
  }

  lemma FirstEntry(entries: seq<Entry>, rest: seq<byte>)
    requires entries != []
    ensures EncodeEntries(entries) + rest
         == EncodeBytes(entries[0].key) + (Encode(entries[0].value) + (EncodeEntries(entries[1..]) + rest))
  {
    hide EncodeBytes, Encode;
  }

  lemma AllEntriesFit(entries: seq<Entry>, depth: nat)
    requires entries != []
    ensures entries == [entries[0]] + entries[1..]
    ensures (forall i :: 0 <= i < |entries| ==> EntryFits(entries[i], depth))
       <==> EntryFits(entries[0], depth) && forall i :: 0 <= i < |entries| - 1 ==> EntryFits(entries[1..][i], depth)
  {
    assert forall i :: 1 <= i < |entries| ==> entries[i] == entries[1..][i - 1];
  }

  /** One turn of the dictionary loop on the encoding of one entry. */
  lemma EntryStep(data: seq<byte>, e: Entry, afterKey: seq<byte>, more: seq<byte>, depth: nat, last: Option<seq<byte>>)
    requires data == EncodeBytes(e.key) + afterKey
    requires last.Some? ==> Less(last.value, e.key)
    requires ParseAt(afterKey, depth) == if Fits(e.value, depth) then Good(e.value, more) else Bad
    ensures ParseEntries(data, depth, last)
         == if EntryFits(e, depth) then Prepend([e], ParseEntries(more, depth, Some(e.key))) else Bad
  {
    hide ParseAt, EncodeBytes;
    BytesRoundTrip(e.key, afterKey);
  }

  // ------------------------------------------------- parsing then printing

  /** Whatever the parser accepts is well typed and within its limits. */
  lemma {:induction false} ParsedFits(data: seq<byte>, depth: nat)
    requires ParseAt(data, depth).Good?
    ensures WellTyped(ParseAt(data, depth).value) && Fits(ParseAt(data, depth).value, depth)
    decreases |data|, 0
  {
    if data[0] == CHAR_L {
      ParsedItemsFit(data[1..], depth + 1);
    } else if data[0] == CHAR_D {
      ParsedEntriesFit(data[1..], depth + 1, None);
    }
  }

  lemma {:induction false} ParsedItemsFit(data: seq<byte>, depth: nat)
    requires ParseItems(data, depth).Good?
    ensures forall v :: v in ParseItems(data, depth).value ==> WellTyped(v) && Fits(v, depth)
    decreases |data|, 1
  {
    if data[0] != CHAR_E {
      ParsedFits(data, depth);
      ParsedItemsFit(ParseAt(data, depth).rest, depth);
    }
  }

  lemma {:induction false} ParsedEntriesFit(data: seq<byte>, depth: nat, last: Option<seq<byte>>)
    requires ParseEntries(data, depth, last).Good?
    ensures Ascending(last, ParseEntries(data, depth, last).value)
    ensures forall e :: e in ParseEntries(data, depth, last).value ==> WellTyped(e.value) && EntryFits(e, depth)
    decreases |data|, 1
  {
    if data[0] != CHAR_E {
      var key := ParseBytes(data);
      ParsedFits(key.rest, depth);
      var v := ParseAt(key.rest, depth);
      ParsedEntriesFit(v.rest, depth, Some(key.value));
      var more := ParseEntries(v.rest, depth, Some(key.value)).value;
      assert ([Entry(key.value, v.value)] + more)[1..] == more;
    }
  }

  /** Parsing is a retraction: printing what was parsed and parsing again
      gives the same value, whatever follows. */
  lemma ParseEncodeParse(data: seq<byte>, tail: seq<byte>)
    requires ParseAt(data, 0).Good?
    ensures ParseAt(Encode(ParseAt(data, 0).value) + tail, 0) == Good(ParseAt(data, 0).value, tail)
  {
    ParsedFits(data, 0);
    RoundTrip(ParseAt(data, 0).value, 0, tail);
  }

  // ---------------------------------------------------------------- locality

  /** The bytes a parse consumed. */
  function Consumed<T>(data: seq<byte>, p: Parsed<T>): seq<byte>
    requires p.Good? && |p.rest| <= |data|
  {
    data[..|data| - |p.rest|]
  }

  lemma BytesSuffix(data: seq<byte>)
    requires ParseBytes(data).Good?
    ensures StrictSuffix(ParseBytes(data).rest, data)
  {
  }

  /** Parsing halts with a strict suffix of its input. */
  lemma {:induction false} Suffix(data: seq<byte>, depth: nat)
    requires ParseAt(data, depth).Good?
    ensures StrictSuffix(ParseAt(data, depth).rest, data)
    decreases |data|, 0
  {
    if data[0] == CHAR_L {
      ItemsSuffix(data[1..], depth + 1);
    } else if data[0] == CHAR_D {
      EntriesSuffix(data[1..], depth + 1, None);
    }
  }

  lemma {:induction false} ItemsSuffix(data: seq<byte>, depth: nat)
    requires ParseItems(data, depth).Good?
    ensures StrictSuffix(ParseItems(data, depth).rest, data)
    decreases |data|, 1
  {
    if data[0] != CHAR_E {
      Suffix(data, depth);
      ItemsSuffix(ParseAt(data, depth).rest, depth);
    }
  }

  lemma {:induction false} EntriesSuffix(data: seq<byte>, depth: nat, last: Option<seq<byte>>)
    requires ParseEntries(data, depth, last).Good?
    ensures StrictSuffix(ParseEntries(data, depth, last).rest, data)
    decreases |data|, 1
  {
    if data[0] != CHAR_E {
      var key := ParseBytes(data);
      Suffix(key.rest, depth);
      EntriesSuffix(ParseAt(key.rest, depth).rest, depth, Some(key.value));
    }
  }

  lemma BytesLocal(data: seq<byte>, tail: seq<byte>)
    requires ParseBytes(data).Good?
    ensures ParseBytes(Consumed(data, ParseBytes(data)) + tail) == Good(ParseBytes(data).value, tail)
  {
    var colon := IndexOf(data, COLON);
    var p := ParseBytes(data);
    var other := Consumed(data, p) + tail;
    var len := ParseUnsigned(data[..colon], TWO_64).value;
    assert |Consumed(data, p)| == colon + 1 + len;
    assert IndexOf(other, COLON) == colon by {
      assert other[colon] == COLON;
      assert forall k :: 0 <= k < colon ==> other[k] == data[k];
    }
    assert other[..colon] == data[..colon];
    assert other[colon + 1..colon + 1 + len] == data[colon + 1..colon + 1 + len];
    assert other[colon + 1 + len..] == tail;
  }

  lemma IntegerLocal(data: seq<byte>, tail: seq<byte>)
    requires data != [] && ParseInteger(data).Good?
    ensures ParseInteger(Consumed(data, ParseInteger(data)) + tail) == Good(ParseInteger(data).value, tail)
  {
    var end := IndexOf(data[1..], CHAR_E);
    var other := data[..end + 2] + tail;
    assert IndexOf(other[1..], CHAR_E) == end by {
      assert other[1..][end] == data[1..][end];
      assert forall k :: 0 <= k < end ==> other[1..][k] == data[1..][k];
    }
    assert other[1..end + 1] == data[1..end + 1];
    assert other[end + 2..] == tail;
  }

  lemma DropFirst(data: seq<byte>, n: nat, tail: seq<byte>)
    requires 0 < n <= |data|
    ensures (data[..n] + tail)[1..] == data[1..][..n - 1] + tail
    ensures (data[..n] + tail)[0] == data[0]
  {
  }

  /** A successful parse looked only at what it consumed, and succeeds the
      same way at any smaller depth. */
  lemma {:induction false} Local(data: seq<byte>, depth: nat, shallower: nat, tail: seq<byte>)
    requires ParseAt(data, depth).Good? && shallower <= depth
    ensures ParseAt(Consumed(data, ParseAt(data, depth)) + tail, shallower) == Good(ParseAt(data, depth).value, tail)
    decreases |data|, 0
  {
    hide ParseItems, ParseEntries, ParseBytes, ParseInteger;
    Suffix(data, depth);
    DropFirst(data, |data| - |ParseAt(data, depth).rest|, tail);
    if data[0] == CHAR_I {
      IntegerLocal(data, tail);
    } else if data[0] == CHAR_L {
      ItemsLocal(data[1..], depth + 1, shallower + 1, tail);
    } else if data[0] == CHAR_D {
      EntriesLocal(data[1..], depth + 1, shallower + 1, None, tail);
    } else {
      BytesLocal(data, tail);
    }
  }

  lemma {:induction false} ItemsLocal(data: seq<byte>, depth: nat, shallower: nat, tail: seq<byte>)
    requires ParseItems(data, depth).Good? && shallower <= depth
    ensures ParseItems(Consumed(data, ParseItems(data, depth)) + tail, shallower)
         == Good(ParseItems(data, depth).value, tail)
    decreases |data|, 1
  {
    hide ParseAt;
    if data[0] == CHAR_E {
      DropFirst(data, 1, tail);
    } else {
      var first := ParseAt(data, depth);
      var after := ParseItems(first.rest, depth);
      Suffix(data, depth);
      ItemsSuffix(first.rest, depth);
      Local(data, depth, shallower, Consumed(first.rest, after) + tail);
      ItemsLocal(first.rest, depth, shallower, tail);
      TwoParts(data, first.rest, after.rest, tail);
      SameStart(data, after.rest, tail);
    }
  }

  lemma TwoParts(data: seq<byte>, r1: seq<byte>, r2: seq<byte>, tail: seq<byte>)
    requires StrictSuffix(r1, data) && StrictSuffix(r2, r1)
    ensures data[..|data| - |r2|] + tail == data[..|data| - |r1|] + (r1[..|r1| - |r2|] + tail)
  {
  }

  lemma ThreeParts(data: seq<byte>, r1: seq<byte>, r2: seq<byte>, r3: seq<byte>, tail: seq<byte>)
    requires StrictSuffix(r1, data) && StrictSuffix(r2, r1) && StrictSuffix(r3, r2)
    ensures data[..|data| - |r3|] + tail
         == data[..|data| - |r1|] + (r1[..|r1| - |r2|] + (r2[..|r2| - |r3|] + tail))
  {
  }

  lemma SameStart(data: seq<byte>, rest: seq<byte>, tail: seq<byte>)
    requires StrictSuffix(rest, data)
    ensures (data[..|data| - |rest|] + tail)[0] == data[0]
  {
  }

  lemma {:induction false} EntriesLocal(data: seq<byte>, depth: nat, shallower: nat, last: Option<seq<byte>>, tail: seq<byte>)
    requires ParseEntries(data, depth, last).Good? && shallower <= depth
    ensures ParseEntries(Consumed(data, ParseEntries(data, depth, last)) + tail, shallower, last)
         == Good(ParseEntries(data, depth, last).value, tail)
    decreases |data|, 1
  {
    hide ParseAt, ParseItems, ParseBytes, ParseEntries, StrictSuffix, Less, Prepend;
    assert data != [] by { EntriesStart(data, depth, last); }
    if data[0] == CHAR_E {
      EntriesEnd(data, depth, shallower, last, tail);
    } else {
      EntryParts(data, depth, last);
      var key := ParseBytes(data);
      var v := ParseAt(key.rest, depth);
      var after := ParseEntries(v.rest, depth, Some(key.value));
      PrependGood([Entry(key.value, v.value)], after);
      BytesSuffix(data);
      Suffix(key.rest, depth);
      EntriesSuffix(v.rest, depth, Some(key.value));
      var more := Consumed(v.rest, after) + tail;
      var afterKey := Consumed(key.rest, v) + more;
      var whole := Consumed(data, key) + afterKey;
      BytesLocal(data, afterKey);
      Local(key.rest, depth, shallower, more);
      EntriesLocal(v.rest, depth, shallower, Some(key.value), tail);
      ThreeParts(data, key.rest, v.rest, after.rest, tail);
      SameStart(data, key.rest, afterKey);
      EntryTurn(whole, shallower, last, key.value, afterKey, v.value, more);
      PrependGood([Entry(key.value, v.value)], ParseEntries(more, shallower, Some(key.value)));
    }
  }

  lemma EntriesStart(data: seq<byte>, depth: nat, last: Option<seq<byte>>)
    requires ParseEntries(data, depth, last).Good?
    ensures data != []
  {
  }

  lemma PrependGood<T>(front: seq<T>, p: Parsed<seq<T>>)
    ensures Prepend(front, p).Good? <==> p.Good?
    ensures p.Good? ==> Prepend(front, p) == Good(front + p.value, p.rest)
  {
  }

  lemma EntriesEnd(data: seq<byte>, depth: nat, shallower: nat, last: Option<seq<byte>>, tail: seq<byte>)
    requires data != [] && data[0] == CHAR_E
    ensures ParseEntries(data, depth, last) == Good([], data[1..])
    ensures ParseEntries(data[..1] + tail, shallower, last) == Good([], tail)
  {
    DropFirst(data, 1, tail);
    assert data[1..][..0] + tail == tail;
  }

  /** What the first entry of an accepted dictionary consists of. */
  lemma EntryParts(data: seq<byte>, depth: nat, last: Option<seq<byte>>)
    requires ParseEntries(data, depth, last).Good? && data[0] != CHAR_E
    ensures data != [] && ParseBytes(data).Good? && ParseAt(ParseBytes(data).rest, depth).Good?
    ensures var key := ParseBytes(data); var v := ParseAt(key.rest, depth);
      && (last.Some? ==> Less(last.value, key.value))
      && ParseEntries(data, depth, last)
         == Prepend([Entry(key.value, v.value)], ParseEntries(v.rest, depth, Some(key.value)))
  {
    hide ParseAt, ParseBytes, Less, Prepend;
  }

  /** One turn of the dictionary loop that succeeds. */
  lemma EntryTurn(data: seq<byte>, depth: nat, last: Option<seq<byte>>, key: seq<byte>, afterKey: seq<byte>, v: Value, more: seq<byte>)
    requires data != [] && data[0] != CHAR_E && ParseBytes(data) == Good(key, afterKey)
    requires last.Some? ==> Less(last.value, key)
    requires ParseAt(afterKey, depth) == Good(v, more)
    ensures ParseEntries(data, depth, last) == Prepend([Entry(key, v)], ParseEntries(more, depth, Some(key)))
  {
    hide ParseAt, ParseBytes, Less;
  }

  /** The bytes consumed for a value are, alone, an exact encoding of it. */
  lemma ConsumedIsExact(data: seq<byte>, depth: nat)
    requires ParseAt(data, depth).Good?
    ensures ParseExact(Consumed(data, ParseAt(data, depth))) == Ok(ParseAt(data, depth).value)
  {
    Local(data, depth, 0, []);
    var c := Consumed(data, ParseAt(data, depth));
    assert c + [] == c;
  }
}
