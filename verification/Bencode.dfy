/** The bencode parser and printer (BEP 3, "bencoding") and the walker that
    finds the raw bytes of the top-level `info` dictionary.

    `ParseAt` and `Encode` specify the two directions; the methods below them
    are the loops of the original. A `BTreeMap` is a sequence of entries in
    key order. */
module Bencode {
  import opened Prelude
  import opened Text

  const MAX_STRING_LENGTH: nat := 100 * 1024 * 1024
  const MAX_PARSE_DEPTH: nat := 64

  const COLON: byte := 58
  const CHAR_D: byte := 100
  const CHAR_E: byte := 101
  const CHAR_I: byte := 105
  const CHAR_L: byte := 108
  const INFO: seq<byte> := [105, 110, 102, 111]

  datatype Value =
    | Integer(n: int)
    | Bytes(b: seq<byte>)
    | List(items: seq<Value>)
    | Dict(entries: seq<Entry>)

  datatype Entry = Entry(key: seq<byte>, value: Value)

  /** What a parser returns: a value and the bytes it left, or a failure. */
  datatype Parsed<+T> = Good(value: T, rest: seq<byte>) | Bad

  predicate StrictSuffix(rest: seq<byte>, data: seq<byte>) {
    |rest| < |data| && rest == data[|data| - |rest|..]
  }

  /** Lexicographic order on byte strings, the order of `Vec<u8>`. */
  predicate Less(a: seq<byte>, b: seq<byte>) {
    b != [] && (a == [] || a[0] < b[0] || (a[0] == b[0] && Less(a[1..], b[1..])))
  }

  /** Keys in strictly ascending order, each above `last` if there is one. */
  predicate Ascending(last: Option<seq<byte>>, entries: seq<Entry>)
    decreases |entries|
  {
    entries != [] ==>
      && (last.Some? ==> Less(last.value, entries[0].key))
      && Ascending(Some(entries[0].key), entries[1..])
  }

  /** What the original's types already guarantee of a value. */
  predicate WellTyped(v: Value) {
    match v
    case Integer(n) => -TWO_63 <= n < TWO_63
    case Bytes(_) => true
    case List(items) => forall i :: 0 <= i < |items| ==> WellTyped(items[i])
    case Dict(entries) =>
      && Ascending(None, entries)
      && forall i :: 0 <= i < |entries| ==> WellTyped(entries[i].value)
  }

  /** Within the parser's nesting and string limits when found at `depth`. */
  predicate Fits(v: Value, depth: nat) {
    && depth <= MAX_PARSE_DEPTH
    && match v
       case Integer(_) => true
       case Bytes(b) => |b| <= MAX_STRING_LENGTH
       case List(items) => forall i :: 0 <= i < |items| ==> Fits(items[i], depth + 1)
       case Dict(entries) => forall i :: 0 <= i < |entries| ==> EntryFits(entries[i], depth + 1)
  }

  predicate EntryFits(e: Entry, depth: nat) {
    |e.key| <= MAX_STRING_LENGTH && Fits(e.value, depth)
  }

  // ---------------------------------------------------------------- parsing

  function ParseInteger(data: seq<byte>): (r: Parsed<Value>)
    requires data != []
    ensures r.Good? ==> |r.rest| < |data|
  {
    var end := IndexOf(data[1..], CHAR_E);
    if end == |data| - 1 then Bad else
    var num := data[1..end + 1];
    if |num| > 1 && num[0] == ZERO then Bad
    else if |num| >= 2 && num[0] == MINUS && num[1] == ZERO then Bad
    else match ParseI64(num)
      case None => Bad
      case Some(n) => Good(Integer(n), data[end + 2..])
  }

  function ParseBytes(data: seq<byte>): (r: Parsed<seq<byte>>)
    ensures r.Good? ==> |r.rest| < |data| && |r.value| <= MAX_STRING_LENGTH
  {
    var colon := IndexOf(data, COLON);
    if colon == |data| then Bad else
    match ParseUnsigned(data[..colon], TWO_64)
    case None => Bad
    case Some(len) =>
      if len > MAX_STRING_LENGTH || colon + 1 + len > |data| then Bad
      else Good(data[colon + 1..colon + 1 + len], data[colon + 1 + len..])
  }

  function ParseAt(data: seq<byte>, depth: nat): (r: Parsed<Value>)
    ensures r.Good? ==> |r.rest| < |data|
    decreases |data|, 0
  {
    if depth > MAX_PARSE_DEPTH || data == [] then Bad
    else if data[0] == CHAR_I then ParseInteger(data)
    else if data[0] == CHAR_L then
      match ParseItems(data[1..], depth + 1)
      case Good(items, rest) => Good(List(items), rest)
      case Bad => Bad
    else if data[0] == CHAR_D then
      match ParseEntries(data[1..], depth + 1, None)
      case Good(entries, rest) => Good(Dict(entries), rest)
      case Bad => Bad
    else if IsDigit(data[0]) then
      match ParseBytes(data)
      case Good(b, rest) => Good(Bytes(b), rest)
      case Bad => Bad
    else Bad
  }

  function ParseItems(data: seq<byte>, depth: nat): (r: Parsed<seq<Value>>)
    ensures r.Good? ==> |r.rest| < |data|
    decreases |data|, 1
  {
    if data == [] then Bad
    else if data[0] == CHAR_E then Good([], data[1..])
    else match ParseAt(data, depth)
      case Bad => Bad
      case Good(v, rest) => Prepend([v], ParseItems(rest, depth))
  }

  function ParseEntries(data: seq<byte>, depth: nat, last: Option<seq<byte>>): (r: Parsed<seq<Entry>>)
    ensures r.Good? ==> |r.rest| < |data|
    decreases |data|, 1
  {
    if data == [] then Bad
    else if data[0] == CHAR_E then Good([], data[1..])
    else match ParseBytes(data)
      case Bad => Bad
      case Good(key, afterKey) =>
        if last.Some? && !Less(last.value, key) then Bad else
        match ParseAt(afterKey, depth)
        case Bad => Bad
        case Good(v, rest) => Prepend([Entry(key, v)], ParseEntries(rest, depth, Some(key)))
  }

  function Prepend<T>(front: seq<T>, p: Parsed<seq<T>>): Parsed<seq<T>> {
    match p
    case Good(more, rest) => Good(front + more, rest)
    case Bad => Bad
  }

  lemma PrependNothing<T>(p: Parsed<seq<T>>)
    ensures Prepend([], p) == p
  {
    assert p.Good? ==> [] + p.value == p.value;
  }

  lemma PrependTwice<T>(a: seq<T>, b: seq<T>, p: Parsed<seq<T>>)
    ensures Prepend(a, Prepend(b, p)) == Prepend(a + b, p)
  {
    assert p.Good? ==> a + (b + p.value) == a + b + p.value;
  }

  function ParseExact(data: seq<byte>): Result<Value> {
    match ParseAt(data, 0)
    case Good(v, rest) => if rest == [] then Ok(v) else Err
    case Bad => Err
  }

  /** `parse_at_depth`, with the loops of `parse_list` and `parse_dict`. */
  method ParseAtDepth(data: seq<byte>, depth: nat) returns (r: Parsed<Value>)
    ensures r == ParseAt(data, depth)
    decreases |data|, 0
  {
    if depth > MAX_PARSE_DEPTH || data == [] {
      r := Bad;
    } else if data[0] == CHAR_I {
      r := ParseInteger(data);
    } else if data[0] == CHAR_L {
      r := ParseList(data, depth);
    } else if data[0] == CHAR_D {
      r := ParseDict(data, depth);
    } else if IsDigit(data[0]) {
      var b := ParseBytes(data);
      r := if b.Good? then Good(Bytes(b.value), b.rest) else Bad;
    } else {
      r := Bad;
    }
  }

  method ParseList(data: seq<byte>, depth: nat) returns (r: Parsed<Value>)
    requires depth <= MAX_PARSE_DEPTH && data != [] && data[0] == CHAR_L
    ensures r == ParseAt(data, depth)
    decreases |data|, 0, 0
  {
    var items: seq<Value> := [];
    var remaining := data[1..];
    PrependNothing(ParseItems(remaining, depth + 1));
    while remaining != [] && remaining[0] != CHAR_E
      invariant |remaining| < |data|
      invariant ParseItems(data[1..], depth + 1) == Prepend(items, ParseItems(remaining, depth + 1))
      decreases |remaining|
    {
      var one := ParseAtDepth(remaining, depth + 1);
      if one.Bad? { return Bad; }
      PrependTwice(items, [one.value], ParseItems(one.rest, depth + 1));
      items := items + [one.value];
      remaining := one.rest;
    }
    if remaining == [] { return Bad; }
    assert items + [] == items;
    r := Good(List(items), remaining[1..]);
  }

  method ParseDict(data: seq<byte>, depth: nat) returns (r: Parsed<Value>)
    requires depth <= MAX_PARSE_DEPTH && data != [] && data[0] == CHAR_D
    ensures r == ParseAt(data, depth)
    decreases |data|, 0, 0
  {
    var items: seq<Entry> := [];
    var remaining := data[1..];
    var lastKey: Option<seq<byte>> := None;
    PrependNothing(ParseEntries(remaining, depth + 1, None));
    while remaining != [] && remaining[0] != CHAR_E
      invariant |remaining| < |data|
      invariant ParseEntries(data[1..], depth + 1, None)
             == Prepend(items, ParseEntries(remaining, depth + 1, lastKey))
      decreases |remaining|
    {
      var key := ParseBytes(remaining);
      if key.Bad? || (lastKey.Some? && !Less(lastKey.value, key.value)) { return Bad; }
      var one := ParseAtDepth(key.rest, depth + 1);
      if one.Bad? { return Bad; }
      var entry := Entry(key.value, one.value);
      PrependTwice(items, [entry], ParseEntries(one.rest, depth + 1, Some(key.value)));
      lastKey := Some(key.value);
      items := items + [entry];
      remaining := one.rest;
    }
    if remaining == [] { return Bad; }
    assert items + [] == items;
    r := Good(Dict(items), remaining[1..]);
  }

  // --------------------------------------------------------------- printing

  function EncodeBytes(b: seq<byte>): (s: seq<byte>)
  {
    Digits(|b|) + [COLON] + b
  }

  function Encode(v: Value): seq<byte> {
    match v
    case Integer(n) => [CHAR_I] + SignedDigits(n) + [CHAR_E]
    case Bytes(b) => EncodeBytes(b)
    case List(items) => [CHAR_L] + EncodeItems(items) + [CHAR_E]
    case Dict(entries) => [CHAR_D] + EncodeEntries(entries) + [CHAR_E]
  }

  function EncodeItems(items: seq<Value>): seq<byte> {
    if items == [] then [] else Encode(items[0]) + EncodeItems(items[1..])
  }

  function EncodeEntries(entries: seq<Entry>): seq<byte> {
    if entries == [] then []
    else EncodeEntry(entries[0]) + EncodeEntries(entries[1..])
  }

  function EncodeEntry(e: Entry): seq<byte> {
    EncodeBytes(e.key) + Encode(e.value)
  }

  /** The growing `Vec<u8>` that `encode_to` appends to. */
  class Buffer {
    var bytes: seq<byte>

    constructor ()
      ensures bytes == []
    {
      bytes := [];
    }

    method EncodeTo(v: Value)
      modifies this
      ensures bytes == old(bytes) + Encode(v)
      decreases v
    {
      match v {
        case Integer(n) =>
          bytes := bytes + [CHAR_I];
          bytes := bytes + SignedDigits(n);
          bytes := bytes + [CHAR_E];
        case Bytes(b) =>
          bytes := bytes + Digits(|b|);
          bytes := bytes + [COLON];
          bytes := bytes + b;
        case List(items) => EncodeList(items);
        case Dict(entries) => EncodeDict(entries);
      }
    }

    method EncodeList(items: seq<Value>)
      modifies this
      ensures bytes == old(bytes) + Encode(List(items))
      decreases items, 0
    {
      hide *;
      ghost var start := bytes;
      bytes := bytes + [CHAR_L];
      for i := 0 to |items|
        invariant bytes + EncodeItems(items[i..]) == start + [CHAR_L] + EncodeItems(items)
      {
        ghost var before := bytes;
        EncodeTo(items[i]);
        EncodeItemsFrom(items, i, before);
      }
      EncodeListEnd(items, start, bytes);
      bytes := bytes + [CHAR_E];
    }

    method EncodeDict(entries: seq<Entry>)
      modifies this
      ensures bytes == old(bytes) + Encode(Dict(entries))
      decreases entries, 0
    {
      hide *;
      ghost var start := bytes;
      bytes := bytes + [CHAR_D];
      for i := 0 to |entries|
        invariant bytes + EncodeEntries(entries[i..]) == start + [CHAR_D] + EncodeEntries(entries)
      {
        ghost var before := bytes;
        EncodePair(entries[i]);
        EncodeEntriesFrom(entries, i, before);
      }
      EncodeDictEnd(entries, start, bytes);
      bytes := bytes + [CHAR_E];
    }

    method EncodePair(e: Entry)
      modifies this
      ensures bytes == old(bytes) + EncodeEntry(e)
      decreases e
    {
      hide *;
      ghost var start := bytes;
      bytes := bytes + Digits(|e.key|);
      bytes := bytes + [COLON];
      bytes := bytes + e.key;
      EncodeTo(e.value);
      EncodePairEnd(e, start);
    }
  }

  lemma EncodeItemsFrom(items: seq<Value>, i: nat, done: seq<byte>)
    requires i < |items|
    ensures done + EncodeItems(items[i..]) == done + Encode(items[i]) + EncodeItems(items[i + 1..])
  {
    hide Encode;
    assert items[i..][1..] == items[i + 1..];
  }

  lemma Close(open: byte, body: seq<byte>, start: seq<byte>, done: seq<byte>)
    requires done + [] == start + [open] + body
    ensures done + [CHAR_E] == start + ([open] + body + [CHAR_E])
  {
    assert done + [] == done;
  }

  lemma EncodeListEnd(items: seq<Value>, start: seq<byte>, done: seq<byte>)
    requires done + EncodeItems(items[|items|..]) == start + [CHAR_L] + EncodeItems(items)
    ensures done + [CHAR_E] == start + Encode(List(items))
  {
    assert EncodeItems(items[|items|..]) == [];
    Close(CHAR_L, EncodeItems(items), start, done);
  }

  lemma EncodeEntriesFrom(entries: seq<Entry>, i: nat, done: seq<byte>)
    requires i < |entries|
    ensures done + EncodeEntries(entries[i..])
         == done + EncodeEntry(entries[i]) + EncodeEntries(entries[i + 1..])
  {
    hide EncodeEntry;
    assert entries[i..][1..] == entries[i + 1..];
  }

  lemma EncodeDictEnd(entries: seq<Entry>, start: seq<byte>, done: seq<byte>)
    requires done + EncodeEntries(entries[|entries|..]) == start + [CHAR_D] + EncodeEntries(entries)
    ensures done + [CHAR_E] == start + Encode(Dict(entries))
  {
    assert EncodeEntries(entries[|entries|..]) == [];
    Close(CHAR_D, EncodeEntries(entries), start, done);
  }

  lemma EncodePairEnd(e: Entry, start: seq<byte>)
    ensures start + Digits(|e.key|) + [COLON] + e.key + Encode(e.value) == start + EncodeEntry(e)
  {
    hide Digits, Encode;
  }
}
