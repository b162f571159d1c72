/** Locating the raw bytes of the top-level `info` dictionary. */
module InfoDict {
  import opened Prelude
  import opened Bencode
  import opened BencodeLaws

  /** The value an ordered dictionary holds for a key. */
  function Lookup(entries: seq<Entry>, key: seq<byte>): (v: Option<Value>)
    ensures v.None? <==> forall i :: 0 <= i < |entries| ==> entries[i].key != key
    ensures v.Some? ==> exists i :: 0 <= i < |entries| && entries[i] == Entry(key, v.value)
  {
    if entries == [] then None
    else if entries[0].key == key then Some(entries[0].value)
    else Lookup(entries[1..], key)
  }

  /** `as_uint` of a value that may be missing. */
  function AsUint(v: Option<Value>): Option<nat> {
    if v.Some? && v.value.Integer? && v.value.n >= 0 then Some(v.value.n) else None
  }

  /** The dictionary a complete input denotes under its top-level `info` key. */
  function RootInfo(data: seq<byte>): Option<Value> {
    match ParseExact(data)
    case Ok(Dict(entries)) =>
      (match Lookup(entries, INFO)
       case Some(Dict(inner)) => Some(Dict(inner))
       case _ => None)
    case _ => None
  }

  /** How the parser divided a complete top-level dictionary: entry `i` has its
      key at `cuts[i]` and its value at `values[i]..cuts[i + 1]`. */
  datatype Layout = Layout(cuts: seq<nat>, values: seq<nat>)

  ghost predicate EntryAt(data: seq<byte>, e: Entry, pos: nat, value: nat, next: nat) {
    && pos < value < next <= |data|
    && data[pos] != CHAR_E
    && ParseBytes(data[pos..]) == Good(e.key, data[value..])
    && ParseAt(data[value..], 1) == Good(e.value, data[next..])
  }

  ghost predicate IsLayout(data: seq<byte>, start: nat, entries: seq<Entry>, l: Layout) {
    && |l.values| == |entries| && |l.cuts| == |entries| + 1
    && l.cuts[0] == start
    && (forall i :: 0 <= i < |entries| ==> EntryAt(data, entries[i], l.cuts[i], l.values[i], l.cuts[i + 1]))
    && l.cuts[|entries|] + 1 == |data|
    && data[|data| - 1] == CHAR_E
  }

  /** Every accepted dictionary has a layout. */
  lemma {:induction false} LayoutOf(data: seq<byte>, start: nat, last: Option<seq<byte>>) returns (l: Layout)
    requires start <= |data|
    requires ParseEntries(data[start..], 1, last).Good? && ParseEntries(data[start..], 1, last).rest == []
    ensures IsLayout(data, start, ParseEntries(data[start..], 1, last).value, l)
    decreases |data| - start
  {
    hide ParseAt, ParseBytes, Encode;
    var here := data[start..];
    if here[0] == CHAR_E {
      assert here[1..] == [];
      l := Layout([start], []);
    } else {
      var key := ParseBytes(here);
      BytesSuffix(here);
      var value := |data| - |key.rest|;
      assert key.rest == data[value..];
      Suffix(key.rest, 1);
      var v := ParseAt(key.rest, 1);
      var next := |data| - |v.rest|;
      assert v.rest == data[next..];
      var more := LayoutOf(data, next, Some(key.value));
      var entries := ParseEntries(v.rest, 1, Some(key.value)).value;
      l := Layout([start] + more.cuts, [value] + more.values);
      assert EntryAt(data, Entry(key.value, v.value), start, value, next);
      Shifted(data, Entry(key.value, v.value), entries, start, value, more);
    }
  }

  lemma Shifted(data: seq<byte>, e: Entry, entries: seq<Entry>, start: nat, value: nat, more: Layout)
    requires |more.cuts| > 0 && EntryAt(data, e, start, value, more.cuts[0])
    requires IsLayout(data, more.cuts[0], entries, more)
    ensures IsLayout(data, start, [e] + entries, Layout([start] + more.cuts, [value] + more.values))
  {
    hide EntryAt;
    var all := [e] + entries;
    var l := Layout([start] + more.cuts, [value] + more.values);
    forall i | 0 <= i < |all|
      ensures EntryAt(data, all[i], l.cuts[i], l.values[i], l.cuts[i + 1])
    {
      if i > 0 {
        assert EntryAt(data, entries[i - 1], more.cuts[i - 1], more.values[i - 1], more.cuts[i]);
      }
    }
  }

  lemma LookupAt(entries: seq<Entry>, key: seq<byte>, i: nat)
    requires i < |entries| && entries[i].key == key
    requires forall k :: 0 <= k < i ==> entries[k].key != key
    ensures Lookup(entries, key) == Some(entries[i].value)
  {
    if i > 0 {
      LookupAt(entries[1..], key, i - 1);
    }
  }

  /** The marker byte of a value tells whether it is a dictionary. */
  lemma DictMarker(data: seq<byte>, depth: nat)
    requires ParseAt(data, depth).Good?
    ensures data != [] && (data[0] == CHAR_D <==> ParseAt(data, depth).value.Dict?)
  {
  }

  /** The span of the top-level `info` value, `[start, end)`. */
  ghost predicate IsInfoSpan(data: seq<byte>, start: nat, end: nat) {
    exists entries: seq<Entry>, l: Layout, i: int ::
      && ParseExact(data) == Ok(Dict(entries)) && IsLayout(data, 1, entries, l)
      && 0 <= i < |entries| && entries[i].key == INFO
      && start == l.values[i] && end == l.cuts[i + 1]
  }

  /** `find_info_dict_bytes`. It succeeds exactly when the root dictionary has
      a dictionary under `info`; the span it returns is what the parser
      consumed for that top-level entry, never a look-alike inside some other
      value; and the span alone is an exact encoding of that dictionary. */
  method FindInfoDictBytes(data: seq<byte>) returns (span: Result<(nat, nat)>)
    ensures span.Ok? <==> RootInfo(data).Some?
    ensures span.Ok? ==>
      var (start, end) := span.value;
      && start < end <= |data|
      && IsInfoSpan(data, start, end)
      && ParseExact(data[start..end]) == Ok(RootInfo(data).value)
  {
    hide ParseAt, ParseBytes, ParseEntries, ParseExact, EntryAt, IsLayout;
    var root := ParseExact(data);
    if root.Err? || !root.value.Dict? || Lookup(root.value.entries, INFO).None? {
      return Err;
    }
    ghost var entries := root.value.entries;
    ghost var l := RootLayout(data);
    LayoutBounds(data, entries, l);
    ghost var k: nat := 0;
    var pos := 1;
    while pos < |data| && data[pos] != CHAR_E
      invariant k <= |entries| && pos == l.cuts[k]
      invariant forall j :: 0 <= j < k ==> entries[j].key != INFO
      decreases |data| - pos
    {
      AtEntry(data, entries, l, k);
      var key := ParseBytes(data[pos..]);
      if key.Bad? { return Err; }
      var isInfo := key.value == INFO;
      var value := |data| - |key.rest|;
      var v := ParseAt(data[value..], 0);
      if v.Bad? { return Err; }
      var next := |data| - |v.rest|;
      if isInfo {
        LookupAt(entries, INFO, k);
        if data[value] != CHAR_D { return Err; }
        return Ok((value, next));
      }
      pos := next;
      k := k + 1;
    }
    if k < |entries| { NotAtEnd(data, entries, l, k); }
    span := Err;
  }

  lemma RootLayout(data: seq<byte>) returns (l: Layout)
    requires ParseExact(data).Ok? && ParseExact(data).value.Dict?
    ensures IsLayout(data, 1, ParseExact(data).value.entries, l)
  {
    DictMarker(data, 0);
    hide ParseEntries, ParseBytes, ParseInteger, ParseItems;
    l := LayoutOf(data, 1, None);
  }

  lemma LayoutBounds(data: seq<byte>, entries: seq<Entry>, l: Layout)
    requires IsLayout(data, 1, entries, l)
    ensures |l.cuts| == |entries| + 1 && |l.values| == |entries| && l.cuts[0] == 1
  {
  }

  /** One turn of the walk: neither step of it can fail. */
  lemma AtEntry(data: seq<byte>, entries: seq<Entry>, l: Layout, k: nat)
    requires IsLayout(data, 1, entries, l) && k <= |entries|
    requires l.cuts[k] < |data| && data[l.cuts[k]] != CHAR_E
    ensures k < |entries| && l.cuts[k] < l.values[k] < l.cuts[k + 1] <= |data|
    ensures ParseBytes(data[l.cuts[k]..]) == Good(entries[k].key, data[l.values[k]..])
    ensures ParseAt(data[l.values[k]..], 0) == Good(entries[k].value, data[l.cuts[k + 1]..])
    ensures data[l.values[k]] == CHAR_D <==> entries[k].value.Dict?
    ensures ParseExact(data[l.values[k]..l.cuts[k + 1]]) == Ok(entries[k].value)
  {
    hide ParseAt, ParseBytes, ParseExact;
    assert EntryAt(data, entries[k], l.cuts[k], l.values[k], l.cuts[k + 1]);
    var tail := data[l.values[k]..];
    Shallower(tail);
    DictMarker(tail, 1);
    ConsumedIsExact(tail, 1);
    assert Consumed(tail, ParseAt(tail, 1)) == data[l.values[k]..l.cuts[k + 1]];
  }

  lemma NotAtEnd(data: seq<byte>, entries: seq<Entry>, l: Layout, k: nat)
    requires IsLayout(data, 1, entries, l) && k < |entries|
    ensures l.cuts[k] < |data| && data[l.cuts[k]] != CHAR_E
  {
    assert EntryAt(data, entries[k], l.cuts[k], l.values[k], l.cuts[k + 1]);
  }

  /** A value accepted inside the root is accepted on its own. */
  lemma Shallower(data: seq<byte>)
    requires ParseAt(data, 1).Good?
    ensures ParseAt(data, 0) == ParseAt(data, 1)
  {
    hide ParseAt;
    Suffix(data, 1);
    var rest := ParseAt(data, 1).rest;
    Local(data, 1, 0, rest);
    assert Consumed(data, ParseAt(data, 1)) + rest == data;
  }
}
