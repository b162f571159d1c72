/** Magnet URIs: the info hash, parsing and printing. */
module Magnet {
  import opened Prelude
  import opened Text
  import opened MagnetCodec

  const SCHEME: seq<byte> := [109, 97, 103, 110, 101, 116, 58, 63]
  const URN_BTIH: seq<byte> := [117, 114, 110, 58, 98, 116, 105, 104, 58]
  const XT: seq<byte> := [120, 116]
  const DN: seq<byte> := [100, 110]
  const TR: seq<byte> := [116, 114]
  const WS: seq<byte> := [119, 115]
  const XL: seq<byte> := [120, 108]
  const XS: seq<byte> := [120, 115]
  const KT: seq<byte> := [107, 116]
  const AS: seq<byte> := [97, 115]
  const MT: seq<byte> := [109, 116]

  // -------------------------------------------------------------- info hash

  function HexPair(a: byte, b: byte): Option<byte> {
    if a == PLUS then HexValue(b)
    else if HexValue(a).Some? && HexValue(b).Some? then Some(HexValue(a).value * 16 + HexValue(b).value)
    else None
  }

  /** `from_str_radix` on each pair, dropping the pairs it refuses. */
  function HexBytes(s: seq<byte>): seq<byte> {
    if |s| < 2 then [] else
    (if HexPair(s[0], s[1]).Some? then [HexPair(s[0], s[1]).value] else []) + HexBytes(s[2..])
  }

  function ParseBtih(xt: seq<byte>): Option<seq<byte>> {
    if !(URN_BTIH <= xt) then None else
    var hash := xt[|URN_BTIH|..];
    if !Ascii(hash) then None
    else if |hash| == 40 then (if |HexBytes(hash)| == 20 then Some(HexBytes(hash)) else None)
    else if |hash| == 32 then Base32Decode(hash)
    else None
  }

  /** Every pair of characters gives a byte, and these bytes are `hash`. */
  predicate PairsGive(s: seq<byte>, hash: seq<byte>) {
    |s| == 2 * |hash| && forall k :: 0 <= k < |hash| ==> HexPair(s[2 * k], s[2 * k + 1]) == Some(hash[k])
  }

  lemma {:induction false} HexBytesBound(s: seq<byte>)
    ensures 2 * |HexBytes(s)| <= |s|
    decreases |s|
  {
    if |s| >= 2 { HexBytesBound(s[2..]); }
  }

  /** No pair is dropped exactly when all give a byte. */
  lemma {:induction false} PairsExactly(s: seq<byte>, hash: seq<byte>)
    requires |s| == 2 * |hash|
    ensures HexBytes(s) == hash <==> PairsGive(s, hash)
    decreases |s|
  {
    if s != [] {
      PairsExactly(s[2..], hash[1..]);
      HexBytesBound(s[2..]);
      hide HexPair;
      if PairsGive(s, hash) {
        forall k | 0 <= k < |hash| - 1 ensures HexPair(s[2..][2 * k], s[2..][2 * k + 1]) == Some(hash[1..][k]) {
          assert HexPair(s[2 * (k + 1)], s[2 * (k + 1) + 1]) == Some(hash[k + 1]);
        }
        assert HexPair(s[2 * 0], s[2 * 0 + 1]) == Some(hash[0]);
        assert hash == [hash[0]] + hash[1..];
      }
      if HexBytes(s) == hash { FirstPair(s, hash); }
    }
  }

  lemma FirstPair(s: seq<byte>, hash: seq<byte>)
    requires |s| == 2 * |hash| && s != [] && HexBytes(s) == hash
    requires HexBytes(s[2..]) == hash[1..] ==> PairsGive(s[2..], hash[1..])
    ensures PairsGive(s, hash)
  {
    HexBytesBound(s[2..]);
    hide HexPair;
    assert HexBytes(s)[1..] == HexBytes(s[2..]);
    forall k | 0 <= k < |hash| ensures HexPair(s[2 * k], s[2 * k + 1]) == Some(hash[k]) {
      if k > 0 {
        assert HexPair(s[2..][2 * (k - 1)], s[2..][2 * (k - 1) + 1]) == Some(hash[1..][k - 1]);
      }
    }
  }

  /** A pair is two hex digits, or a plus sign and one. */
  lemma PairExactly(a: byte, b: byte, v: byte)
    ensures HexPair(a, b) == Some(v) <==>
      || (a == PLUS && HexValue(b) == Some(v))
      || (HexValue(a).Some? && HexValue(b).Some? && v == HexValue(a).value * 16 + HexValue(b).value)
  {
  }

  /** A topic names a hash in one of two ways, by the number of its characters:
      40 give it in hex, 32 in base 32. Nothing else is a topic. */
  lemma TopicExactly(text: seq<byte>, hash: seq<byte>)
    ensures ParseBtih(URN_BTIH + text) == Some(hash) <==>
      |hash| == 20 && (PairsGive(text, hash) || Base32Decode(text) == Some(hash))
    ensures forall xt :: !(URN_BTIH <= xt) ==> ParseBtih(xt) == None
  {
    assert (URN_BTIH + text)[|URN_BTIH|..] == text;
    hide HexPair, Base32Decode;
    if |text| == 40 && |hash| == 20 { PairsExactly(text, hash); }
    if PairsGive(text, hash) { PairsAreAscii(text, hash); }
    if Base32Decode(text) == Some(hash) { Base32IsAscii(text); }
  }

  lemma PairsAreAscii(s: seq<byte>, hash: seq<byte>)
    requires PairsGive(s, hash)
    ensures Ascii(s)
  {
    forall k | 0 <= k < |s| ensures s[k] < 0x80 {
      assert HexPair(s[2 * (k / 2)], s[2 * (k / 2) + 1]) == Some(hash[k / 2]);
    }
  }

  lemma Base32IsAscii(s: seq<byte>)
    requires IsBase32(s)
    ensures Ascii(s)
  {
  }

  /** `info_hash_hex`. */
  function Hex(s: seq<byte>): (h: seq<byte>)
    ensures |h| == 2 * |s|
    ensures forall k :: 0 <= k < |h| ==> HexValue(h[k]).Some? && h[k] < 0x80 && h[k] !in {PERCENT, PLUS, AMPERSAND, EQUALS}
  {
    if s == [] then [] else [LowerHex(s[0] / 16), LowerHex(s[0] % 16)] + Hex(s[1..])
  }

  lemma {:induction false} HexRoundTrip(s: seq<byte>)
    ensures HexBytes(Hex(s)) == s
    decreases |s|
  {
    if s != [] {
      HexRoundTrip(s[1..]);
      assert HexValue(LowerHex(s[0] / 16)) == Some(s[0] / 16) && HexValue(LowerHex(s[0] % 16)) == Some(s[0] % 16);
      assert Hex(s)[2..] == Hex(s[1..]);
      assert s == [s[0]] + s[1..];
    }
  }

  lemma BtihRoundTrip(hash: seq<byte>)
    requires |hash| == 20
    ensures ParseBtih(URN_BTIH + Hex(hash)) == Some(hash)
  {
    var xt := URN_BTIH + Hex(hash);
    assert xt[|URN_BTIH|..] == Hex(hash) && URN_BTIH <= xt;
    HexRoundTrip(hash);
  }

  // ---------------------------------------------------- parsing and printing

  datatype MagnetUri = MagnetUri(
    infoHash: seq<byte>,
    displayName: Option<seq<byte>>,
    trackers: seq<seq<byte>>,
    webSeeds: seq<seq<byte>>,
    exactLength: Option<nat>,
    exactSource: Option<seq<byte>>,
    keywordTopic: Option<seq<byte>>,
    acceptableSources: seq<seq<byte>>,
    manifestTopic: Option<seq<byte>>)

  /** What the original's types guarantee: a 20-byte hash, a `u64` length and
      UTF-8 strings. */
  predicate WellTyped(m: MagnetUri) {
    && |m.infoHash| == 20
    && (m.exactLength.Some? ==> m.exactLength.value < TWO_64)
    && (m.displayName.Some? ==> ValidUtf8(m.displayName.value))
    && (m.exactSource.Some? ==> ValidUtf8(m.exactSource.value))
    && (forall s :: s in m.trackers ==> ValidUtf8(s))
    && (forall s :: s in m.webSeeds ==> ValidUtf8(s))
  }

  /** The fields found so far; no hash yet is the empty hash. */
  function NoFields(): MagnetUri { MagnetUri([], None, [], [], None, None, None, [], None) }

  function NonEmpty(s: seq<byte>): seq<seq<byte>> { if s == [] then [] else [s] }

  /** What a parameter with this key and decoded value changes. */
  function Assign(m: MagnetUri, key: seq<byte>, value: seq<byte>): MagnetUri {
    if key == XT then (if ParseBtih(value).Some? then m.(infoHash := ParseBtih(value).value) else m)
    else if key == DN then m.(displayName := Some(value))
    else if key == TR then m.(trackers := m.trackers + NonEmpty(value))
    else if key == WS then m.(webSeeds := m.webSeeds + NonEmpty(value))
    else if key == XL then m.(exactLength := ParseUnsigned(value, TWO_64))
    else if key == XS then m.(exactSource := Some(value))
    else if key == KT then m.(keywordTopic := Some(value))
    else if key == AS then m.(acceptableSources := m.acceptableSources + NonEmpty(value))
    else if key == MT then m.(manifestTopic := Some(value))
    else m
  }

  /** Which key sets which field, and that a list ignores empty values: no key
      touches the field of another. */
  lemma AssignExactly(m: MagnetUri, key: seq<byte>, value: seq<byte>)
    ensures var r := Assign(m, key, value);
      && r.infoHash == (if key == XT && ParseBtih(value).Some? then ParseBtih(value).value else m.infoHash)
      && r.displayName == (if key == DN then Some(value) else m.displayName)
      && r.trackers == (if key == TR && value != [] then m.trackers + [value] else m.trackers)
      && r.webSeeds == (if key == WS && value != [] then m.webSeeds + [value] else m.webSeeds)
      && r.exactLength == (if key == XL then ParseUnsigned(value, TWO_64) else m.exactLength)
      && r.exactSource == (if key == XS then Some(value) else m.exactSource)
      && r.keywordTopic == (if key == KT then Some(value) else m.keywordTopic)
      && r.acceptableSources == (if key == AS && value != [] then m.acceptableSources + [value] else m.acceptableSources)
      && r.manifestTopic == (if key == MT then Some(value) else m.manifestTopic)
  {
    hide ParseBtih, ParseUnsigned;
  }

  /** One `key=value` parameter. */
  function Apply(m: MagnetUri, param: seq<byte>, lossy: seq<byte> -> seq<byte>): MagnetUri {
    var eq := IndexOf(param, EQUALS);
    if eq == |param| then m else Assign(m, param[..eq], UrlDecode(param[eq + 1..], lossy))
  }

  function ApplyAll(m: MagnetUri, params: seq<seq<byte>>, lossy: seq<byte> -> seq<byte>): MagnetUri
    decreases |params|
  {
    if params == [] then m else ApplyAll(Apply(m, params[0], lossy), params[1..], lossy)
  }

  function Parse(uri: seq<byte>, lossy: seq<byte> -> seq<byte>): Result<MagnetUri> {
    if !(SCHEME <= uri) then Err else
    var m := ApplyAll(NoFields(), Split(uri[|SCHEME|..], AMPERSAND), lossy);
    if m.infoHash == [] then Err else Ok(m)
  }

  /** `MagnetUri::parse`. */
  method ParseUri(uri: seq<byte>, lossy: seq<byte> -> seq<byte>) returns (r: Result<MagnetUri>)
    ensures r == Parse(uri, lossy)
  {
    hide Apply;
    if !(SCHEME <= uri) { return Err; }
    var params := Split(uri[|SCHEME|..], AMPERSAND);
    var m := NoFields();
    for i := 0 to |params|
      invariant ApplyAll(m, params[i..], lossy) == ApplyAll(NoFields(), params, lossy)
    {
      assert params[i..][1..] == params[i + 1..];
      m := ApplyParam(m, params[i], lossy);
    }
    if m.infoHash == [] { return Err; }
    r := Ok(m);
  }

  method ApplyParam(m: MagnetUri, param: seq<byte>, lossy: seq<byte> -> seq<byte>) returns (r: MagnetUri)
    ensures r == Apply(m, param, lossy)
  {
    r := m;
    if param == [] { return; }
    var eq := IndexOf(param, EQUALS);
    if eq == |param| { return; }
    var decoded := UrlDecodeLoop(param[eq + 1..]);
    var value := if ValidUtf8(decoded) then decoded else lossy(decoded);
    r := Assign(m, param[..eq], value);
  }

  function Param(key: seq<byte>, value: seq<byte>): seq<byte> { key + [EQUALS] + value }

  function Params(key: seq<byte>, values: seq<seq<byte>>): (ps: seq<seq<byte>>)
    ensures |ps| == |values|
    ensures forall k :: 0 <= k < |ps| ==> ps[k] == Param(key, Escape(values[k]))
  {
    if values == [] then [] else [Param(key, Escape(values[0]))] + Params(key, values[1..])
  }

  function Maybe(key: seq<byte>, value: Option<seq<byte>>): seq<seq<byte>> {
    if value.Some? then [Param(key, value.value)] else []
  }

  function EscapedOption(s: Option<seq<byte>>): Option<seq<byte>> {
    if s.Some? then Some(Escape(s.value)) else None
  }

  /** The parameters `to_uri` prints, in order. */
  function PrintedParams(m: MagnetUri): seq<seq<byte>> {
    [Param(XT, URN_BTIH + Hex(m.infoHash))]
    + Maybe(DN, EscapedOption(m.displayName))
    + Params(TR, m.trackers)
    + Params(WS, m.webSeeds)
    + Maybe(XL, if m.exactLength.Some? then Some(Digits(m.exactLength.value)) else None)
    + Maybe(XS, EscapedOption(m.exactSource))
  }

  function ToUri(m: MagnetUri): seq<byte> { SCHEME + Join(PrintedParams(m), AMPERSAND) }

  lemma {:induction false} JoinMore(parts: seq<seq<byte>>, more: seq<byte>)
    requires parts != []
    ensures Join(parts + [more], AMPERSAND) == Join(parts, AMPERSAND) + [AMPERSAND] + more
    decreases |parts|
  {
    if |parts| > 1 {
      JoinMore(parts[1..], more);
      assert (parts + [more])[1..] == parts[1..] + [more];
    } else {
      assert (parts + [more])[1..] == [more];
    }
  }

  lemma ParamsFrom(key: seq<byte>, values: seq<seq<byte>>, i: nat, done: seq<seq<byte>>)
    requires i < |values|
    ensures done + Params(key, values[i..]) == done + [Param(key, Escape(values[i]))] + Params(key, values[i + 1..])
  {
    assert values[i..][1..] == values[i + 1..];
  }

  lemma ParamsEnds(key: seq<byte>, values: seq<seq<byte>>, start: seq<seq<byte>>)
    ensures values[0..] == values
    ensures forall done: seq<seq<byte>> :: done + Params(key, values[|values|..]) == done
  {
  }

  /** The string `to_uri` is building. */
  class Printer {
    var uri: seq<byte>
    ghost var parts: seq<seq<byte>>

    ghost predicate Valid()
      reads this
    {
      parts != [] && uri == SCHEME + Join(parts, AMPERSAND)
    }

    constructor (hash: seq<byte>)
      ensures Valid() && parts == [Param(XT, URN_BTIH + Hex(hash))]
    {
      uri := SCHEME + XT + [EQUALS] + URN_BTIH + Hex(hash);
      parts := [Param(XT, URN_BTIH + Hex(hash))];
    }

    method Push(key: seq<byte>, value: seq<byte>)
      requires Valid()
      modifies this
      ensures Valid() && parts == old(parts) + [Param(key, value)]
    {
      JoinMore(parts, Param(key, value));
      uri := uri + ([AMPERSAND] + key + [EQUALS]);
      uri := uri + value;
      parts := parts + [Param(key, value)];
    }

    method PushAll(key: seq<byte>, values: seq<seq<byte>>)
      requires Valid()
      modifies this
      ensures Valid() && parts == old(parts) + Params(key, values)
    {
      hide *;
      ghost var start := parts;
      ParamsEnds(key, values, start);
      for i := 0 to |values|
        invariant Valid() && parts + Params(key, values[i..]) == start + Params(key, values)
      {
        ParamsFrom(key, values, i, parts);
        var escaped := UrlEncodeLoop(values[i]);
        Push(key, escaped);
      }
    }
  }

  /** `to_uri`. */
  method PrintUri(m: MagnetUri) returns (uri: seq<byte>)
    ensures uri == ToUri(m)
  {
    hide Join, Hex, Params, Digits, Escape;
    var p := new Printer(m.infoHash);
    if m.displayName.Some? {
      var name := UrlEncodeLoop(m.displayName.value);
      p.Push(DN, name);
    }
    p.PushAll(TR, m.trackers);
    p.PushAll(WS, m.webSeeds);
    if m.exactLength.Some? { p.Push(XL, Digits(m.exactLength.value)); }
    if m.exactSource.Some? {
      var source := UrlEncodeLoop(m.exactSource.value);
      p.Push(XS, source);
    }
    assert p.parts == PrintedParams(m);
    uri := p.uri;
  }

  // ------------------------------------------------------------- round trip

  function NonEmpties(values: seq<seq<byte>>): seq<seq<byte>> {
    if values == [] then [] else NonEmpty(values[0]) + NonEmpties(values[1..])
  }

  /** What a printed magnet still says: empty tracker and web-seed strings and
      the fields `to_uri` does not print are gone. */
  function Restored(m: MagnetUri): MagnetUri {
    MagnetUri(m.infoHash, m.displayName, NonEmpties(m.trackers), NonEmpties(m.webSeeds),
              m.exactLength, m.exactSource, None, [], None)
  }

  predicate Clean(params: seq<seq<byte>>) { forall k :: 0 <= k < |params| ==> AMPERSAND !in params[k] }

  lemma {:induction false} ApplyAllInTurn(m: MagnetUri, a: seq<seq<byte>>, b: seq<seq<byte>>, lossy: seq<byte> -> seq<byte>)
    ensures ApplyAll(m, a + b, lossy) == ApplyAll(ApplyAll(m, a, lossy), b, lossy)
    decreases |a|
  {
    hide Apply;
    if a == [] {
      assert a + b == b;
    } else {
      assert (a + b)[1..] == a[1..] + b;
      ApplyAllInTurn(Apply(m, a[0], lossy), a[1..], b, lossy);
    }
  }

  lemma ApplyOne(m: MagnetUri, key: seq<byte>, value: seq<byte>, lossy: seq<byte> -> seq<byte>)
    requires EQUALS !in key
    ensures Apply(m, Param(key, value), lossy) == Assign(m, key, UrlDecode(value, lossy))
    ensures ApplyAll(m, [Param(key, value)], lossy) == Apply(m, Param(key, value), lossy)
  {
    hide Assign, UrlDecode;
    var p := Param(key, value);
    IndexOfAt(key, EQUALS, value);
    assert p[..|key|] == key && p[|key| + 1..] == value;
    var one: seq<seq<byte>> := [p];
    assert one[1..] == [];
    ApplyNothing(Apply(m, p, lossy), lossy);
  }

  lemma ApplyEscaped(m: MagnetUri, key: seq<byte>, value: seq<byte>, lossy: seq<byte> -> seq<byte>)
    requires EQUALS !in key && ValidUtf8(value)
    ensures ApplyAll(m, [Param(key, Escape(value))], lossy) == Assign(m, key, value)
  {
    hide Assign, Apply, UrlDecode, Escape, ApplyAll;
    ApplyOne(m, key, Escape(value), lossy);
    UrlRoundTrip(value, lossy);
  }

  /** An unescaped value of plain ASCII text arrives as it is. */
  lemma ApplyPlain(m: MagnetUri, key: seq<byte>, value: seq<byte>, lossy: seq<byte> -> seq<byte>)
    requires EQUALS !in key && Ascii(value) && PERCENT !in value && PLUS !in value
    ensures ApplyAll(m, [Param(key, value)], lossy) == Assign(m, key, value)
  {
    hide Assign, Apply, ApplyAll;
    ApplyOne(m, key, value, lossy);
    UnescapePlain(value);
    AsciiIsUtf8(value);
  }

  lemma KeysAreClean()
    ensures EQUALS !in TR && EQUALS !in WS
  {
  }

  lemma ParamsStep(key: seq<byte>, values: seq<seq<byte>>)
    ensures values == [] ==> Params(key, values) == [] && NonEmpties(values) == []
    ensures values != [] ==> Params(key, values) == [Param(key, Escape(values[0]))] + Params(key, values[1..])
  {
  }

  lemma FirstNonEmpty(values: seq<seq<byte>>)
    requires values != []
    ensures NonEmpties(values) == (if values[0] == [] then [] else [values[0]]) + NonEmpties(values[1..])
  {
  }

  lemma OneTracker(m: MagnetUri, values: seq<seq<byte>>)
    requires values != []
    ensures var m1 := Assign(m, TR, values[0]);
      m1.(trackers := m1.trackers + NonEmpties(values[1..])) == m.(trackers := m.trackers + NonEmpties(values))
  {
    hide NonEmpties;
    FirstNonEmpty(values);
  }

  lemma {:induction false} ApplyTrackers(m: MagnetUri, values: seq<seq<byte>>, lossy: seq<byte> -> seq<byte>)
    requires forall s :: s in values ==> ValidUtf8(s)
    ensures ApplyAll(m, Params(TR, values), lossy) == m.(trackers := m.trackers + NonEmpties(values))
    decreases |values|
  {
    hide *;
    ParamsStep(TR, values);
    if values == [] {
      ApplyNothing(m, lossy);
      assert m.trackers + NonEmpties(values) == m.trackers;
    } else {
      KeysAreClean();
      ApplyEscaped(m, TR, values[0], lossy);
      ApplyAllInTurn(m, [Param(TR, Escape(values[0]))], Params(TR, values[1..]), lossy);
      ApplyTrackers(Assign(m, TR, values[0]), values[1..], lossy);
      OneTracker(m, values);
    }
  }

  lemma OneWebSeed(m: MagnetUri, values: seq<seq<byte>>)
    requires values != []
    ensures var m1 := Assign(m, WS, values[0]);
      m1.(webSeeds := m1.webSeeds + NonEmpties(values[1..])) == m.(webSeeds := m.webSeeds + NonEmpties(values))
  {
    hide NonEmpties;
    FirstNonEmpty(values);
  }

  lemma {:induction false} ApplyWebSeeds(m: MagnetUri, values: seq<seq<byte>>, lossy: seq<byte> -> seq<byte>)
    requires forall s :: s in values ==> ValidUtf8(s)
    ensures ApplyAll(m, Params(WS, values), lossy) == m.(webSeeds := m.webSeeds + NonEmpties(values))
    decreases |values|
  {
    hide *;
    ParamsStep(WS, values);
    if values == [] {
      ApplyNothing(m, lossy);
      assert m.webSeeds + NonEmpties(values) == m.webSeeds;
    } else {
      KeysAreClean();
      ApplyEscaped(m, WS, values[0], lossy);
      ApplyAllInTurn(m, [Param(WS, Escape(values[0]))], Params(WS, values[1..]), lossy);
      ApplyWebSeeds(Assign(m, WS, values[0]), values[1..], lossy);
      OneWebSeed(m, values);
    }
  }

  lemma ApplyNothing(m: MagnetUri, lossy: seq<byte> -> seq<byte>)
    ensures ApplyAll(m, [], lossy) == m
  {
  }

  lemma PlainText(hash: seq<byte>, n: nat)
    ensures var s := URN_BTIH + Hex(hash); Ascii(s) && PERCENT !in s && PLUS !in s && AMPERSAND !in s
    ensures var s := Digits(n); Ascii(s) && PERCENT !in s && PLUS !in s && AMPERSAND !in s
  {
    hide Hex, Digits;
    assert forall c :: c in URN_BTIH ==> c < 0x80 && c !in {PERCENT, PLUS, AMPERSAND};
    assert forall k :: 0 <= k < |Digits(n)| ==> IsDigit(Digits(n)[k]);
  }

  lemma ParamClean(key: seq<byte>, value: seq<byte>)
    requires AMPERSAND !in key && AMPERSAND !in value
    ensures AMPERSAND !in Param(key, value)
  {
  }

  lemma PrintedParamsClean(m: MagnetUri)
    ensures Clean(PrintedParams(m))
  {
    forall p | p in PrintedParams(m) ensures AMPERSAND !in p {
      PrintedParamClean(m, p);
    }
  }

  lemma PrintedParamClean(m: MagnetUri, p: seq<byte>)
    requires p in PrintedParams(m)
    ensures AMPERSAND !in p
  {
    hide Param, Escape, Hex, Digits;
    var tr, ws := Params(TR, m.trackers), Params(WS, m.webSeeds);
    PlainText(m.infoHash, if m.exactLength.Some? then m.exactLength.value else 0);
    if p == Param(XT, URN_BTIH + Hex(m.infoHash)) {
      ParamClean(XT, URN_BTIH + Hex(m.infoHash));
    } else if m.displayName.Some? && p == Param(DN, Escape(m.displayName.value)) {
      EscapedClean(DN, m.displayName.value);
    } else if p in tr {
      var k :| 0 <= k < |tr| && tr[k] == p;
      EscapedClean(TR, m.trackers[k]);
    } else if p in ws {
      var k :| 0 <= k < |ws| && ws[k] == p;
      EscapedClean(WS, m.webSeeds[k]);
    } else if m.exactLength.Some? && p == Param(XL, Digits(m.exactLength.value)) {
      ParamClean(XL, Digits(m.exactLength.value));
    } else {
      EscapedClean(XS, m.exactSource.value);
    }
  }

  lemma EscapedClean(key: seq<byte>, value: seq<byte>)
    requires AMPERSAND !in key
    ensures AMPERSAND !in Param(key, Escape(value))
  {
    EscapedIsClean(value);
  }

  /** Parsing the printed parameters in turn rebuilds the fields. */
  lemma ApplyPrinted(m: MagnetUri, lossy: seq<byte> -> seq<byte>)
    requires WellTyped(m)
    ensures ApplyAll(NoFields(), PrintedParams(m), lossy) == Restored(m)
  {
    hide ApplyAll, Apply, Escape, Param, Hex, Digits, ValidUtf8, ParseBtih, Params, UrlDecode;
    var n := if m.exactLength.Some? then m.exactLength.value else 0;
    var p1 := [Param(XT, URN_BTIH + Hex(m.infoHash))];
    var p2 := Maybe(DN, EscapedOption(m.displayName));
    var p3, p4 := Params(TR, m.trackers), Params(WS, m.webSeeds);
    var p5 := Maybe(XL, if m.exactLength.Some? then Some(Digits(m.exactLength.value)) else None);
    var p6 := Maybe(XS, EscapedOption(m.exactSource));
    ApplyAllInTurn(NoFields(), p1 + p2 + p3 + p4 + p5, p6, lossy);
    ApplyAllInTurn(NoFields(), p1 + p2 + p3 + p4, p5, lossy);
    ApplyAllInTurn(NoFields(), p1 + p2 + p3, p4, lossy);
    ApplyAllInTurn(NoFields(), p1 + p2, p3, lossy);
    ApplyAllInTurn(NoFields(), p1, p2, lossy);
    PlainText(m.infoHash, n);
    ApplyPlain(NoFields(), XT, URN_BTIH + Hex(m.infoHash), lossy);
    BtihRoundTrip(m.infoHash);
    var m1 := NoFields().(infoHash := m.infoHash);
    ApplyNothing(m1, lossy);
    if m.displayName.Some? { ApplyEscaped(m1, DN, m.displayName.value, lossy); }
    var m2 := m1.(displayName := m.displayName);
    ApplyTrackers(m2, m.trackers, lossy);
    var m3 := m2.(trackers := NonEmpties(m.trackers));
    assert [] + NonEmpties(m.trackers) == NonEmpties(m.trackers);
    ApplyWebSeeds(m3, m.webSeeds, lossy);
    var m4 := m3.(webSeeds := NonEmpties(m.webSeeds));
    assert [] + NonEmpties(m.webSeeds) == NonEmpties(m.webSeeds);
    ApplyNothing(m4, lossy);
    if m.exactLength.Some? { ApplyPlain(m4, XL, Digits(n), lossy); }
    UnsignedRoundTrip(n, TWO_64);
    var m5 := m4.(exactLength := m.exactLength);
    ApplyNothing(m5, lossy);
    if m.exactSource.Some? { ApplyEscaped(m5, XS, m.exactSource.value, lossy); }
  }

  /** Parsing a printed magnet gives back hash, name, trackers, web seeds,
      length and source, less the empty tracker and web-seed strings. */
  lemma ParseToUri(m: MagnetUri, lossy: seq<byte> -> seq<byte>)
    requires WellTyped(m)
    ensures Parse(ToUri(m), lossy) == Ok(Restored(m))
  {
    hide ApplyAll, PrintedParams, Join, Split;
    var params := PrintedParams(m);
    PrintedParamsClean(m);
    PrintedNotNone(m);
    SplitOfJoin(params, AMPERSAND);
    assert ToUri(m)[|SCHEME|..] == Join(params, AMPERSAND);
    ApplyPrinted(m, lossy);
  }

  lemma PrintedNotNone(m: MagnetUri)
    ensures PrintedParams(m) != []
  {
  }

  lemma {:induction false} NothingDropped(values: seq<seq<byte>>)
    ensures |NonEmpties(values)| <= |values|
    ensures NonEmpties(values) == values <==> [] !in values
    decreases |values|
  {
    if values != [] {
      NothingDropped(values[1..]);
      assert values == [values[0]] + values[1..];
      if values[0] == [] {
        assert |NonEmpties(values)| < |values|;
      }
    }
  }

  /** The round trip is lossless exactly for magnets without empty tracker or
      web-seed strings. */
  lemma RoundTripExact(m: MagnetUri, lossy: seq<byte> -> seq<byte>)
    requires WellTyped(m)
    ensures Parse(ToUri(m), lossy) == Ok(m.(keywordTopic := None, acceptableSources := [], manifestTopic := None))
       <==> [] !in m.trackers && [] !in m.webSeeds
  {
    hide Parse, ToUri;
    ParseToUri(m, lossy);
    NothingDropped(m.trackers);
    NothingDropped(m.webSeeds);
  }
}
