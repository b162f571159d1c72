/** The order of dictionary keys, by the first byte in which two keys differ. */
module KeyOrder {
  import opened Prelude
  import opened Bencode
  import opened BencodeLaws

  /** `a` comes before `b`: they agree on `k` bytes, and then `a` ends or has the
      smaller byte. */
  predicate BeforeAt(a: seq<byte>, b: seq<byte>, k: nat) {
    k <= |a| && k < |b| && a[..k] == b[..k] && (k == |a| || a[k] < b[k])
  }

  ghost predicate Before(a: seq<byte>, b: seq<byte>) { exists k: nat :: BeforeAt(a, b, k) }

  lemma FirstAgrees(a: seq<byte>, b: seq<byte>, k: nat)
    requires a != [] && BeforeAt(a, b, k)
    ensures k > 0 ==> a[0] == b[0]
  {
    if k > 0 { assert a[..k][0] == b[..k][0]; }
  }

  lemma {:induction false} LessExactly(a: seq<byte>, b: seq<byte>)
    ensures Less(a, b) <==> Before(a, b)
    decreases |a|
  {
    if a == [] || b == [] {
      if b != [] { assert BeforeAt(a, b, 0); }
    } else if a[0] == b[0] {
      LessExactly(a[1..], b[1..]);
      if Before(a[1..], b[1..]) {
        var k: nat :| BeforeAt(a[1..], b[1..], k);
        assert a[..k + 1] == [a[0]] + a[1..][..k] && b[..k + 1] == [b[0]] + b[1..][..k];
        assert BeforeAt(a, b, k + 1);
      }
      if k: nat :| BeforeAt(a, b, k) {
        assert k > 0;
        assert a[1..][..k - 1] == a[..k][1..] && b[1..][..k - 1] == b[..k][1..];
        assert BeforeAt(a[1..], b[1..], k - 1);
      }
    } else {
      if a[0] < b[0] { assert BeforeAt(a, b, 0); }
      if k: nat :| BeforeAt(a, b, k) { FirstAgrees(a, b, k); }
    }
  }

  /** It is a strict order in which any two keys can be compared. */
  lemma {:induction false} LessIsOrder(a: seq<byte>, b: seq<byte>, c: seq<byte>)
    ensures !Less(a, a)
    ensures Less(a, b) && Less(b, c) ==> Less(a, c)
    ensures a != b ==> Less(a, b) || Less(b, a)
    ensures !(Less(a, b) && Less(b, a))
    decreases |a|
  {
    if a != [] && b != [] && c != [] {
      LessIsOrder(a[1..], b[1..], c[1..]);
      if a[0] == b[0] && a[1..] == b[1..] { assert a == [a[0]] + a[1..] && b == [b[0]] + b[1..]; }
    } else if a != [] && b != [] {
      LessIsOrder(a[1..], b[1..], []);
      if a[0] == b[0] && a[1..] == b[1..] { assert a == [a[0]] + a[1..] && b == [b[0]] + b[1..]; }
    } else if a != [] {
      LessIsOrder(a[1..], [], []);
    }
  }

  /** Every key comes before every later one, and `last` before them all. */
  ghost predicate Sorted(last: Option<seq<byte>>, entries: seq<Entry>) {
    && (forall i :: last.Some? && 0 <= i < |entries| ==> Before(last.value, entries[i].key))
    && (forall i, j :: 0 <= i < j < |entries| ==> Before(entries[i].key, entries[j].key))
  }

  lemma BeforeTrans(a: seq<byte>, b: seq<byte>, c: seq<byte>)
    requires Before(a, b) && Before(b, c)
    ensures Before(a, c)
  {
    LessExactly(a, b);
    LessExactly(b, c);
    LessIsOrder(a, b, c);
    LessExactly(a, c);
  }

  lemma {:induction false} AscendingExactly(last: Option<seq<byte>>, entries: seq<Entry>)
    ensures Ascending(last, entries) <==> Sorted(last, entries)
    decreases |entries|
  {
    hide Less, Before;
    if entries != [] {
      var e, rest := entries[0], entries[1..];
      AscendingExactly(Some(e.key), rest);
      if last.Some? { LessExactly(last.value, e.key); }
      assert forall i :: 1 <= i < |entries| ==> entries[i] == rest[i - 1];
      if Ascending(last, entries) && last.Some? {
        forall i | 0 <= i < |entries| ensures Before(last.value, entries[i].key) {
          if i > 0 { BeforeTrans(last.value, e.key, entries[i].key); }
        }
      }
      if Sorted(last, entries) {
        forall i | 0 <= i < |rest| ensures Before(e.key, rest[i].key) { assert rest[i] == entries[i + 1]; }
        forall i, j | 0 <= i < j < |rest| ensures Before(rest[i].key, rest[j].key) {
          assert rest[i] == entries[i + 1] && rest[j] == entries[j + 1];
        }
      }
    }
  }

  /** Integers of 64 bits and, at every level, keys in order. */
  ghost predicate Canonical(v: Value) {
    match v
    case Integer(n) => -0x8000_0000_0000_0000 <= n <= 0x7fff_ffff_ffff_ffff
    case Bytes(_) => true
    case List(items) => forall i :: 0 <= i < |items| ==> Canonical(items[i])
    case Dict(entries) => Sorted(None, entries) && forall i :: 0 <= i < |entries| ==> Canonical(entries[i].value)
  }

  lemma {:induction false} WellTypedExactly(v: Value)
    ensures WellTyped(v) <==> Canonical(v)
  {
    hide Sorted, Ascending;
    match v {
      case Integer(_) =>
      case Bytes(_) =>
      case List(items) =>
        forall i | 0 <= i < |items| ensures WellTyped(items[i]) <==> Canonical(items[i]) { WellTypedExactly(items[i]); }
      case Dict(entries) =>
        AscendingExactly(None, entries);
        forall i | 0 <= i < |entries| ensures WellTyped(entries[i].value) <==> Canonical(entries[i].value) {
          WellTypedExactly(entries[i].value);
        }
    }
  }

  /** Of whatever is accepted, the keys of every dictionary are in this order;
      so no key occurs twice. */
  lemma ParsedIsCanonical(data: seq<byte>, depth: nat)
    requires ParseAt(data, depth).Good?
    ensures Canonical(ParseAt(data, depth).value)
  {
    ParsedFits(data, depth);
    WellTypedExactly(ParseAt(data, depth).value);
  }

  /** A dictionary that goes on with a key that does not come after the one
      before it is refused, whatever follows; with a key that does, it is read
      on from the value. */
  lemma NextKeyDecides(data: seq<byte>, depth: nat, last: seq<byte>)
    requires data != [] && data[0] != CHAR_E && ParseBytes(data).Good?
    ensures !Before(last, ParseBytes(data).value) ==> ParseEntries(data, depth, Some(last)) == Bad
    ensures Before(last, ParseBytes(data).value) ==> ParseEntries(data, depth, Some(last)) == ParseEntries(data, depth, None)
  {
    LessExactly(last, ParseBytes(data).value);
    hide Before, Less, ParseBytes, ParseAt;
  }
}
