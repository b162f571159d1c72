/** URL paths of a recursive download: dot segments are resolved on a stack, and
    the scope test on path text means containment of path components. */
module Paths {
  import opened Prelude
  import opened Text

  const SLASH: byte := 47
  const DOT: byte := 46

  type Name = seq<byte>

  predicate IsName(c: Name) { c != [] && c != [DOT] && c != [DOT, DOT] && SLASH !in c }

  predicate AllNames(cs: seq<Name>) { forall k :: 0 <= k < |cs| ==> IsName(cs[k]) }

  predicate NoSlashes(parts: seq<Name>) { forall k :: 0 <= k < |parts| ==> SLASH !in parts[k] }

  /** The stack after reading `parts`, or nothing when it underflows. */
  function Resolve(stack: seq<Name>, parts: seq<Name>): Option<seq<Name>>
    decreases |parts|
  {
    if parts == [] then Some(stack)
    else if parts[0] == [] || parts[0] == [DOT] then Resolve(stack, parts[1..])
    else if parts[0] == [DOT, DOT] then
      if stack == [] then None else Resolve(stack[..|stack| - 1], parts[1..])
    else Resolve(stack + [parts[0]], parts[1..])
  }

  /** An absolute path of the given components. */
  function Render(cs: seq<Name>, trailing: bool): seq<byte> {
    var base := if cs == [] then [SLASH] else [SLASH] + Join(cs, SLASH);
    if trailing && base != [SLASH] then base + [SLASH] else base
  }

  function Normalize(path: seq<byte>, trailing: bool): Result<seq<byte>> {
    match Resolve([], Split(path, SLASH))
    case None => Err
    case Some(cs) => Ok(Render(cs, trailing))
  }

  method NormalizePath(path: seq<byte>, trailing: bool) returns (r: Result<seq<byte>>)
    ensures r == Normalize(path, trailing)
  {
    var components: seq<Name> := [];
    var parts := Split(path, SLASH);
    var i := 0;
    while i < |parts|
      invariant 0 <= i <= |parts|
      invariant Resolve([], parts) == Resolve(components, parts[i..])
    {
      var component := parts[i];
      if component == [] || component == [DOT] {
      } else if component == [DOT, DOT] {
        if components == [] { return Err; }
        components := components[..|components| - 1];
      } else {
        components := components + [component];
      }
      i := i + 1;
    }
    var normalized := if components == [] then [SLASH] else [SLASH] + Join(components, SLASH);
    if trailing && normalized != [SLASH] {
      normalized := normalized + [SLASH];
    }
    return Ok(normalized);
  }

  /** How far one component moves: down, up, or nowhere. */
  function Level(part: Name): int {
    if part == [] || part == [DOT] then 0 else if part == [DOT, DOT] then -1 else 1
  }

  function Depth(parts: seq<Name>): int {
    if parts == [] then 0 else Depth(parts[..|parts| - 1]) + Level(parts[|parts| - 1])
  }

  /** No prefix of the path climbs above its start. */
  ghost predicate NeverEscapes(base: nat, parts: seq<Name>) {
    forall k {:trigger parts[..k]} :: 0 <= k <= |parts| ==> base + Depth(parts[..k]) >= 0
  }

  lemma {:induction false} DepthFromFront(parts: seq<Name>)
    requires parts != []
    ensures Depth(parts) == Level(parts[0]) + Depth(parts[1..])
  {
    if |parts| > 1 {
      DepthFromFront(parts[..|parts| - 1]);
      assert parts[1..][..|parts| - 2] == parts[..|parts| - 1][1..];
    } else {
      assert parts[..0] == [] && parts[1..] == [];
    }
  }

  lemma EscapesStep(base: nat, parts: seq<Name>)
    requires parts != []
    ensures base + Level(parts[0]) >= 0 ==> (NeverEscapes(base, parts) <==> NeverEscapes(base + Level(parts[0]), parts[1..]))
    ensures base + Level(parts[0]) < 0 ==> !NeverEscapes(base, parts)
  {
    hide Level;
    forall k: nat | k < |parts|
      ensures Depth(parts[..k + 1]) == Level(parts[0]) + Depth(parts[1..][..k])
    {
      DepthFromFront(parts[..k + 1]);
      assert parts[..k + 1][1..] == parts[1..][..k];
    }
    var m := base + Level(parts[0]);
    assert parts[1..][..0] == [];
    if m >= 0 {
      if NeverEscapes(base, parts) {
        forall k | 0 <= k <= |parts[1..]| ensures m + Depth(parts[1..][..k]) >= 0 {
          var j := k + 1;
          assert base + Depth(parts[..j]) >= 0;
        }
      } else {
        var k :| 0 <= k <= |parts| && base + Depth(parts[..k]) < 0;
        assert parts[..0] == [];
        var j := k - 1;
        assert m + Depth(parts[1..][..j]) < 0;
      }
    } else {
      var one := 1;
      assert base + Depth(parts[..one]) < 0;
    }
  }

  /** A path is rejected exactly when some prefix of it climbs above the root. */
  lemma {:induction false} RejectsExactlyEscapes(stack: seq<Name>, parts: seq<Name>)
    ensures Resolve(stack, parts).Some? <==> NeverEscapes(|stack|, parts)
    ensures Resolve(stack, parts).Some? ==> |Resolve(stack, parts).value| == |stack| + Depth(parts)
    decreases |parts|
  {
    hide NeverEscapes, Depth;
    if parts == [] {
      NoParts(|stack|);
    } else {
      EscapesStep(|stack|, parts);
      DepthFromFront(parts);
      var rest := parts[1..];
      match Level(parts[0]) {
        case 0 => RejectsExactlyEscapes(stack, rest);
        case 1 => RejectsExactlyEscapes(stack + [parts[0]], rest);
        case _ => if stack != [] { RejectsExactlyEscapes(stack[..|stack| - 1], rest); }
      }
    }
  }

  lemma NoParts(base: nat)
    ensures NeverEscapes(base, []) && Depth([]) == 0
  {
    var none: seq<Name> := [];
    assert none[..0] == none;
  }

  lemma {:induction false} ResolveIsClean(stack: seq<Name>, parts: seq<Name>)
    requires AllNames(stack) && NoSlashes(parts)
    ensures Resolve(stack, parts).Some? ==> AllNames(Resolve(stack, parts).value)
    decreases |parts|
  {
    if parts != [] {
      var rest := parts[1..];
      if parts[0] == [] || parts[0] == [DOT] {
        ResolveIsClean(stack, rest);
      } else if parts[0] == [DOT, DOT] {
        if stack != [] { ResolveIsClean(stack[..|stack| - 1], rest); }
      } else {
        ResolveIsClean(stack + [parts[0]], rest);
      }
    }
  }

  lemma {:induction false} ResolveNames(stack: seq<Name>, names: seq<Name>, tail: seq<Name>)
    requires AllNames(names)
    ensures Resolve(stack, names + tail) == Resolve(stack + names, tail)
    decreases |names|
  {
    if names == [] {
      assert names + tail == tail && stack + names == stack;
    } else {
      assert (names + tail)[1..] == names[1..] + tail;
      assert stack + [names[0]] + names[1..] == stack + names;
      ResolveNames(stack + [names[0]], names[1..], tail);
    }
  }

  // -------------------------------------------------------- reading back

  /** The pieces between slashes of a rendered path. */
  function Pieces(cs: seq<Name>, trailing: bool): seq<Name> {
    [[]] + cs + (if trailing || cs == [] then [[]] else [])
  }

  lemma {:induction false} JoinAppend(a: seq<Name>, b: seq<Name>)
    requires a != [] && b != []
    ensures Join(a + b, SLASH) == Join(a, SLASH) + [SLASH] + Join(b, SLASH)
  {
    if |a| == 1 {
      assert (a + b)[1..] == b;
    } else {
      assert (a + b)[1..] == a[1..] + b;
      JoinAppend(a[1..], b);
    }
  }

  lemma RenderIsJoin(cs: seq<Name>, trailing: bool)
    requires AllNames(cs)
    ensures Render(cs, trailing) == Join(Pieces(cs, trailing), SLASH)
  {
    var e: seq<Name> := [[]];
    assert Join(e, SLASH) == [];
    if cs == [] {
      assert Pieces(cs, trailing) == e + e;
      JoinAppend(e, e);
    } else {
      assert Join(cs, SLASH) != [] by { JoinNonEmpty(cs); }
      JoinAppend(e, cs);
      if trailing { JoinAppend(e + cs, e); } else { assert Pieces(cs, false) == e + cs; }
    }
  }

  lemma JoinNonEmpty(cs: seq<Name>)
    requires AllNames(cs) && cs != []
    ensures Join(cs, SLASH) != []
  {
    assert IsName(cs[0]);
  }

  lemma SplitOfRender(cs: seq<Name>, trailing: bool)
    requires AllNames(cs)
    ensures Split(Render(cs, trailing), SLASH) == Pieces(cs, trailing)
  {
    RenderIsJoin(cs, trailing);
    assert forall k :: 0 <= k < |cs| ==> IsName(cs[k]);
    SplitOfJoin(Pieces(cs, trailing), SLASH);
  }

  /** A rendered path reads back as its components. */
  lemma RenderReadsBack(cs: seq<Name>, trailing: bool)
    requires AllNames(cs)
    ensures Resolve([], Split(Render(cs, trailing), SLASH)) == Some(cs)
  {
    SplitOfRender(cs, trailing);
    hide Resolve, Split, Render;
    var tail: seq<Name> := if trailing || cs == [] then [[]] else [];
    assert Pieces(cs, trailing) == [[]] + (cs + tail);
    SkipEmpty([], cs + tail);
    ResolveNames([], cs, tail);
    assert [] + cs == cs;
    if tail != [] { assert tail == [[]] + []; }
    SkipEmpty(cs, []);
  }

  lemma SkipEmpty(stack: seq<Name>, parts: seq<Name>)
    ensures Resolve(stack, [[]] + parts) == Resolve(stack, parts)
    ensures Resolve(stack, []) == Some(stack)
  {
    assert ([[]] + parts)[1..] == parts;
  }

  /** A normalised path is made of real names, and normalising it again
      changes nothing. */
  lemma NormalizeIsIdempotent(path: seq<byte>, trailing: bool)
    requires Normalize(path, trailing).Ok?
    ensures exists cs :: AllNames(cs) && Normalize(path, trailing).value == Render(cs, trailing)
    ensures Normalize(Normalize(path, trailing).value, trailing) == Normalize(path, trailing)
  {
    hide Resolve, Render;
    var cs := Resolve([], Split(path, SLASH)).value;
    ResolveIsClean([], Split(path, SLASH));
    RenderReadsBack(cs, trailing);
  }

  // ------------------------------------------------------------- the scope

  function TrimEnd(s: seq<byte>): seq<byte> {
    if s != [] && s[|s| - 1] == SLASH then TrimEnd(s[..|s| - 1]) else s
  }

  predicate WithinPrefix(path: seq<byte>, prefix: seq<byte>) {
    if prefix == [SLASH] then [SLASH] <= path else path == TrimEnd(prefix) || prefix <= path
  }

  /** The root holds every absolute path, and nothing else. */
  lemma RootExactly(path: seq<byte>)
    ensures WithinPrefix(path, [SLASH]) <==> path != [] && path[0] == SLASH
  {
  }

  lemma {:induction false} JoinEndsInName(cs: seq<Name>)
    requires AllNames(cs) && cs != []
    ensures Join(cs, SLASH) != [] && Join(cs, SLASH)[|Join(cs, SLASH)| - 1] != SLASH
  {
    assert IsName(cs[0]);
    if |cs| == 1 {
      assert cs[0][|cs[0]| - 1] in cs[0];
    } else {
      JoinEndsInName(cs[1..]);
    }
  }

  lemma TrimOfRender(cs: seq<Name>)
    requires AllNames(cs) && cs != []
    ensures Render(cs, true) == Render(cs, false) + [SLASH]
    ensures TrimEnd(Render(cs, true)) == Render(cs, false)
  {
    JoinEndsInName(cs);
    var full := Render(cs, true);
    assert full[..|full| - 1] == Render(cs, false);
  }

  lemma SplitOne(head: Name, more: seq<byte>)
    requires SLASH !in head
    ensures Split(head + [SLASH] + more, SLASH) == [head] + Split(more, SLASH)
  {
    var s := head + [SLASH] + more;
    IndexOfAt(head, SLASH, more);
    assert s[..|head|] == head && s[|head| + 1..] == more;
  }

  lemma {:induction false} SplitPrefix(parts: seq<Name>, rest: seq<byte>)
    requires parts != [] && NoSlashes(parts)
    ensures Split(Join(parts, SLASH) + [SLASH] + rest, SLASH) == parts + Split(rest, SLASH)
    decreases |parts|
  {
    hide Split;
    if |parts| == 1 {
      SplitOne(parts[0], rest);
      assert parts == [parts[0]];
    } else {
      var more := Join(parts[1..], SLASH) + [SLASH] + rest;
      SplitOne(parts[0], more);
      assert Join(parts, SLASH) + [SLASH] + rest == parts[0] + [SLASH] + more;
      SplitPrefix(parts[1..], rest);
      Reassemble(parts, Split(rest, SLASH));
    }
  }

  lemma Reassemble(parts: seq<Name>, tail: seq<Name>)
    requires parts != []
    ensures [parts[0]] + (parts[1..] + tail) == parts + tail
  {
  }

  /** A normalised path lies within a scope prefix exactly when the prefix's
      components are the first components of the path. */
  lemma ScopeIsContainment(prefix: seq<Name>, cs: seq<Name>, trailing: bool)
    requires AllNames(prefix) && AllNames(cs)
    ensures WithinPrefix(Render(cs, trailing), Render(prefix, true)) <==> prefix <= cs
  {
    var path := Render(cs, trailing);
    if prefix != [] {
      TrimOfRender(prefix);
      JoinNonEmpty(prefix);
      if prefix <= cs { ContainedIsWithin(prefix, cs, trailing); }
      if path == Render(prefix, false) {
        RenderReadsBack(cs, trailing);
        RenderReadsBack(prefix, false);
      } else if Render(prefix, true) <= path {
        WithinIsContained(prefix, cs, trailing);
      }
    }
  }

  lemma ContainedIsWithin(prefix: seq<Name>, cs: seq<Name>, trailing: bool)
    requires AllNames(prefix) && AllNames(cs) && prefix != [] && prefix <= cs
    ensures Render(cs, trailing) == Render(prefix, false) || Render(prefix, true) <= Render(cs, trailing)
  {
    TrimOfRender(prefix);
    if |prefix| < |cs| {
      JoinAppend(prefix, cs[|prefix|..]);
      assert cs == prefix + cs[|prefix|..];
      assert Render(cs, false) == [SLASH] + Join(prefix, SLASH) + [SLASH] + Join(cs[|prefix|..], SLASH);
    } else {
      assert cs == prefix;
    }
  }

  lemma WithinIsContained(prefix: seq<Name>, cs: seq<Name>, trailing: bool)
    requires AllNames(prefix) && AllNames(cs) && prefix != []
    requires Render(prefix, true) <= Render(cs, trailing)
    ensures prefix <= cs
  {
    var path := Render(cs, trailing);
    var e: seq<Name> := [[]];
    TrimOfRender(prefix);
    RenderIsJoin(prefix, false);
    assert Pieces(prefix, false) == e + prefix;
    var rest := path[|Render(prefix, true)|..];
    assert path == Join(e + prefix, SLASH) + [SLASH] + rest;
    assert forall k :: 0 <= k < |prefix| ==> IsName(prefix[k]);
    SplitPrefix(e + prefix, rest);
    SplitOfRender(cs, trailing);
    assert e + prefix + Split(rest, SLASH) == Pieces(cs, trailing);
    SamePieces(prefix, Split(rest, SLASH), cs, trailing);
  }

  lemma SamePieces(prefix: seq<Name>, rest: seq<Name>, cs: seq<Name>, trailing: bool)
    requires [[]] + prefix + rest == Pieces(cs, trailing) && rest != [] && prefix != []
    requires AllNames(prefix)
    ensures prefix <= cs
  {
    var whole := Pieces(cs, trailing);
    assert |prefix| <= |cs|;
    forall k | 0 <= k < |prefix| ensures prefix[k] == cs[k] {
      assert whole[k + 1] == prefix[k];
      assert whole[k + 1] == cs[k];
    }
  }
}
