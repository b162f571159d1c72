/** Names and paths from untrusted places: joining components on Unix, and the
    check that the result stays inside the directory it is joined onto. */
module SafePaths {
  import opened Prelude
  import opened Text
  import opened Paths

  const PARENT: Name := [DOT, DOT]

  predicate Absolute(path: seq<byte>) { path != [] && path[0] == SLASH }

  /** A path is absolute when its first part is empty and it is not. */
  lemma AbsoluteExactly(path: seq<byte>)
    ensures Absolute(path) <==> path != [] && Split(path, SLASH)[0] == []
  {
  }

  /** `PathBuf::push`: an absolute component replaces everything before it. */
  function Push(path: seq<byte>, component: seq<byte>): seq<byte> {
    if Absolute(component) then component
    else if path == [] || path[|path| - 1] == SLASH then path + component
    else path + [SLASH] + component
  }

  function PathOf(components: seq<seq<byte>>): seq<byte> {
    if components == [] then [] else Push(PathOf(components[..|components| - 1]), components[|components| - 1])
  }

  /** Neither absolute nor through a parent, and naming something. */
  predicate Relative(path: seq<byte>) {
    !Absolute(path) && PARENT !in Split(path, SLASH) && Names(path)
  }

  predicate Names(path: seq<byte>) { exists part :: part in Split(path, SLASH) && IsName(part) }

  datatype Rejection = Empty | ParentDir | AbsolutePath

  /** `check_relative_path`. */
  method CheckRelativePath(path: seq<byte>) returns (r: Option<Rejection>)
    ensures r.None? <==> Relative(path)
    ensures r == Some(AbsolutePath) <==> Absolute(path)
    ensures r == Some(ParentDir) <==> !Absolute(path) && PARENT in Split(path, SLASH)
  {
    if Absolute(path) { return Some(AbsolutePath); }
    var parts, hasNormal := Split(path, SLASH), false;
    for i := 0 to |parts|
      invariant PARENT !in parts[..i]
      invariant hasNormal <==> exists k :: 0 <= k < i && IsName(parts[k])
    {
      if parts[i] == PARENT { return Some(ParentDir); }
      if parts[i] != [] && parts[i] != [DOT] { hasNormal := true; }
    }
    r := if hasNormal then None else Some(Empty);
    assert parts[..|parts|] == parts;
  }

  lemma SplitNone(a: seq<byte>)
    requires SLASH !in a
    ensures Split(a, SLASH) == [a]
  {
  }

  lemma Cut(head: seq<byte>, tail: seq<byte>, b: seq<byte>)
    ensures head + [SLASH] + tail + [SLASH] + b == head + [SLASH] + (tail + [SLASH] + b)
  {
  }

  /** Splitting at the separator between two texts. */
  lemma {:induction false} SplitAppend(a: seq<byte>, b: seq<byte>)
    ensures Split(a + [SLASH] + b, SLASH) == Split(a, SLASH) + Split(b, SLASH)
    decreases |a|
  {
    hide Split;
    var i := IndexOf(a, SLASH);
    if i == |a| {
      SplitNone(a);
      SplitOne(a, b);
    } else {
      var head, tail := a[..i], a[i + 1..];
      assert a == head + [SLASH] + tail;
      SplitAppend(tail, b);
      SplitOne(head, tail);
      Cut(head, tail, b);
      SplitOne(head, tail + [SLASH] + b);
    }
  }

  /** A component that counts: not empty. */
  lemma PushedParts(path: seq<byte>, component: seq<byte>)
    requires !Absolute(path) && !Absolute(component)
    ensures !Absolute(Push(path, component))
    ensures forall part :: part != [] ==>
      (part in Split(Push(path, component), SLASH) <==> part in Split(path, SLASH) || part in Split(component, SLASH))
  {
    hide Split;
    EmptyParts();
    if path == [] {
      assert path + component == component;
    } else if path[|path| - 1] == SLASH {
      var front := path[..|path| - 1];
      assert path == front + [SLASH] + [] && path + component == front + [SLASH] + component;
      SplitAppend(front, []);
      SplitAppend(front, component);
    } else {
      SplitAppend(path, component);
    }
  }

  lemma EmptyParts()
    ensures Split([], SLASH) == [[]]
  {
  }

  /** A list of components makes an accepted path exactly when none is absolute,
      none goes through a parent, and one names something. */
  lemma {:induction false} PathIsRelative(components: seq<seq<byte>>)
    ensures Relative(PathOf(components)) <==>
      && (forall c :: c in components ==> !Absolute(c) && PARENT !in Split(c, SLASH))
      && (exists c :: c in components && Names(c))
  {
    hide Split, IsName, Push;
    PathParts(components);
    assert PARENT != [];
    if exists c :: c in components && Absolute(c) {
    } else {
      if Names(PathOf(components)) {
        var part :| part in Split(PathOf(components), SLASH) && IsName(part);
        assert part != [] by { NameIsText(part); }
        var c :| c in components && part in Split(c, SLASH);
        assert Names(c);
      }
      if c :| c in components && Names(c) {
        var part :| part in Split(c, SLASH) && IsName(part);
        assert part != [] by { NameIsText(part); }
        assert part in Split(PathOf(components), SLASH);
      }
    }
  }

  lemma NameIsText(part: Name)
    requires IsName(part)
    ensures part != []
  {
  }

  predicate HasPart(components: seq<seq<byte>>, part: Name) { exists c :: c in components && part in Split(c, SLASH) }

  /** The parts of a path are the parts of its components. */
  lemma {:induction false} PathParts(components: seq<seq<byte>>)
    ensures Absolute(PathOf(components)) <==> exists c :: c in components && Absolute(c)
    ensures !Absolute(PathOf(components)) ==> forall part :: part != [] ==>
      (part in Split(PathOf(components), SLASH) <==> HasPart(components, part))
    decreases |components|
  {
    hide Split, Push;
    if components == [] {
      EmptyParts();
    } else {
      var n := |components| - 1;
      var front, last := components[..n], components[n];
      PathParts(front);
      assert forall c :: c in components <==> c in front || c == last;
      if !Absolute(PathOf(front)) && !Absolute(last) {
        PushedParts(PathOf(front), last);
        forall part ensures HasPart(components, part) <==> HasPart(front, part) || part in Split(last, SLASH) {}
      } else {
        AbsoluteStays(PathOf(front), last);
      }
    }
  }

  lemma AbsoluteStays(path: seq<byte>, component: seq<byte>)
    requires Absolute(path) || Absolute(component)
    ensures Absolute(Push(path, component))
  {
  }

  /** An accepted path, followed from any directory, only goes down from it. */
  lemma RelativeStaysInside(dir: seq<Name>, path: seq<byte>)
    requires Relative(path)
    ensures Resolve(dir, Split(path, SLASH)).Some?
    ensures dir <= Resolve(dir, Split(path, SLASH)).value && dir != Resolve(dir, Split(path, SLASH)).value
  {
    var part :| part in Split(path, SLASH) && IsName(part);
    GoesDown(dir, Split(path, SLASH));
  }

  lemma {:induction false} GoesDown(dir: seq<Name>, parts: seq<Name>)
    requires PARENT !in parts
    ensures Resolve(dir, parts).Some? && dir <= Resolve(dir, parts).value
    ensures (exists part :: part in parts && part != [] && part != [DOT]) ==> |Resolve(dir, parts).value| > |dir|
    decreases |parts|
  {
    if parts != [] {
      assert parts == [parts[0]] + parts[1..];
      if parts[0] == [] || parts[0] == [DOT] {
        GoesDown(dir, parts[1..]);
      } else {
        GoesDown(dir + [parts[0]], parts[1..]);
      }
    }
  }
}
