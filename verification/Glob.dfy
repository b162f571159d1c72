/** The `*` and `?` patterns of the crawler: a loop with one level of
    backtracking against the recursive meaning of patterns. */
module Glob {
  import opened Prelude

  const STAR: byte := 42
  const QUESTION: byte := 63

  /** What a pattern means: `*` is any run of bytes, `?` any one byte. */
  predicate Matches(p: seq<byte>, c: seq<byte>)
    decreases |p| + |c|
  {
    if p == [] then c == []
    else if p[0] == STAR then Matches(p[1..], c) || (c != [] && Matches(p, c[1..]))
    else c != [] && (p[0] == QUESTION || p[0] == c[0]) && Matches(p[1..], c[1..])
  }

  /** The loop's variables. */
  datatype Cursor = Cursor(pattern: nat, candidate: nat, star: Option<nat>, backtrack: nat)

  predicate Sane(p: seq<byte>, c: seq<byte>, s: Cursor) {
    && s.pattern <= |p| && s.backtrack <= s.candidate <= |c|
    && (s.star.Some? ==> s.star.value < s.pattern)
  }

  /** How much of the pattern lies after the last star. */
  function AfterStar(p: seq<byte>, s: Cursor): int { if s.star.Some? then |p| - s.star.value - 1 else |p| }

  /** One turn of the loop; no next state means it gives up. */
  function Step(p: seq<byte>, c: seq<byte>, s: Cursor): (next: Option<Cursor>)
    requires Sane(p, c, s) && s.candidate < |c|
    ensures next.Some? ==>
      && Sane(p, c, next.value)
      && (AfterStar(p, next.value) < AfterStar(p, s)
          || (AfterStar(p, next.value) == AfterStar(p, s)
              && (next.value.backtrack > s.backtrack
                  || (next.value.backtrack == s.backtrack && next.value.candidate > s.candidate))))
  {
    if s.pattern < |p| && (p[s.pattern] == QUESTION || p[s.pattern] == c[s.candidate]) then
      Some(s.(pattern := s.pattern + 1, candidate := s.candidate + 1))
    else if s.pattern < |p| && p[s.pattern] == STAR then
      Some(Cursor(s.pattern + 1, s.candidate, Some(s.pattern), s.candidate))
    else if s.star.Some? then
      Some(Cursor(s.star.value + 1, s.backtrack + 1, s.star, s.backtrack + 1))
    else None
  }

  predicate AllStars(p: seq<byte>) { forall k :: 0 <= k < |p| ==> p[k] == STAR }

  /** What the loop answers from a given state. */
  predicate Loop(p: seq<byte>, c: seq<byte>, s: Cursor)
    requires Sane(p, c, s)
    decreases AfterStar(p, s), |c| - s.backtrack, |c| - s.candidate
  {
    if s.candidate == |c| then AllStars(p[s.pattern..])
    else match Step(p, c, s)
      case None => false
      case Some(next) => Loop(p, c, next)
  }

  const START := Cursor(0, 0, None, 0)

  predicate CodeMatches(p: seq<byte>, c: seq<byte>) { Loop(p, c, START) }

  /** `pattern_matches`. It halts on every input, and means `Matches` on every
      candidate without a literal star. */
  method PatternMatches(p: seq<byte>, c: seq<byte>) returns (r: bool)
    ensures r == CodeMatches(p, c)
    ensures STAR !in c ==> (r <==> Matches(p, c))
  {
    if STAR !in c { CodeIsMatches(p, c); }
    hide Matches, AllStars, Loop, Step, AfterStar;
    var patternIdx: nat, candidateIdx: nat, backtrackIdx: nat := 0, 0, 0;
    var starIdx: Option<nat> := None;
    ghost var s := START;
    while candidateIdx < |c|
      invariant s == Cursor(patternIdx, candidateIdx, starIdx, backtrackIdx) && Sane(p, c, s)
      invariant Loop(p, c, s) == CodeMatches(p, c)
      decreases AfterStar(p, s), |c| - s.backtrack, |c| - s.candidate
    {
      LoopTurn(p, c, s);
      StepCases(p, c, s);
      if patternIdx < |p| && (p[patternIdx] == QUESTION || p[patternIdx] == c[candidateIdx]) {
        patternIdx := patternIdx + 1;
        candidateIdx := candidateIdx + 1;
      } else if patternIdx < |p| && p[patternIdx] == STAR {
        starIdx := Some(patternIdx);
        patternIdx := patternIdx + 1;
        backtrackIdx := candidateIdx;
      } else if starIdx.Some? {
        patternIdx := starIdx.value + 1;
        backtrackIdx := backtrackIdx + 1;
        candidateIdx := backtrackIdx;
      } else {
        return false;
      }
      s := Step(p, c, s).value;
    }
    LoopTurn(p, c, s);
    r := OnlyStars(p, patternIdx);
  }

  lemma StepCases(p: seq<byte>, c: seq<byte>, s: Cursor)
    requires Sane(p, c, s) && s.candidate < |c|
    ensures Step(p, c, s) ==
      if s.pattern < |p| && (p[s.pattern] == QUESTION || p[s.pattern] == c[s.candidate]) then
        Some(Cursor(s.pattern + 1, s.candidate + 1, s.star, s.backtrack))
      else if s.pattern < |p| && p[s.pattern] == STAR then Some(Cursor(s.pattern + 1, s.candidate, Some(s.pattern), s.candidate))
      else if s.star.Some? then Some(Cursor(s.star.value + 1, s.backtrack + 1, s.star, s.backtrack + 1))
      else None
  {
    hide AfterStar;
  }

  lemma LoopTurn(p: seq<byte>, c: seq<byte>, s: Cursor)
    requires Sane(p, c, s)
    ensures s.candidate == |c| ==> Loop(p, c, s) == AllStars(p[s.pattern..])
    ensures s.candidate < |c| && Step(p, c, s).None? ==> !Loop(p, c, s)
    ensures s.candidate < |c| && Step(p, c, s).Some? ==> Loop(p, c, s) == Loop(p, c, Step(p, c, s).value)
  {
  }

  /** Skipping the stars at the end of the pattern. */
  method OnlyStars(p: seq<byte>, from: nat) returns (r: bool)
    requires from <= |p|
    ensures r == AllStars(p[from..])
  {
    var patternIdx := from;
    while patternIdx < |p| && p[patternIdx] == STAR
      invariant from <= patternIdx <= |p| && AllStars(p[from..patternIdx])
    {
      assert p[from..patternIdx + 1] == p[from..patternIdx] + [STAR];
      patternIdx := patternIdx + 1;
    }
    r := patternIdx == |p|;
    if r { assert p[from..patternIdx] == p[from..]; } else { assert p[from..][patternIdx - from] != STAR; }
  }

  // ------------------------------------------------ candidates without stars

  lemma {:induction false} StarAbsorbs(q: seq<byte>, c: seq<byte>, i: nat, j: nat)
    requires q != [] && q[0] == STAR && i <= j <= |c| && Matches(q, c[j..])
    ensures Matches(q, c[i..])
    decreases j - i
  {
    if i < j {
      StarAbsorbs(q, c, i + 1, j);
      assert c[i..][1..] == c[i + 1..];
    }
  }

  /** The rest of the pattern after a star matches at some later place. */
  ghost predicate Later(q: seq<byte>, c: seq<byte>, from: nat) {
    exists k: nat :: from <= k <= |c| && Matches(q, c[k..])
  }

  lemma {:induction false} StarMeansLater(q: seq<byte>, c: seq<byte>, i: nat)
    requires q != [] && q[0] == STAR && i <= |c|
    ensures Matches(q, c[i..]) <==> Later(q[1..], c, i)
    decreases |c| - i
  {
    if i < |c| {
      StarMeansLater(q, c, i + 1);
      assert c[i..][1..] == c[i + 1..];
    }
  }

  /** A stretch of pattern without stars fixes how far it reaches. */
  lemma {:induction false} Stretch(p: seq<byte>, a: nat, b: nat, c: seq<byte>, k: nat)
    requires a <= b <= |p| && STAR !in p[a..b] && k <= |c| && Matches(p[a..], c[k..])
    ensures k + (b - a) <= |c| && Matches(p[b..], c[k + (b - a)..])
    decreases b - a
  {
    if a < b {
      assert p[a] == p[a..b][0] && p[a..][1..] == p[a + 1..] && p[a..b][1..] == p[a + 1..b];
      assert c[k..][1..] == c[k + 1..];
      Stretch(p, a + 1, b, c, k + 1);
    }
  }

  /** Since the last star the loop has matched a stretch without stars. */
  predicate Tracking(p: seq<byte>, c: seq<byte>, s: Cursor) {
    && Sane(p, c, s)
    && (s.star.Some? ==>
          && STAR !in p[s.star.value + 1..s.pattern]
          && s.pattern - (s.star.value + 1) == s.candidate - s.backtrack)
  }

  /** What is still possible: to match from here, or from a later place after
      the last star. Earlier stars need no second look. */
  ghost predicate Possible(p: seq<byte>, c: seq<byte>, s: Cursor)
    requires Sane(p, c, s)
  {
    || Matches(p[s.pattern..], c[s.candidate..])
    || (s.star.Some? && Later(p[s.star.value + 1..], c, s.backtrack + 1))
  }

  lemma AllStarsMatchNothing(p: seq<byte>)
    ensures AllStars(p) <==> Matches(p, [])
  {
    if p != [] {
      assert p == [p[0]] + p[1..];
      AllStarsMatchNothing(p[1..]);
    }
  }

  lemma AtEnd(p: seq<byte>, c: seq<byte>, s: Cursor)
    requires Tracking(p, c, s) && s.candidate == |c|
    ensures AllStars(p[s.pattern..]) <==> Possible(p, c, s)
  {
    AllStarsMatchNothing(p[s.pattern..]);
    assert c[|c|..] == [];
    if s.star.Some? && Later(p[s.star.value + 1..], c, s.backtrack + 1) {
      var k: nat :| s.backtrack + 1 <= k <= |c| && Matches(p[s.star.value + 1..], c[k..]);
      Stretch(p, s.star.value + 1, s.pattern, c, k);
    }
  }

  lemma LiteralStep(p: seq<byte>, c: seq<byte>, s: Cursor)
    requires Tracking(p, c, s) && s.candidate < |c| && STAR !in c
    requires s.pattern < |p| && (p[s.pattern] == QUESTION || p[s.pattern] == c[s.candidate])
    ensures Tracking(p, c, Step(p, c, s).value)
    ensures Possible(p, c, s) <==> Possible(p, c, Step(p, c, s).value)
  {
    hide Later;
    assert p[s.pattern..][1..] == p[s.pattern + 1..] && c[s.candidate..][1..] == c[s.candidate + 1..];
    assert p[s.pattern] != STAR;
    if s.star.Some? {
      var a := s.star.value + 1;
      assert p[a..s.pattern + 1] == p[a..s.pattern] + [p[s.pattern]];
    }
  }

  lemma StarStep(p: seq<byte>, c: seq<byte>, s: Cursor)
    requires Tracking(p, c, s) && s.candidate < |c|
    requires s.pattern < |p| && p[s.pattern] == STAR && c[s.candidate] != STAR
    ensures Tracking(p, c, Step(p, c, s).value)
    ensures Possible(p, c, s) <==> Possible(p, c, Step(p, c, s).value)
  {
    hide Matches;
    var q, i := p[s.pattern..], s.candidate;
    assert q[1..] == p[s.pattern + 1..];
    StarMeansLater(q, c, i);
    LaterFrom(q[1..], c, i);
    if s.star.Some? && Later(p[s.star.value + 1..], c, s.backtrack + 1) {
      var k: nat :| s.backtrack + 1 <= k <= |c| && Matches(p[s.star.value + 1..], c[k..]);
      Stretch(p, s.star.value + 1, s.pattern, c, k);
      StarAbsorbs(q, c, i, k + (s.pattern - s.star.value - 1));
    }
  }

  lemma LaterFrom(q: seq<byte>, c: seq<byte>, i: nat)
    requires i <= |c|
    ensures Later(q, c, i) <==> Matches(q, c[i..]) || Later(q, c, i + 1)
  {
  }

  lemma BacktrackStep(p: seq<byte>, c: seq<byte>, s: Cursor)
    requires Tracking(p, c, s) && s.candidate < |c| && s.star.Some?
    requires s.pattern < |p| ==> p[s.pattern] !in {STAR, QUESTION, c[s.candidate]}
    ensures Tracking(p, c, Step(p, c, s).value)
    ensures Possible(p, c, s) <==> Possible(p, c, Step(p, c, s).value)
  {
    hide Matches, Later;
    var a, k := s.star.value + 1, s.backtrack + 1;
    assert Step(p, c, s) == Some(Cursor(a, k, s.star, k));
    assert p[a..a] == [];
    LaterFrom(p[a..], c, k);
    Mismatch(p[s.pattern..], c[s.candidate..]);
  }

  /** A pattern that starts with another letter, or is at its end, is over. */
  lemma Mismatch(q: seq<byte>, c: seq<byte>)
    requires c != [] && (q != [] ==> q[0] !in {STAR, QUESTION, c[0]})
    ensures !Matches(q, c)
  {
  }

  lemma {:induction false} LoopIsPossible(p: seq<byte>, c: seq<byte>, s: Cursor)
    requires Tracking(p, c, s) && STAR !in c
    ensures Loop(p, c, s) <==> Possible(p, c, s)
    decreases AfterStar(p, s), |c| - s.backtrack, |c| - s.candidate
  {
    assert Sane(p, c, s);
    hide Possible, Tracking;
    if s.candidate == |c| {
      AtEnd(p, c, s);
    } else if s.pattern < |p| && (p[s.pattern] == QUESTION || p[s.pattern] == c[s.candidate]) {
      LiteralStep(p, c, s);
      LoopIsPossible(p, c, Step(p, c, s).value);
    } else if s.pattern < |p| && p[s.pattern] == STAR {
      StarStep(p, c, s);
      LoopIsPossible(p, c, Step(p, c, s).value);
    } else if s.star.Some? {
      BacktrackStep(p, c, s);
      LoopIsPossible(p, c, Step(p, c, s).value);
    } else {
      GivesUp(p, c, s);
    }
  }

  lemma GivesUp(p: seq<byte>, c: seq<byte>, s: Cursor)
    requires Sane(p, c, s) && s.candidate < |c| && s.star.None?
    requires s.pattern < |p| ==> p[s.pattern] !in {STAR, QUESTION, c[s.candidate]}
    ensures !Possible(p, c, s)
  {
  }

  /** The loop means what patterns mean, for every pattern. */
  lemma CodeIsMatches(p: seq<byte>, c: seq<byte>)
    requires STAR !in c
    ensures CodeMatches(p, c) <==> Matches(p, c)
  {
    hide Matches, Loop;
    LoopIsPossible(p, c, START);
    assert p[0..] == p && c[0..] == c;
  }

  // --------------------------------------------------- candidates with stars

  /** `c` up to its first star, then `*`, then a `?` for every byte left: the
      star in the pattern is spent on the star in the candidate. */
  function Spoiler(c: seq<byte>): (p: seq<byte>)
    ensures |p| == |c| + 1
  {
    c[..IndexOf(c, STAR)] + [STAR] + seq(|c| - IndexOf(c, STAR), _ => QUESTION)
  }

  lemma {:induction false} QuestionsMatch(p: seq<byte>, c: seq<byte>)
    requires |p| == |c| && forall k :: 0 <= k < |p| ==> p[k] == QUESTION
    ensures Matches(p, c)
    decreases |c|
  {
    if c != [] { QuestionsMatch(p[1..], c[1..]); }
  }

  lemma {:induction false} SpoilerMatches(c: seq<byte>, i: nat)
    requires i <= IndexOf(c, STAR) < |c|
    ensures Matches(Spoiler(c)[i..], c[i..])
    decreases IndexOf(c, STAR) - i
  {
    var j, p := IndexOf(c, STAR), Spoiler(c);
    if i < j {
      SpoilerMatches(c, i + 1);
      assert p[i] == c[i] != STAR;
      assert p[i..][1..] == p[i + 1..] && c[i..][1..] == c[i + 1..];
    } else {
      QuestionsMatch(p[j + 1..], c[j..]);
      assert p[j..][1..] == p[j + 1..];
    }
  }

  lemma {:induction false} SpoilerFoolsLoop(c: seq<byte>, i: nat)
    requires STAR in c && i <= |c|
    ensures !Loop(Spoiler(c), c, Cursor(i, i, None, 0))
    decreases |c| - i
  {
    var p := Spoiler(c);
    if i == |c| {
      assert p[i..][0] == QUESTION;
    } else {
      assert p[i] == QUESTION || p[i] == c[i];
      SpoilerFoolsLoop(c, i + 1);
    }
  }

  /** The code is right about a candidate, whatever the pattern, exactly when
      the candidate has no literal star. */
  lemma GlobExact(c: seq<byte>)
    ensures (forall p :: CodeMatches(p, c) <==> Matches(p, c)) <==> STAR !in c
  {
    if STAR in c {
      SpoilerMatches(c, 0);
      SpoilerFoolsLoop(c, 0);
      assert Spoiler(c)[0..] == Spoiler(c) && c[0..] == c;
      assert !CodeMatches(Spoiler(c), c) && Matches(Spoiler(c), c);
    } else {
      forall p ensures CodeMatches(p, c) <==> Matches(p, c) { CodeIsMatches(p, c); }
    }
  }
}
