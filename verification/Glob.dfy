/** Tag patterns (mirror/mod.rs, `glob_matches`): a greedy search proved against the meaning of `*`. */
module Glob {
  import opened Common

  /** The meaning of a pattern: `*` stands for any text, every other character for itself. */
  ghost predicate Matches(p: string, v: string) {
    MatchesFrom(p, 0, v, 0)
  }

  /** The pattern from position `i` on accepts the value from position `j` on. */
  ghost predicate MatchesFrom(p: string, i: nat, v: string, j: nat)
    requires i <= |p| && j <= |v|
    decreases |p| - i, |v| - j
  {
    if i == |p| then j == |v|
    else if p[i] == '*' then MatchesFrom(p, i + 1, v, j) || (j < |v| && MatchesFrom(p, i, v, j + 1))
    else j < |v| && v[j] == p[i] && MatchesFrom(p, i + 1, v, j + 1)
  }

  predicate OccursAt(v: string, j: nat, part: string) {
    j + |part| <= |v| && forall t :: 0 <= t < |part| ==> v[j + t] == part[t]
  }

  predicate EndsWith(v: string, part: string) {
    |part| <= |v| && OccursAt(v, |v| - |part|, part)
  }

  /** `find` on the value from position `j` on: the leftmost occurrence. */
  function Find(v: string, part: string, j: nat): (r: Option<nat>)
    requires j <= |v|
    ensures r.Some? ==> j <= r.value && r.value + |part| <= |v|
    decreases |v| - j
  {
    if OccursAt(v, j, part) then Some(j) else if j == |v| then None else Find(v, part, j + 1)
  }

  lemma {:induction false} FindIsLeftmost(v: string, part: string, j: nat, k: nat)
    requires j <= k <= |v| && OccursAt(v, k, part)
    ensures Find(v, part, j).Some? && Find(v, part, j).value <= k
    decreases |v| - j
  {
    if !OccursAt(v, j, part) {
      FindIsLeftmost(v, part, j + 1, k);
    }
  }

  lemma {:induction false} FindOccurs(v: string, part: string, j: nat)
    requires j <= |v| && Find(v, part, j).Some?
    ensures OccursAt(v, Find(v, part, j).value, part)
    decreases |v| - j
  {
    if !OccursAt(v, j, part) {
      FindOccurs(v, part, j + 1);
    }
  }

  function NextStar(p: string, i: nat): (k: nat)
    requires i <= |p|
    ensures i <= k <= |p| && (k < |p| ==> p[k] == '*') && forall t :: i <= t < k ==> p[t] != '*'
    decreases |p| - i
  {
    if i == |p| || p[i] == '*' then i else NextStar(p, i + 1)
  }

  /** `split('*')` of the pattern from position `i` on. */
  function Segments(p: string, i: nat): (segments: seq<string>)
    requires i <= |p|
    ensures segments != []
    decreases |p| - i
  {
    var k := NextStar(p, i);
    if k == |p| then [p[i..]] else [p[i..k]] + Segments(p, k + 1)
  }

  function NonEmpty(segments: seq<string>): seq<string> {
    if segments == [] then []
    else if segments[0] == "" then NonEmpty(segments[1..])
    else [segments[0]] + NonEmpty(segments[1..])
  }

  /** Where the search ends up after finding `parts[m..]` in turn from position `j` on. */
  ghost function Greedy(parts: seq<string>, m: nat, v: string, j: nat): Option<nat>
    requires m <= |parts| && j <= |v|
    decreases |parts| - m
  {
    if m == |parts| then Some(j)
    else
      match Find(v, parts[m], j)
      case Some(k) => Greedy(parts, m + 1, v, k + |parts[m]|)
      case None => None
  }

  method GlobMatches(pattern: string, value: string) returns (matches: bool)
    ensures matches <==> Matches(pattern, value)
  {
    if pattern == "*" {
      StarMeaning(pattern, 0, value, 0);
      assert Segments(pattern, 1) == [""];
      return true;
    }
    if '*' !in pattern {
      LiteralMeaning(pattern, 0, value, 0);
      assert pattern[0..] == pattern && value[0..] == value;
      return pattern == value;
    }
    SearchMeaning(pattern, value);
    var parts := NonEmpty(Segments(pattern, 0));
    if parts == [] {
      return true;
    }
    if pattern[0] != '*' && !OccursAt(value, 0, parts[0]) {
      return false;
    }
    var start: nat := 0;
    for i := 0 to |parts|
      invariant start <= |value|
      invariant Greedy(parts, 0, value, 0) == Greedy(parts, i, value, start)
    {
      var found := Find(value, parts[i], start);
      if found.None? {
        return false;
      }
      start := found.value + |parts[i]|;
    }
    if pattern[|pattern| - 1] != '*' {
      return EndsWith(value, parts[|parts| - 1]);
    }
    return true;
  }

  // ---- From the meaning of a pattern to its segments ----

  /** The value from `j` on is a `*`, then `segments[m]`, then a `*`, and so on, the last segment at the very end. */
  ghost predicate Floats(segments: seq<string>, m: nat, v: string, j: nat)
    requires m < |segments| && j <= |v|
    decreases |segments| - m, |v| - j
  {
    if m + 1 == |segments| then j + |segments[m]| <= |v| && EndsWith(v, segments[m])
    else
      || (OccursAt(v, j, segments[m]) && Floats(segments, m + 1, v, j + |segments[m]|))
      || (j < |v| && Floats(segments, m, v, j + 1))
  }

  lemma {:induction false} FloatsShift(s: string, segments: seq<string>, m: nat, v: string, j: nat)
    requires m < |segments| && j <= |v|
    ensures Floats([s] + segments, m + 1, v, j) <==> Floats(segments, m, v, j)
    decreases |segments| - m, |v| - j
  {
    if m + 1 < |segments| {
      if OccursAt(v, j, segments[m]) {
        FloatsShift(s, segments, m + 1, v, j + |segments[m]|);
      }
      if j < |v| {
        FloatsShift(s, segments, m, v, j + 1);
      }
    }
  }

  lemma {:induction false} LiteralRun(p: string, i: nat, k: nat, v: string, j: nat)
    requires i <= k <= |p| && j <= |v| && forall t :: i <= t < k ==> p[t] != '*'
    ensures MatchesFrom(p, i, v, j) <==> OccursAt(v, j, p[i..k]) && MatchesFrom(p, k, v, j + (k - i))
    decreases k - i
  {
    if i < k {
      var part, rest := p[i..k], p[i + 1..k];
      if j < |v| && v[j] == p[i] {
        LiteralRun(p, i + 1, k, v, j + 1);
        if OccursAt(v, j + 1, rest) {
          forall t | 0 <= t < |part| ensures v[j + t] == part[t] { assert t > 0 ==> rest[t - 1] == part[t]; }
        }
        if OccursAt(v, j, part) {
          forall t | 0 <= t < |rest| ensures v[j + 1 + t] == rest[t] { assert part[t + 1] == rest[t]; }
        }
      } else {
        assert part[0] == p[i];
      }
    }
  }

  lemma LiteralMeaning(p: string, i: nat, v: string, j: nat)
    requires i <= |p| && j <= |v| && forall t :: i <= t < |p| ==> p[t] != '*'
    ensures MatchesFrom(p, i, v, j) <==> p[i..] == v[j..]
  {
    LiteralRun(p, i, |p|, v, j);
    assert p[i..|p|] == p[i..];
    if p[i..] == v[j..] {
      forall t | 0 <= t < |p| - i ensures v[j + t] == p[i..][t] { assert v[j..][t] == v[j + t]; }
    }
  }

  lemma LastSegment(v: string, part: string, j: nat)
    requires j <= |v|
    ensures j + |part| <= |v| && EndsWith(v, part) <==>
            part == v[j..] || (j + 1 + |part| <= |v| && EndsWith(v, part))
  {
  }

  lemma {:induction false} StarMeaning(p: string, i: nat, v: string, j: nat)
    requires i < |p| && p[i] == '*' && j <= |v|
    ensures MatchesFrom(p, i, v, j) <==> Floats(Segments(p, i + 1), 0, v, j)
    decreases |p| - i, |v| - j
  {
    if j < |v| {
      StarMeaning(p, i, v, j + 1);
    }
    var k := NextStar(p, i + 1);
    if k == |p| {
      LiteralMeaning(p, i + 1, v, j);
      LastSegment(v, p[i + 1..], j);
    } else {
      LiteralRun(p, i + 1, k, v, j);
      if OccursAt(v, j, p[i + 1..k]) {
        StarMeaning(p, k, v, j + (k - i - 1));
        FloatsShift(p[i + 1..k], Segments(p, k + 1), 0, v, j + (k - i - 1));
      }
    }
  }

  // ---- Greedy search is enough ----

  lemma {:induction false} FloatsFurtherLeft(segments: seq<string>, m: nat, v: string, i: nat, j: nat)
    requires m < |segments| && i <= j <= |v| && Floats(segments, m, v, j)
    ensures Floats(segments, m, v, i)
    decreases j - i
  {
    if i < j {
      FloatsFurtherLeft(segments, m, v, i + 1, j);
    }
  }

  lemma {:induction false} FloatsSomewhere(segments: seq<string>, m: nat, v: string, j: nat) returns (k: nat)
    requires m + 1 < |segments| && j <= |v| && Floats(segments, m, v, j)
    ensures j <= k && OccursAt(v, k, segments[m]) && Floats(segments, m + 1, v, k + |segments[m]|)
    decreases |v| - j
  {
    if OccursAt(v, j, segments[m]) && Floats(segments, m + 1, v, j + |segments[m]|) {
      k := j;
    } else {
      k := FloatsSomewhere(segments, m, v, j + 1);
    }
  }

  /** Taking the leftmost occurrence of every segment, and then testing the end, loses nothing. */
  lemma {:induction false} FloatsIffGreedy(segments: seq<string>, m: nat, v: string, j: nat)
    requires m < |segments| && j <= |v|
    ensures var last := segments[|segments| - 1];
            && (Greedy(segments, m, v, j).Some? ==> j + |last| <= |v|)
            && (Floats(segments, m, v, j) <==> Greedy(segments, m, v, j).Some? && EndsWith(v, last))
    decreases |segments| - m
  {
    var found, n := Find(v, segments[m], j), |segments[m]|;
    if m + 1 == |segments| {
      if j + n <= |v| && EndsWith(v, segments[m]) {
        FindIsLeftmost(v, segments[m], j, |v| - n);
      }
      assert Greedy(segments, m, v, j).Some? <==> found.Some?;
    } else {
      if found.Some? {
        FindOccurs(v, segments[m], j);
        FloatsIffGreedy(segments, m + 1, v, found.value + n);
        if Floats(segments, m + 1, v, found.value + n) {
          FloatsFurtherLeft(segments, m, v, j, found.value);
        }
      }
      if Floats(segments, m, v, j) {
        var k := FloatsSomewhere(segments, m, v, j);
        FindIsLeftmost(v, segments[m], j, k);
        FloatsFurtherLeft(segments, m + 1, v, found.value + n, k + n);
      }
    }
  }

  // ---- Empty segments ----

  lemma {:induction false} GreedyShift(s: string, parts: seq<string>, m: nat, v: string, j: nat)
    requires m <= |parts| && j <= |v|
    ensures Greedy([s] + parts, m + 1, v, j) == Greedy(parts, m, v, j)
    decreases |parts| - m
  {
    if m < |parts| && Find(v, parts[m], j).Some? {
      GreedyShift(s, parts, m + 1, v, Find(v, parts[m], j).value + |parts[m]|);
    }
  }

  lemma {:induction false} GreedyIgnoresEmpty(segments: seq<string>, v: string, j: nat)
    requires j <= |v|
    ensures Greedy(NonEmpty(segments), 0, v, j) == Greedy(segments, 0, v, j)
  {
    if segments != [] {
      var rest := segments[1..];
      assert segments == [segments[0]] + rest;
      if Find(v, segments[0], j).Some? {
        var k := Find(v, segments[0], j).value + |segments[0]|;
        GreedyShift(segments[0], rest, 0, v, k);
        GreedyShift(segments[0], NonEmpty(rest), 0, v, k);
        GreedyIgnoresEmpty(rest, v, k);
      }
    }
  }

  lemma {:induction false} FilteringKeepsEnds(segments: seq<string>)
    requires segments != []
    ensures var parts, last := NonEmpty(segments), segments[|segments| - 1];
            && (segments[0] != "" ==> parts != [] && parts[0] == segments[0])
            && (last != "" ==> parts != [] && parts[|parts| - 1] == last)
            && (parts == [] ==> forall s :: s in segments ==> s == "")
  {
    if |segments| > 1 {
      FilteringKeepsEnds(segments[1..]);
      assert segments == [segments[0]] + segments[1..];
    } else {
      assert segments[1..] == [];
    }
  }

  lemma {:induction false} SegmentEnds(p: string, i: nat)
    requires i <= |p|
    ensures var segments := Segments(p, i);
            && (segments[0] == "" <==> i == |p| || p[i] == '*')
            && (segments[|segments| - 1] == "" <==> i == |p| || p[|p| - 1] == '*')
    decreases |p| - i
  {
    var k := NextStar(p, i);
    if k < |p| {
      SegmentEnds(p, k + 1);
    }
  }

  lemma PatternMeaning(p: string, v: string)
    requires '*' in p
    ensures var segments := Segments(p, 0);
            Matches(p, v) <==>
            OccursAt(v, 0, segments[0]) && Greedy(segments, 0, v, 0).Some? && EndsWith(v, segments[|segments| - 1])
  {
    var k := NextStar(p, 0);
    var first, rest := p[0..k], Segments(p, k + 1);
    LiteralRun(p, 0, k, v, 0);
    if OccursAt(v, 0, first) {
      assert Find(v, first, 0) == Some(0);
      StarMeaning(p, k, v, k);
      FloatsIffGreedy(rest, 0, v, k);
      GreedyShift(first, rest, 0, v, k);
    }
  }

  /** The tests the search makes, put together, are the meaning of the pattern. */
  lemma SearchMeaning(p: string, v: string)
    requires '*' in p
    ensures var parts := NonEmpty(Segments(p, 0));
            if parts == [] then Matches(p, v)
            else Matches(p, v) <==>
                 && (p[0] == '*' || OccursAt(v, 0, parts[0]))
                 && Greedy(parts, 0, v, 0).Some?
                 && (p[|p| - 1] == '*' || EndsWith(v, parts[|parts| - 1]))
  {
    var segments := Segments(p, 0);
    PatternMeaning(p, v);
    SegmentEnds(p, 0);
    FilteringKeepsEnds(segments);
    GreedyIgnoresEmpty(segments, v, 0);
    assert segments[0] in segments && segments[|segments| - 1] in segments;
  }
}
