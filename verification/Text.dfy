/** The string operations of the Rust standard library that the modelled code relies on. */
module Text {
  import opened Common

  /** Index of the first `c`, or the length when there is none. */
  function IndexOf<T(==)>(s: seq<T>, c: T): (i: nat)
    ensures i <= |s| && c !in s[..i] && (i < |s| ==> s[i] == c) && (i < |s| <==> c in s)
  {
    if s == [] || s[0] == c then 0
    else
      var i := IndexOf(s[1..], c);
      assert s[..i + 1] == [s[0]] + s[1..][..i] && s == [s[0]] + s[1..];
      i + 1
  }

  lemma {:induction false} IndexOfIsUnique<T>(a: seq<T>, c: T, b: seq<T>)
    requires c !in a
    ensures IndexOf(a + [c] + b, c) == |a|
  {
    if a != [] {
      IndexOfIsUnique(a[1..], c, b);
      assert (a + [c] + b)[1..] == a[1..] + [c] + b;
    }
  }

  /** `split_once` */
  function SplitOnce<T(==)>(s: seq<T>, c: T): Option<(seq<T>, seq<T>)> {
    var i := IndexOf(s, c);
    if i < |s| then Some((s[..i], s[i + 1..])) else None
  }

  lemma SplitOnceJoined<T>(a: seq<T>, c: T, b: seq<T>)
    requires c !in a
    ensures SplitOnce(a + [c] + b, c) == Some((a, b))
  {
    IndexOfIsUnique(a, c, b);
    var s := a + [c] + b;
    assert s[..|a|] == a && s[|a| + 1..] == b;
  }

  /** `split`: the pieces between occurrences of `c`, at least one. */
  function Split<T(==)>(s: seq<T>, c: T): (parts: seq<seq<T>>)
    ensures |parts| >= 1
    decreases |s|
  {
    match SplitOnce(s, c)
    case None => [s]
    case Some((head, tail)) => [head] + Split(tail, c)
  }

  lemma SplitJoined<T>(a: seq<T>, c: T, b: seq<T>)
    requires c !in a
    ensures Split(a + [c] + b, c) == [a] + Split(b, c)
  {
    SplitOnceJoined(a, c, b);
  }

  lemma SplitWhole<T>(a: seq<T>, c: T)
    requires c !in a
    ensures Split(a, c) == [a]
  {
  }

  /** The pieces of `splitn(4, c)`, or None when there are fewer than four. */
  function SplitInFour<T(==)>(s: seq<T>, c: T): Option<(seq<T>, seq<T>, seq<T>, seq<T>)> {
    match SplitOnce(s, c)
    case None => None
    case Some((p0, rest0)) =>
      match SplitOnce(rest0, c)
      case None => None
      case Some((p1, rest1)) =>
        match SplitOnce(rest1, c)
        case None => None
        case Some((p2, p3)) => Some((p0, p1, p2, p3))
  }

  lemma SplitInFourJoined<T>(p0: seq<T>, p1: seq<T>, p2: seq<T>, p3: seq<T>, c: T)
    requires c !in p0 && c !in p1 && c !in p2
    ensures SplitInFour(p0 + [c] + (p1 + [c] + (p2 + [c] + p3)), c) == Some((p0, p1, p2, p3))
  {
    SplitOnceJoined(p0, c, p1 + [c] + (p2 + [c] + p3));
    SplitOnceJoined(p1, c, p2 + [c] + p3);
    SplitOnceJoined(p2, c, p3);
  }

  lemma SplitOnceParts<T>(s: seq<T>, c: T)
    ensures match SplitOnce(s, c) case Some((a, b)) => c !in a && s == a + [c] + b case None => c !in s
  {
    var i := IndexOf(s, c);
    if i < |s| {
      assert s == s[..i] + [s[i]] + s[i + 1..];
    }
  }

  lemma SplitParts<T>(s: seq<T>, c: T)
    ensures var parts := Split(s, c);
            if |parts| == 1 then parts == [s] && c !in s
            else var rest := s[|parts[0]| + 1..];
                 c !in parts[0] && s == parts[0] + [c] + rest && parts[1..] == Split(rest, c)
  {
    SplitOnceParts(s, c);
    var i := IndexOf(s, c);
    if i < |s| {
      assert Split(s, c) == [s[..i]] + Split(s[i + 1..], c);
    }
  }

  lemma SplitInFourParts<T>(s: seq<T>, c: T)
    requires SplitInFour(s, c).Some?
    ensures var (p0, p1, p2, p3) := SplitInFour(s, c).value;
            c !in p0 && c !in p1 && c !in p2 && s == p0 + [c] + (p1 + [c] + (p2 + [c] + p3))
  {
    SplitOnceParts(s, c);
    var rest0 := SplitOnce(s, c).value.1;
    SplitOnceParts(rest0, c);
    SplitOnceParts(SplitOnce(rest0, c).value.1, c);
  }

  /** `trim_start_matches` */
  function TrimStartMatches<T>(s: seq<T>, drop: T -> bool): (r: seq<T>)
    ensures |r| <= |s|
  {
    if s != [] && drop(s[0]) then TrimStartMatches(s[1..], drop) else s
  }

  /** `trim_end_matches` */
  function TrimEndMatches<T>(s: seq<T>, drop: T -> bool): seq<T> {
    if s != [] && drop(s[|s| - 1]) then TrimEndMatches(s[..|s| - 1], drop) else s
  }

  function TrimMatches<T>(s: seq<T>, drop: T -> bool): seq<T> {
    TrimEndMatches(TrimStartMatches(s, drop), drop)
  }

  /** The Unicode property White_Space. */
  predicate IsWhiteSpace(c: char) {
    || '\t' <= c <= '\r' || c == ' ' || c == '\U{85}' || c == '\U{A0}' || c == '\U{1680}'
    || '\U{2000}' <= c <= '\U{200A}'
    || c == '\U{2028}' || c == '\U{2029}' || c == '\U{202F}' || c == '\U{205F}' || c == '\U{3000}'
  }

  /** `trim` */
  function TrimText(s: string): string {
    TrimMatches(s, IsWhiteSpace)
  }
}
