/**
 Longest-prefix routing (mirror/mod.rs): which mirror rule or proxy cache serves a repository, and
 under which upstream name. A proxy cache is a rule whose direction is always pull.
 */
module Routing {
  import opened Common
  import opened Text

  datatype Rule = Rule(pull: bool, localPrefix: string, upstreamPrefix: Option<string>)

  /** What remains of a name after a prefix that ends on a segment boundary. */
  function PrefixSuffix(repository: string, prefix: string): Option<string> {
    if repository == prefix then Some("")
    else if prefix + "/" <= repository then Some(repository[|prefix| + 1..])
    else None
  }

  function NormalizeUpstreamPrefix(prefix: Option<string>): (r: Option<string>)
    ensures r.Some? ==> r.value != ""
  {
    if prefix.None? then None
    else
      var trimmed := TrimMatches(TrimText(prefix.value), IsSlash);
      if trimmed == "" then None else Some(trimmed)
  }

  function UpstreamRepoFromPrefix(prefix: Option<string>, suffix: string): Option<string> {
    match NormalizeUpstreamPrefix(prefix)
    case Some(p) => Some(if suffix == "" then p else p + "/" + suffix)
    case None => if suffix == "" then None else Some(suffix)
  }

  /** The upstream name a rule gives a repository, None when the rule is not eligible. */
  function Route(rule: Rule, repository: string): Option<string> {
    if !rule.pull then None
    else
      match PrefixSuffix(repository, rule.localPrefix)
      case Some(suffix) => UpstreamRepoFromPrefix(rule.upstreamPrefix, suffix)
      case None => None
  }

  /**
   The rule at `i` is eligible, longer than every earlier eligible one and no shorter than any later one,
   among the first `n`.
   */
  ghost predicate IsBest(rules: seq<Rule>, n: int, repository: string, i: int)
    requires n <= |rules|
  {
    && 0 <= i < n && Route(rules[i], repository).Some?
    && forall j :: 0 <= j < n && Route(rules[j], repository).Some? ==>
         && |rules[j].localPrefix| <= |rules[i].localPrefix|
         && (j < i ==> |rules[j].localPrefix| < |rules[i].localPrefix|)
  }

  method MatchRule(rules: seq<Rule>, repository: string) returns (best: Option<(nat, string)>)
    ensures best.None? <==> forall i :: 0 <= i < |rules| ==> Route(rules[i], repository).None?
    ensures best.Some? ==> && IsBest(rules, |rules|, repository, best.value.0)
                           && Route(rules[best.value.0], repository) == Some(best.value.1)
  {
    best := None;
    for i := 0 to |rules|
      invariant best.None? <==> forall j :: 0 <= j < i ==> Route(rules[j], repository).None?
      invariant best.Some? ==> && IsBest(rules, i, repository, best.value.0)
                               && Route(rules[best.value.0], repository) == Some(best.value.1)
    {
      if !rules[i].pull {
        continue;
      }
      var suffix := PrefixSuffix(repository, rules[i].localPrefix);
      if suffix.Some? {
        var upstream := UpstreamRepoFromPrefix(rules[i].upstreamPrefix, suffix.value);
        if upstream.None? {
          continue;
        }
        if best.None? || |rules[i].localPrefix| > |rules[best.value.0].localPrefix| {
          best := Some((i, upstream.value));
        }
      }
    }
  }

  /** The normalised prefix and the rest, with a '/' between them where both are there; nothing when neither is. */
  ghost predicate Joins(prefix: Option<string>, suffix: string, upstream: string) {
    match prefix
    case Some(p) => upstream == if suffix == "" then p else p + "/" + suffix
    case None => upstream == suffix != ""
  }

  /** A rule serves a repository exactly on a segment boundary, under its upstream prefix and the rest of the name. */
  lemma RouteIff(rule: Rule, repository: string, upstream: string)
    ensures Route(rule, repository) == Some(upstream) <==>
            && rule.pull
            && exists suffix :: && ((repository == rule.localPrefix && suffix == "") ||
                                    repository == rule.localPrefix + "/" + suffix)
                                && Joins(NormalizeUpstreamPrefix(rule.upstreamPrefix), suffix, upstream)
  {
    forall suffix ensures PrefixSuffix(repository, rule.localPrefix) == Some(suffix) <==>
                          (repository == rule.localPrefix && suffix == "") ||
                          repository == rule.localPrefix + "/" + suffix {
      SegmentBoundary(repository, rule.localPrefix, suffix);
    }
  }

  /** A prefix is stripped exactly on a segment boundary: the name is the prefix, or continues it after a '/'. */
  lemma SegmentBoundary(repository: string, prefix: string, suffix: string)
    ensures PrefixSuffix(repository, prefix) == Some(suffix) <==>
            (repository == prefix && suffix == "") || repository == prefix + "/" + suffix
  {
  }

  ghost predicate All(s: string, drop: char -> bool) {
    forall i :: 0 <= i < |s| ==> drop(s[i])
  }

  ghost predicate CleanEnds(s: string, drop: char -> bool) {
    s != "" ==> !drop(s[0]) && !drop(s[|s| - 1])
  }

  lemma {:induction false} TrimStartParts(s: string, drop: char -> bool) returns (pre: string)
    ensures s == pre + TrimStartMatches(s, drop) && All(pre, drop)
    ensures TrimStartMatches(s, drop) != "" ==> !drop(TrimStartMatches(s, drop)[0])
  {
    pre := "";
    if s != "" && drop(s[0]) {
      pre := TrimStartParts(s[1..], drop);
      pre := [s[0]] + pre;
    }
  }

  lemma {:induction false} TrimEndParts(s: string, drop: char -> bool) returns (post: string)
    ensures s == TrimEndMatches(s, drop) + post && All(post, drop)
    ensures TrimEndMatches(s, drop) != "" ==> !drop(TrimEndMatches(s, drop)[|TrimEndMatches(s, drop)| - 1])
  {
    post := "";
    if s != "" && drop(s[|s| - 1]) {
      post := TrimEndParts(s[..|s| - 1], drop);
      post := post + [s[|s| - 1]];
    }
  }

  /** Trimming takes dropped characters off both ends and leaves a text that starts and ends with others. */
  lemma TrimParts(s: string, drop: char -> bool) returns (pre: string, post: string)
    ensures s == pre + TrimMatches(s, drop) + post && All(pre, drop) && All(post, drop)
    ensures CleanEnds(TrimMatches(s, drop), drop)
  {
    pre := TrimStartParts(s, drop);
    var rest := TrimStartMatches(s, drop);
    post := TrimEndParts(rest, drop);
    assert s == pre + (TrimEndMatches(rest, drop) + post);
  }

  predicate IsSlash(c: char) { c == '/' }

  /** White space, slashes, the prefix itself, slashes and white space. */
  ghost predicate IsWrapped(prefix: string, blank: string, slashes: string, p: string, slashes': string,
                            blank': string) {
    && prefix == blank + slashes + p + slashes' + blank'
    && All(blank, IsWhiteSpace) && All(slashes, IsSlash) && All(slashes', IsSlash) && All(blank', IsWhiteSpace)
    && p != "" && p[0] != '/' && p[|p| - 1] != '/'
    && (slashes == "" ==> !IsWhiteSpace(p[0])) && (slashes' == "" ==> !IsWhiteSpace(p[|p| - 1]))
  }

  lemma NormalizedParts(prefix: string) returns (blank: string, slashes: string, slashes': string, blank': string)
    ensures match NormalizeUpstreamPrefix(Some(prefix))
            case Some(p) => IsWrapped(prefix, blank, slashes, p, slashes', blank')
            case None => IsBare(prefix, blank, slashes + slashes', blank')
  {
    blank, blank' := TrimParts(prefix, IsWhiteSpace);
    var text := TrimText(prefix);
    slashes, slashes' := TrimParts(text, IsSlash);
    var p := TrimMatches(text, IsSlash);
    assert blank + (slashes + p + slashes') + blank' == blank + slashes + p + slashes' + blank';
    assert blank + slashes + "" + slashes' + blank' == blank + (slashes + slashes') + blank';
    if p != "" {
      assert slashes == "" ==> text[0] == p[0];
      assert slashes' == "" ==> text[|text| - 1] == p[|p| - 1];
    }
  }

  lemma WrappedIsNormalized(blank: string, slashes: string, p: string, slashes': string, blank': string)
    requires IsWrapped(blank + slashes + p + slashes' + blank', blank, slashes, p, slashes', blank')
    ensures NormalizeUpstreamPrefix(Some(blank + slashes + p + slashes' + blank')) == Some(p)
  {
    var text := slashes + p + slashes';
    var prefix := blank + slashes + p + slashes' + blank';
    assert prefix == blank + (text + blank') && (text + blank')[0] == text[0];
    assert text[0] == if slashes == "" then p[0] else slashes[0];
    assert text[|text| - 1] == if slashes' == "" then p[|p| - 1] else slashes'[|slashes'| - 1];
    TrimsStart(blank, text + blank', IsWhiteSpace);
    TrimsEnd(text, blank', IsWhiteSpace);
    assert text == slashes + (p + slashes') && (p + slashes')[0] == p[0];
    TrimsStart(slashes, p + slashes', IsSlash);
    TrimsEnd(p, slashes', IsSlash);
  }

  /** A configured prefix is normalised to `p` if and only if it is `p` in slashes in white space. */
  lemma NormalizedIff(prefix: string, p: string)
    ensures NormalizeUpstreamPrefix(Some(prefix)) == Some(p) <==>
            exists blank, slashes, slashes', blank' :: IsWrapped(prefix, blank, slashes, p, slashes', blank')
  {
    if NormalizeUpstreamPrefix(Some(prefix)) == Some(p) {
      var blank, slashes, slashes', blank' := NormalizedParts(prefix);
      assert IsWrapped(prefix, blank, slashes, p, slashes', blank');
    }
    if exists blank, slashes, slashes', blank' :: IsWrapped(prefix, blank, slashes, p, slashes', blank') {
      var blank, slashes, slashes', blank' :| IsWrapped(prefix, blank, slashes, p, slashes', blank');
      WrappedIsNormalized(blank, slashes, p, slashes', blank');
    }
  }

  lemma {:induction false} TrimAll(s: string, drop: char -> bool)
    requires All(s, drop)
    ensures TrimStartMatches(s, drop) == "" && TrimEndMatches("", drop) == ""
  {
    if s != "" {
      assert All(s[1..], drop);
      TrimAll(s[1..], drop);
    }
  }

  lemma {:induction false} TrimsStart(pre: string, s: string, drop: char -> bool)
    requires All(pre, drop) && s != "" && !drop(s[0])
    ensures TrimStartMatches(pre + s, drop) == s
  {
    if pre == "" {
      assert pre + s == s;
    } else {
      assert (pre + s)[1..] == pre[1..] + s && (pre + s)[0] == pre[0];
      TrimsStart(pre[1..], s, drop);
    }
  }

  lemma {:induction false} TrimsEnd(s: string, post: string, drop: char -> bool)
    requires All(post, drop) && s != "" && !drop(s[|s| - 1])
    ensures TrimEndMatches(s + post, drop) == s
    decreases |post|
  {
    if post == "" {
      assert s + post == s;
    } else {
      var front := post[..|post| - 1];
      assert (s + post)[..|s + post| - 1] == s + front && (s + post)[|s + post| - 1] == post[|post| - 1];
      TrimsEnd(s, front, drop);
    }
  }

  /** Blanks, slashes, blanks. */
  ghost predicate IsBare(prefix: string, blank: string, slashes: string, blank': string) {
    && prefix == blank + slashes + blank'
    && All(blank, IsWhiteSpace) && All(slashes, IsSlash) && All(blank', IsWhiteSpace)
  }

  /** A configured prefix counts as absent if and only if it is blanks, slashes, blanks. */
  lemma AbsentIff(prefix: string)
    ensures NormalizeUpstreamPrefix(Some(prefix)).None? <==>
            exists blank, slashes, blank' :: IsBare(prefix, blank, slashes, blank')
  {
    if NormalizeUpstreamPrefix(Some(prefix)).None? {
      var blank, s1, s2, blank' := NormalizedParts(prefix);
    }
    if exists blank, slashes, blank' :: IsBare(prefix, blank, slashes, blank') {
      var blank, slashes, blank' :| IsBare(prefix, blank, slashes, blank');
      BareIsAbsent(blank, slashes, blank');
    }
  }

  lemma BareIsAbsent(blank: string, slashes: string, blank': string)
    requires All(blank, IsWhiteSpace) && All(slashes, IsSlash) && All(blank', IsWhiteSpace)
    ensures NormalizeUpstreamPrefix(Some(blank + slashes + blank')).None?
  {
    var prefix := blank + slashes + blank';
    if slashes == "" {
      assert All(prefix, IsWhiteSpace);
      TrimAll(prefix, IsWhiteSpace);
    } else {
      assert prefix == blank + (slashes + blank') && (slashes + blank')[0] == slashes[0];
      TrimsStart(blank, slashes + blank', IsWhiteSpace);
      TrimsEnd(slashes, blank', IsWhiteSpace);
      TrimAll(slashes, IsSlash);
    }
  }

  lemma EligibleIsPrefix(rule: Rule, repository: string)
    requires Route(rule, repository).Some?
    ensures rule.localPrefix <= repository
  {
  }

  /** However the rules are ordered, the same local prefix is chosen, or none. */
  lemma OrderDoesNotMatter(rules: seq<Rule>, permuted: seq<Rule>, repository: string, i: int, k: int)
    requires multiset(rules) == multiset(permuted)
    requires IsBest(rules, |rules|, repository, i) && IsBest(permuted, |permuted|, repository, k)
    ensures rules[i].localPrefix == permuted[k].localPrefix
  {
    assert rules[i] in multiset(permuted) && permuted[k] in multiset(rules);
    var i' :| 0 <= i' < |permuted| && permuted[i'] == rules[i];
    var k' :| 0 <= k' < |rules| && rules[k'] == permuted[k];
    EligibleIsPrefix(rules[i], repository);
    EligibleIsPrefix(permuted[k], repository);
    assert rules[i].localPrefix == repository[..|rules[i].localPrefix|];
  }

  lemma EligibilityIgnoresOrder(rules: seq<Rule>, permuted: seq<Rule>, repository: string)
    requires multiset(rules) == multiset(permuted)
    requires forall i :: 0 <= i < |rules| ==> Route(rules[i], repository).None?
    ensures forall i :: 0 <= i < |permuted| ==> Route(permuted[i], repository).None?
  {
    forall i | 0 <= i < |permuted| ensures Route(permuted[i], repository).None? {
      assert permuted[i] in multiset(rules);
    }
  }

  /**
   Two repositories of one rule share an upstream name exactly when they are the same repository, or
   the rule's prefix with and without a trailing '/'.
   */
  lemma UpstreamNamesCollideIff(rule: Rule, a: string, b: string)
    requires Route(rule, a).Some? && Route(rule, b).Some?
    ensures Route(rule, a) == Route(rule, b) <==>
            a == b || (a == rule.localPrefix && b == rule.localPrefix + "/") ||
                (b == rule.localPrefix && a == rule.localPrefix + "/")
  {
    var p := rule.localPrefix;
    var s, t := PrefixSuffix(a, p).value, PrefixSuffix(b, p).value;
    SegmentBoundary(a, p, s);
    SegmentBoundary(b, p, t);
    SuffixDecides(rule.upstreamPrefix, s, t);
    assert p + "/" + "" == p + "/";
  }

  lemma SuffixDecides(prefix: Option<string>, s: string, t: string)
    requires UpstreamRepoFromPrefix(prefix, s).Some?
    ensures UpstreamRepoFromPrefix(prefix, s) == UpstreamRepoFromPrefix(prefix, t) <==> s == t
  {
    var n := NormalizeUpstreamPrefix(prefix);
    if n.Some? {
      if s != "" && t != "" && n.value + "/" + s == n.value + "/" + t {
        assert s == (n.value + "/" + s)[|n.value| + 1..] == t;
      }
    }
  }

  predicate EndsInSlash(name: string) { name != "" && name[|name| - 1] == '/' }

  /** In particular the mapping is injective on names that do not end in '/'. */
  lemma UpstreamIsInjective(rule: Rule, a: string, b: string)
    requires Route(rule, a).Some? && Route(rule, a) == Route(rule, b) && !EndsInSlash(a) && !EndsInSlash(b)
    ensures a == b
  {
    UpstreamNamesCollideIff(rule, a, b);
    assert EndsInSlash(rule.localPrefix + "/");
  }
}
