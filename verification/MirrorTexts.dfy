/**
 What child texts do to the local repository (mirror/mod.rs, `store_manifest_recursive`). An index names its
 children by texts that nobody checks: a manifest is stored under its SHA-256 digest, and under the text of
 its parent only where that text is a tag.
 */
module MirrorTexts {
  import opened Common
  import opened Digests
  import opened Manifest
  import opened Traversal
  import opened MirrorWalk

  /** The order in which the traversal puts manifests, each with the text of the edge it enters them by. */
  ghost function EntryOrder(w: World, g: map<string, ManifestData>, reference: string, root: ManifestData): seq<Edge>
    requires ClosedEdges(TextLinks(w, g)) && w.sha256(root.body) in g
  {
    TextDfs(TextLinks(w, g), (reference, w.sha256(root.body)), {}).order
  }

  /** The traversal enters some manifest by an edge with that text, and the text is a tag. */
  ghost predicate EnteredAs(w: World, g: map<string, ManifestData>, reference: string, root: ManifestData, t: string)
    requires ClosedEdges(TextLinks(w, g)) && w.sha256(root.body) in g
  {
    ':' !in t && exists d :: (t, d) in EntryOrder(w, g, reference, root)
  }

  /** What a successful run says of its puts, see `MirrorWalk.Repository.StoreManifestRecursive`. */
  ghost predicate Succeeded(w: World, g: map<string, ManifestData>, reference: string, root: ManifestData,
                            trace: seq<Event>) {
    && ClosedEdges(TextLinks(w, g)) && Closed(Links(w, g)) && w.sha256(root.body) in g
    && Puts(trace) == EntryOrder(w, g, reference, root)
    && ReferencesOk(w, g, reference, w.sha256(root.body), trace)
  }

  lemma PutUnderIff(w: World, g: map<string, ManifestData>, reference: string, root: ManifestData, trace: seq<Event>,
                    t: string)
    requires Succeeded(w, g, reference, root, trace)
    ensures PutUnder(trace, t) <==> EnteredAs(w, g, reference, root, t)
  {
    forall d ensures PutManifest(t, d) in trace <==> (t, d) in Puts(trace) {
      PutsMeaning(trace, (t, d));
    }
  }

  lemma {:induction false} LastPutTags(tags: map<string, string>, trace: seq<Event>, reference: string, top: string)
    requires Puts(trace) != [] && Puts(trace)[|Puts(trace)| - 1] == (reference, top) && ':' !in reference
    ensures reference in TagsAfter(tags, trace) && TagsAfter(tags, trace)[reference] == top
    decreases |trace|
  {
    var front, e := trace[..|trace| - 1], trace[|trace| - 1];
    assert trace == front + [e];
    PutsAppend(front, [e]);
    assert Puts([e]) == if e.PutManifest? then [(e.reference, e.digest)] else [];
    if e.PutBlob? {
      assert Puts(front) == Puts(trace);
      LastPutTags(tags, front, reference, top);
    }
  }

  /** After success the caller's tag names the root, whatever the children did to it. */
  lemma RootIsTagged(w: World, g: map<string, ManifestData>, reference: string, root: ManifestData,
                     tags: map<string, string>, trace: seq<Event>)
    requires Succeeded(w, g, reference, root, trace) && ':' !in reference
    ensures reference in TagsAfter(tags, trace) && TagsAfter(tags, trace)[reference] == w.sha256(root.body)
  {
    LastPutTags(tags, trace, reference, w.sha256(root.body));
  }

  /**
   A tag other than the caller's moves if and only if the traversal enters a child by that text, which has
   no ':', and then it names that child.
   */
  lemma OtherTagMovesIff(w: World, g: map<string, ManifestData>, reference: string, root: ManifestData,
                         tags: map<string, string>, trace: seq<Event>, t: string)
    requires Succeeded(w, g, reference, root, trace) && t != reference
    ensures var after := TagsAfter(tags, trace);
            if EnteredAs(w, g, reference, root, t) then IsChildText(w, g, t) && t in after && after[t] == w.named(t)
            else (t in after <==> t in tags) && (t in tags ==> after[t] == tags[t])
  {
    TagMovesIff(tags, trace, t);
    PutUnderIff(w, g, reference, root, trace, t);
  }

  // ---- Where children are found ----

  /** A child text leads to a stored manifest. */
  ghost predicate Found(manifests: map<string, ManifestData>, tags: map<string, string>, c: string) {
    Lookup(manifests, tags, c).Some?
  }

  /**
   After a successful run every child is stored under its SHA-256 digest. Its text is found locally if and
   only if it is a sha256 text, or a sha512 text that was a row before, or any other text that was a tag
   before or by which the traversal enters a manifest.
   */
  lemma ChildIsFoundIff(w: World, g: map<string, ManifestData>, reference: string, root: ManifestData,
                        trace: seq<Event>,
                        before: map<string, ManifestData>, tags: map<string, string>,
                        after: map<string, ManifestData>, n: string, c: string)
    requires Serves(w, g, before, tags, root) && Succeeded(w, g, reference, root, trace)
    requires Written(g, before, after, ManifestOrder(trace))
    requires Reachable(Links(w, g), w.sha256(root.body), n) && n in g && c in Children(w, g[n])
    ensures w.named(c) in g && w.named(c) in after && after[w.named(c)] == g[w.named(c)]
    ensures Found(after, TagsAfter(tags, trace), c) <==>
            if IsDigestText(c) then SHA256 <= c || c in before
            else c in tags || EnteredAs(w, g, reference, root, c)
  {
    var links, top := Links(w, g), w.sha256(root.body);
    NamesInGraph(w, g, n);
    ReachableStep(links, top, n, w.named(c));
    DfsPutsExactlyTheReachable(links, top);
    TextDfsVisits(TextLinks(w, g), (reference, top), {});
    assert IsChildText(w, g, c);
    TagMovesIff(tags, trace, c);
    PutUnderIff(w, g, reference, root, trace, c);
    if PutUnder(trace, c) {
      PutsAreOrdered(trace, PutManifest(c, TagsAfter(tags, trace)[c]));
    }
    FoundIff(w, g, top, ManifestOrder(trace), before, tags, after, TagsAfter(tags, trace), c, PutUnder(trace, c));
  }

  lemma FoundIff(w: World, g: map<string, ManifestData>, top: string, order: seq<string>,
                 before: map<string, ManifestData>,
                 tags: map<string, string>, after: map<string, ManifestData>, tags': map<string, string>, c: string,
                 put: bool)
    requires Written(g, before, after, order) && (forall d :: d in g ==> SHA256 <= d)
    requires ChildOk(w, g, top, before, tags, c) && w.named(c) in order
    requires if put then c in tags' && tags'[c] in order
             else (c in tags' <==> c in tags) && (c in tags ==> tags'[c] == tags[c])
    ensures Found(after, tags', c) <==> if IsDigestText(c) then SHA256 <= c || c in before else c in tags || put
  {
    if c in order {
      assert c in g;
    }
  }

  // ---- It does happen ----

  /** A child with nothing below it, served upstream. */
  ghost predicate LeafOk(w: World, g: map<string, ManifestData>, top: string, c: string) {
    && (SHA256 <= c ==> w.named(c) == c)
    && w.named(c) in g && w.named(c) != top && Children(w, g[w.named(c)]) == [] && w.upstream(c) == g[w.named(c)]
  }

  ghost predicate NodeOk(w: World, g: map<string, ManifestData>, d: string)
    requires d in g
  {
    SHA256 <= d && w.sha256(g[d].body) == d && Parses(w, g[d])
  }

  /** A graph of one index and the leaves its texts stand for, in a world where nothing fails. */
  ghost predicate Star(w: World, g: map<string, ManifestData>, root: ManifestData, cs: seq<string>) {
    && w.sha256(root.body) in g && g[w.sha256(root.body)] == root && Children(w, root) == cs
    && (forall d :: d in g ==> NodeOk(w, g, d))
    && (forall d :: d in g && d != w.sha256(root.body) ==> exists c :: c in cs && w.named(c) == d)
    && (forall c :: c in cs ==> LeafOk(w, g, w.sha256(root.body), c))
    && forall k :: !w.fails(k)
  }

  lemma OnlyTheRootHasChildren(w: World, g: map<string, ManifestData>, root: ManifestData, cs: seq<string>)
    requires Star(w, g, root, cs)
    ensures forall d :: d in g && d != w.sha256(root.body) ==> Children(w, g[d]) == []
  {
    forall d | d in g && d != w.sha256(root.body) ensures Children(w, g[d]) == [] {
      var c :| c in cs && w.named(c) == d;
      assert LeafOk(w, g, w.sha256(root.body), c);
    }
  }

  lemma StarLinks(w: World, g: map<string, ManifestData>, root: ManifestData, cs: seq<string>)
    requires Star(w, g, root, cs)
    ensures ClosedEdges(TextLinks(w, g)) && Closed(Links(w, g))
    ensures TextLinks(w, g)[w.sha256(root.body)] == EdgesTo(w, cs)
    ensures forall e :: e in EdgesTo(w, cs) ==>
              e.1 in g && e.1 != w.sha256(root.body) && TextLinks(w, g)[e.1] == []
  {
    var edges := TextLinks(w, g);
    forall e | e in EdgesTo(w, cs) ensures e.1 in g && e.1 != w.sha256(root.body) && edges[e.1] == [] {
      var i :| 0 <= i < |cs| && EdgesTo(w, cs)[i] == e;
      assert LeafOk(w, g, w.sha256(root.body), cs[i]);
      assert EdgesTo(w, []) == [];
    }
    OnlyTheRootHasChildren(w, g, root, cs);
    PlainIsClosed(edges);
  }

  /** The walk accepts every star on an empty repository. */
  lemma StarIsServed(w: World, g: map<string, ManifestData>, root: ManifestData, cs: seq<string>)
    requires Star(w, g, root, cs)
    ensures Serves(w, g, map[], map[], root)
    ensures AllParse(w, g, Dfs(Links(w, g), w.sha256(root.body), {}).order)
  {
    StarLinks(w, g, root, cs);
    OnlyTheRootHasChildren(w, g, root, cs);
    var top := w.sha256(root.body);
    forall c | IsChildText(w, g, c) ensures ChildOk(w, g, top, map[], map[], c) {
      assert LeafOk(w, g, top, c) && NodeOk(w, g, w.named(c));
    }
    forall d | d in g ensures SHA256 <= d && w.sha256(g[d].body) == d && Parses(w, g[d]) { assert NodeOk(w, g, d); }
    DfsPutsExactlyTheNewNodes(Links(w, g), top, {});
  }

  /** The edge at `i` is the first one to a node that is not marked. */
  ghost predicate FirstTo(es: seq<Edge>, seen: set<string>, i: nat) {
    i < |es| && es[i].1 !in seen && forall j :: 0 <= j < i ==> es[j].1 != es[i].1
  }

  lemma {:induction false} StarOrder(g: Edges, es: seq<Edge>, seen: set<string>, e: Edge)
    requires ClosedEdges(g) && seen <= g.Keys && forall x :: x in es ==> x.1 in g && g[x.1] == []
    ensures e in TextDfsAll(g, es, seen).order <==> exists i: nat :: FirstTo(es, seen, i) && es[i] == e
    decreases |es|
  {
    if es != [] {
      var first := TextDfs(g, es[0], seen);
      assert TextDfsAll(g, [], seen + {es[0].1}) == TextVisit(seen + {es[0].1}, []);
      assert first.order == if es[0].1 in seen then [] else [es[0]];
      StarOrder(g, es[1..], first.seen, e);
      FirstToShift(es, seen, first.seen, e);
    }
  }

  lemma FirstToShift(es: seq<Edge>, seen: set<string>, marked: set<string>, e: Edge)
    requires es != [] && marked == seen + {es[0].1}
    ensures (exists i: nat :: FirstTo(es, seen, i) && es[i] == e) <==>
            (es[0].1 !in seen && e == es[0]) || exists i: nat :: FirstTo(es[1..], marked, i) && es[1..][i] == e
  {
    if i: nat :| FirstTo(es, seen, i) && es[i] == e {
      if i > 0 {
        assert es[0].1 != es[i].1;
        assert FirstTo(es[1..], marked, i - 1);
      }
    }
    if i: nat :| FirstTo(es[1..], marked, i) && es[1..][i] == e {
      assert FirstTo(es, seen, i + 1);
    }
    if es[0].1 !in seen && e == es[0] {
      assert FirstTo(es, seen, 0);
    }
  }

  /** No text before it stands for the same manifest. */
  ghost predicate IsFirst(named: string -> string, cs: seq<string>, c: string) {
    exists i: nat :: FirstAt(named, cs, c, i)
  }

  ghost predicate FirstAt(named: string -> string, cs: seq<string>, c: string, i: nat) {
    i < |cs| && cs[i] == c && forall j :: 0 <= j < i ==> named(cs[j]) != named(c)
  }

  lemma FirstEdges(w: World, cs: seq<string>, top: string, c: string)
    requires forall x :: x in cs ==> w.named(x) != top
    ensures IsFirst(w.named, cs, c) <==>
            exists d, i: nat :: FirstTo(EdgesTo(w, cs), {top}, i) && EdgesTo(w, cs)[i] == (c, d)
  {
    var es := EdgesTo(w, cs);
    if i: nat :| FirstAt(w.named, cs, c, i) {
      assert FirstTo(es, {top}, i) && es[i] == (c, w.named(c));
    }
    if d, i: nat :| FirstTo(es, {top}, i) && es[i] == (c, d) {
      assert forall j :: 0 <= j < i ==> es[j].1 == w.named(cs[j]);
      assert FirstAt(w.named, cs, c, i);
    }
  }

  /** In a star, a child is entered by a text exactly when no earlier text stands for the same manifest. */
  lemma EnteredIffFirst(w: World, g: map<string, ManifestData>, root: ManifestData, cs: seq<string>,
                        reference: string, c: string)
    requires Star(w, g, root, cs) && c != reference && ':' !in c
    ensures ClosedEdges(TextLinks(w, g))
    ensures EnteredAs(w, g, reference, root, c) <==> IsFirst(w.named, cs, c)
  {
    StarLinks(w, g, root, cs);
    var edges, top, es := TextLinks(w, g), w.sha256(root.body), EdgesTo(w, cs);
    var none: set<string> := {};
    assert none + {top} == {top};
    var kids := TextDfsAll(edges, es, {top}).order;
    assert EntryOrder(w, g, reference, root) == kids + [(reference, top)];
    forall d ensures (c, d) in kids <==> exists i: nat :: FirstTo(es, {top}, i) && es[i] == (c, d) {
      StarOrder(edges, es, {top}, (c, d));
    }
    forall x | x in cs ensures w.named(x) != top { assert LeafOk(w, g, top, x); }
    FirstEdges(w, cs, top, c);
  }

  /**
   On an empty repository, a child with a sha512 text is stored and yet not found under it, and a text
   without ':' becomes a tag exactly when a child is entered by it.
   */
  lemma TextsMatter(w: World, g: map<string, ManifestData>, reference: string, root: ManifestData, trace: seq<Event>,
                    after: map<string, ManifestData>, c: string)
    requires Serves(w, g, map[], map[], root) && Succeeded(w, g, reference, root, trace)
    requires Written(g, map[], after, ManifestOrder(trace)) && c in Children(w, root)
    ensures w.named(c) in g && w.named(c) in after && after[w.named(c)] == g[w.named(c)]
    ensures SHA512 <= c ==> !Found(after, TagsAfter(map[], trace), c)
    ensures c != reference ==>
              var tags := TagsAfter(map[], trace);
              (c in tags <==> EnteredAs(w, g, reference, root, c)) && (c in tags ==> tags[c] == w.named(c))
  {
    var top := w.sha256(root.body);
    assert IsPath(Links(w, g), [top]);
    ChildIsFoundIff(w, g, reference, root, trace, map[], map[], after, top, c);
    if SHA512 <= c {
      OneAlgorithm(c);
    }
    if c != reference {
      OtherTagMovesIff(w, g, reference, root, map[], trace, c);
    }
  }

  lemma OneAlgorithm(c: string)
    requires SHA512 <= c
    ensures !(SHA256 <= c)
  {
    assert SHA256[3] != SHA512[3];
  }

  /**
   The walk itself, run on a star and an empty repository: it stores the index and the manifest of every text,
   finds none under a sha512 text, and leaves a tag for every text without ':' that is the first to stand for
   its manifest.
   */
  method WalkStar(w: World, root: ManifestData, cs: seq<string>, reference: string, ghost g: map<string, ManifestData>)
    returns (r: Repository)
    requires Star(w, g, root, cs)
    ensures r.manifests == g
    ensures forall c :: c in cs && SHA512 <= c ==> !Found(r.manifests, r.tags, c)
    ensures forall c :: c in cs && ':' !in c && c != reference ==>
              (c in r.tags <==> IsFirst(w.named, cs, c)) && (c in r.tags ==> r.tags[c] == w.named(c))
  {
    r := new Repository();
    StarIsServed(w, g, root, cs);
    var ok;
    ghost var trace;
    ok, trace := r.StoreManifestRecursive(w, reference, root, g);
    forall c | c in cs
      ensures w.named(c) in r.manifests && (SHA512 <= c ==> !Found(r.manifests, r.tags, c)) {
      TextsMatter(w, g, reference, root, trace, r.manifests, c);
    }
    forall c | c in cs && ':' !in c && c != reference
      ensures (c in r.tags <==> IsFirst(w.named, cs, c)) && (c in r.tags ==> r.tags[c] == w.named(c)) {
      TextsMatter(w, g, reference, root, trace, r.manifests, c);
      EnteredIffFirst(w, g, root, cs, reference, c);
    }
    StoredGraph(w, g, root, cs, r.manifests, ManifestOrder(trace));
  }

  lemma StoredGraph(w: World, g: map<string, ManifestData>, root: ManifestData, cs: seq<string>,
                    manifests: map<string, ManifestData>, order: seq<string>)
    requires Star(w, g, root, cs) && Written(g, map[], manifests, order)
    requires w.sha256(root.body) in manifests && forall c :: c in cs ==> w.named(c) in manifests
    ensures manifests == g
  {
  }

  // ---- An index with any list of texts ----

  const ROOT := ManifestData([], OCI_INDEX)

  function Descriptor(c: string): Json { Object(map["digest" := Str(c), "size" := Number(1)]) }

  function Descriptors(cs: seq<string>): (r: seq<Json>)
    ensures |r| == |cs| && forall i :: 0 <= i < |cs| ==> r[i] == Descriptor(cs[i])
  {
    seq(|cs|, i requires 0 <= i < |cs| => Descriptor(cs[i]))
  }

  function IndexNaming(cs: seq<string>): Json { Object(map["manifests" := Array(Descriptors(cs))]) }

  function Id(c: string): string { if SHA256 <= c then c else SHA256 + c }

  function Joined(cs: seq<string>): string { if cs == [] then "!" else cs[0] + Joined(cs[1..]) }

  /** Longer than all the others. */
  function RootId(cs: seq<string>): string { SHA256 + Joined(cs) }

  /** The place of the first text that stands for the manifest of that name. */
  function PlaceOf(cs: seq<string>, id: string): nat {
    if cs == [] || Id(cs[0]) == id then 0 else 1 + PlaceOf(cs[1..], id)
  }

  function IdAt(cs: seq<string>, n: nat): string { if 1 <= n <= |cs| then Id(cs[n - 1]) else RootId(cs) }

  function Blank(n: nat): (r: seq<byte>)
    ensures |r| == n
  {
    seq(n, i => 0)
  }

  /** The leaf of that name; the length of its body tells which one it is. */
  function Leaf(cs: seq<string>, id: string): ManifestData { ManifestData(Blank(PlaceOf(cs, id) + 1), "") }

  /** An upstream that serves an index with these texts and a leaf for each; nothing ever fails. */
  function WorldOf(cs: seq<string>): World {
    World(b => IdAt(cs, |b|),
          b => if b == [] then Some(IndexNaming(cs)) else Some(Null),
          c => Leaf(cs, Id(c)),
          Id,
          k => false,
          k => false)
  }

  ghost function IdSet(cs: seq<string>): set<string> { set c | c in cs :: Id(c) }

  ghost function GraphOf(cs: seq<string>): map<string, ManifestData> {
    map d | d in {RootId(cs)} + IdSet(cs) :: if d == RootId(cs) then ROOT else Leaf(cs, d)
  }

  lemma {:induction false} PlaceMeaning(cs: seq<string>, c: string)
    requires c in cs
    ensures PlaceOf(cs, Id(c)) < |cs| && Id(cs[PlaceOf(cs, Id(c))]) == Id(c)
  {
    if Id(cs[0]) != Id(c) {
      assert c in cs[1..];
      PlaceMeaning(cs[1..], c);
    }
  }

  lemma {:induction false} JoinedIsLong(cs: seq<string>, c: string)
    requires c in cs
    ensures |c| < |Joined(cs)|
  {
    if c != cs[0] {
      assert c in cs[1..];
      JoinedIsLong(cs[1..], c);
    } else {
      JoinedIsNotEmpty(cs[1..]);
    }
  }

  lemma JoinedIsNotEmpty(cs: seq<string>)
    ensures Joined(cs) != ""
  {
  }

  lemma {:induction false} NamingIsRead(cs: seq<string>)
    ensures Collect(ChildDigest, Descriptors(cs)) == cs
  {
    if cs != [] {
      NamingIsRead(cs[1..]);
      assert Descriptors(cs)[1..] == Descriptors(cs[1..]) && ChildDigest(Descriptor(cs[0])) == Some(cs[0]);
    }
  }

  lemma ChildrenByType(w: World, m: ManifestData, json: Json)
    requires w.parse(m.body) == Some(json)
    ensures m.contentType == OCI_INDEX ==> Children(w, m) == ChildManifests(json)
    ensures m.contentType == "" ==> Children(w, m) == []
  {
    assert OCI_INDEX != "" && DOCKER_LIST != "";
  }

  /** What such an upstream answers for a body, and for a text. */
  ghost predicate BodyOk(w: World, cs: seq<string>, n: nat) {
    w.sha256(Blank(n)) == IdAt(cs, n) && (n > 0 ==> w.parse(Blank(n)) == Some(Null))
  }

  ghost predicate TextOk(w: World, cs: seq<string>, c: string) {
    w.upstream(c) == Leaf(cs, Id(c)) && w.named(c) == Id(c)
  }

  ghost predicate AnswersFor(w: World, cs: seq<string>) {
    && (forall n: nat {:trigger BodyOk(w, cs, n)} :: BodyOk(w, cs, n))
    && (forall c {:trigger TextOk(w, cs, c)} :: TextOk(w, cs, c))
    && (forall k :: !w.fails(k)) && w.parse([]) == Some(IndexNaming(cs))
  }

  lemma WorldAnswers(w: World, cs: seq<string>)
    requires w == WorldOf(cs)
    ensures AnswersFor(w, cs)
  {
  }

  lemma RootOfStar(w: World, cs: seq<string>)
    requires AnswersFor(w, cs)
    ensures Children(w, ROOT) == cs
  {
    NamingIsRead(cs);
    ChildrenByType(w, ROOT, IndexNaming(cs));
    assert Items(IndexNaming(cs), "manifests") == Descriptors(cs);
  }

  lemma LeafOfStar(w: World, cs: seq<string>, c: string)
    requires AnswersFor(w, cs) && c in cs
    ensures var leaf := Leaf(cs, Id(c));
            w.sha256(leaf.body) == Id(c) && Parses(w, leaf) && Children(w, leaf) == []
  {
    PlaceMeaning(cs, c);
    assert BodyOk(w, cs, PlaceOf(cs, Id(c)) + 1);
    ChildrenByType(w, Leaf(cs, Id(c)), Null);
  }

  lemma IdsAreOther(cs: seq<string>, c: string)
    requires c in cs
    ensures SHA256 <= Id(c) && Id(c) != RootId(cs) && (SHA256 <= c ==> Id(c) == c)
  {
    JoinedIsLong(cs, c);
  }

  lemma GraphNodes(cs: seq<string>)
    ensures RootId(cs) in GraphOf(cs) && GraphOf(cs)[RootId(cs)] == ROOT && SHA256 <= RootId(cs)
    ensures forall c :: c in cs ==> Id(c) in GraphOf(cs) && GraphOf(cs)[Id(c)] == Leaf(cs, Id(c))
    ensures forall d :: d in GraphOf(cs) && d != RootId(cs) ==> exists c :: c in cs && Id(c) == d
  {
    forall c | c in cs ensures Id(c) != RootId(cs) { IdsAreOther(cs, c); }
  }

  lemma IsStar(w: World, cs: seq<string>)
    requires AnswersFor(w, cs)
    ensures Star(w, GraphOf(cs), ROOT, cs)
  {
    var g, top := GraphOf(cs), RootId(cs);
    GraphNodes(cs);
    RootOfStar(w, cs);
    assert BodyOk(w, cs, 0) && Blank(0) == ROOT.body;
    forall c | c in cs ensures LeafOk(w, g, top, c) && NodeOk(w, g, Id(c)) {
      LeafOfStar(w, cs, c);
      assert TextOk(w, cs, c);
      IdsAreOther(cs, c);
    }
    forall d | d in g && d != top ensures NodeOk(w, g, d) && exists c :: c in cs && w.named(c) == d {
      var c :| c in cs && Id(c) == d;
      assert TextOk(w, cs, c);
    }
  }

  /** Any list of texts can name the children of an index: each of their manifests is stored, and the index. */
  method WalkByTexts(cs: seq<string>, reference: string) returns (r: Repository)
    ensures RootId(cs) in r.manifests && forall c :: c in cs ==> Id(c) in r.manifests
    ensures forall c :: c in cs && SHA512 <= c ==> !Found(r.manifests, r.tags, c)
    ensures forall c :: c in cs && ':' !in c && c != reference ==>
              (c in r.tags <==> IsFirst(WorldOf(cs).named, cs, c)) && (c in r.tags ==> r.tags[c] == Id(c))
  {
    var w := WorldOf(cs);
    WorldAnswers(w, cs);
    IsStar(w, cs);
    GraphNodes(cs);
    r := WalkStar(w, ROOT, cs, reference, GraphOf(cs));
  }
}
