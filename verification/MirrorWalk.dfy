/**
 The pull side of the mirror engine (mirror/mod.rs, `store_manifest_recursive`):
 an explicit-stack walk that stores a manifest graph into a local repository,
 proved against the recursive post-order of `Traversal`.
 */
module MirrorWalk {
  import opened Common
  import opened Digests
  import opened Manifest
  import opened Traversal

  datatype ManifestData = ManifestData(body: seq<byte>, contentType: string)

  /**
   Everything outside the walk. `upstream(d)` is what the remote registry serves
   for digest `d` when it answers, and `fails(k)` says whether the k-th call to
   the remote registry, the metadata store or the blob store fails. Statements
   refer to manifests by their SHA-256 digest; `named(c)` is that digest for the
   manifest a child text `c` stands for, whatever its syntax. `blind(k)` says
   whether the k-th lookup in the blob store fails, which counts as absent.
   */
  datatype World = World(
    sha256: seq<byte> -> string,
    parse: seq<byte> -> Option<Json>,
    upstream: string -> ManifestData,
    named: string -> string,
    fails: nat -> bool,
    blind: nat -> bool)

  /** None of the calls made in between failed. */
  ghost predicate NoFailure(w: World, from: nat, to: nat) {
    forall k :: from <= k < to ==> !w.fails(k)
  }

  lemma NoFailureSplits(w: World, a: nat, b: nat, c: nat)
    requires a <= b <= c
    ensures NoFailure(w, a, c) <==> NoFailure(w, a, b) && NoFailure(w, b, c)
  {
  }

  predicate Parses(w: World, m: ManifestData) { w.parse(m.body).Some? }

  function Children(w: World, m: ManifestData): seq<string> {
    match w.parse(m.body)
    case Some(json) => if IsIndexManifest(m.contentType) then ChildManifests(json) else []
    case None => []
  }

  function PrintAll(ds: seq<Digest>): seq<string> {
    seq(|ds|, i requires 0 <= i < |ds| => ToString(ds[i]))
  }

  /** The blobs a leaf manifest has pulled: its descriptors with a valid digest and a size. */
  function Blobs(w: World, m: ManifestData): seq<string> {
    match w.parse(m.body)
    case Some(json) => if IsIndexManifest(m.contentType) then [] else PrintAll(DigestsOf(SizedDescriptors(json)))
    case None => []
  }

  // ---- What the documents name ----

  /** An OCI image index or a Docker manifest list. */
  ghost predicate HasIndexType(m: ManifestData) { m.contentType == OCI_INDEX || m.contentType == DOCKER_LIST }

  /** The manifest is an index with an entry for that text. */
  ghost predicate MentionsChild(w: World, m: ManifestData, c: string) {
    w.parse(m.body).Some? && HasIndexType(m) && HasChild(w.parse(m.body).value, c)
  }

  /** The manifest is no index and describes a blob of that digest. */
  ghost predicate MentionsBlob(w: World, m: ManifestData, b: string) {
    && w.parse(m.body).Some? && !HasIndexType(m) && IsDigest(b)
    && exists item, size :: IsBlobEntry(w.parse(m.body).value, item) && Describes(item, b, size)
  }

  lemma ChildrenIff(w: World, m: ManifestData, c: string)
    ensures c in Children(w, m) <==> MentionsChild(w, m, c)
  {
    if w.parse(m.body).Some? {
      ChildIff(w.parse(m.body).value, c);
    }
  }

  lemma BlobsIff(w: World, m: ManifestData, b: string)
    ensures b in Blobs(w, m) <==> MentionsBlob(w, m, b)
  {
    AcceptedIff(b);
    if w.parse(m.body).Some? && !IsIndexManifest(m.contentType) {
      DescribedIff(w.parse(m.body).value, b);
    }
  }

  lemma DescribedIff(v: Json, b: string)
    ensures b in PrintAll(DigestsOf(SizedDescriptors(v))) <==>
            FromStrChecked(b).Some? && exists item, size :: IsBlobEntry(v, item) && Describes(item, b, size)
  {
    var ds := SizedDescriptors(v);
    var texts := PrintAll(DigestsOf(ds));
    if b in texts {
      var i :| 0 <= i < |texts| && texts[i] == b;
      assert ds[i] in ds && b == ToString(ds[i].digest);
      SizedIff(v, ds[i].digest, ds[i].size);
      ParsePrint(b, ds[i].digest);
    }
    if FromStrChecked(b).Some? && exists item, size :: IsBlobEntry(v, item) && Describes(item, b, size) {
      var d := FromStrChecked(b).value;
      var item, size :| IsBlobEntry(v, item) && Describes(item, b, size);
      ParsePrint(b, d);
      SizedIff(v, d, size);
      var i :| 0 <= i < |ds| && ds[i] == SizedDescriptor(d, size);
      assert texts[i] == b;
    }
  }

  /** The edges to the children: each text with the manifest it stands for. */
  ghost function EdgesTo(w: World, cs: seq<string>): (r: seq<Edge>)
    ensures |r| == |cs| && forall i :: 0 <= i < |cs| ==> r[i] == (cs[i], w.named(cs[i]))
  {
    seq(|cs|, i requires 0 <= i < |cs| => (cs[i], w.named(cs[i])))
  }

  ghost function TextLinks(w: World, g: map<string, ManifestData>): (r: Edges)
    ensures r.Keys == g.Keys
  {
    map d | d in g :: EdgesTo(w, Children(w, g[d]))
  }

  ghost function Links(w: World, g: map<string, ManifestData>): Graph {
    Plain(TextLinks(w, g))
  }

  // ---- What the walk did ----

  datatype Event = PutBlob(digest: string) | PutManifest(reference: string, digest: string)

  /** The manifests put, each with the reference it was put under. */
  ghost function Puts(trace: seq<Event>): seq<Edge> {
    if trace == [] then []
    else
      var rest := Puts(trace[1..]);
      if trace[0].PutManifest? then [(trace[0].reference, trace[0].digest)] + rest else rest
  }

  ghost function ManifestOrder(trace: seq<Event>): seq<string> {
    Targets(Puts(trace))
  }

  ghost function BlobSet(trace: seq<Event>): set<string> {
    set e | e in trace && e.PutBlob? :: e.digest
  }

  lemma {:induction false} PutsAppend(a: seq<Event>, b: seq<Event>)
    ensures Puts(a + b) == Puts(a) + Puts(b)
  {
    if a == [] {
      assert a + b == b;
    } else {
      PutsAppend(a[1..], b);
      assert (a + b)[1..] == a[1..] + b;
    }
  }

  lemma ManifestOrderAppend(a: seq<Event>, b: seq<Event>)
    ensures ManifestOrder(a + b) == ManifestOrder(a) + ManifestOrder(b)
  {
    PutsAppend(a, b);
  }

  lemma {:induction false} NoManifests(a: seq<Event>)
    requires forall e :: e in a ==> e.PutBlob?
    ensures Puts(a) == []
  {
    if a != [] {
      assert a[0] in a;
      NoManifests(a[1..]);
    }
  }

  lemma {:induction false} PutsMeaning(trace: seq<Event>, e: Edge)
    ensures e in Puts(trace) <==> PutManifest(e.0, e.1) in trace
  {
    if trace != [] {
      PutsMeaning(trace[1..], e);
      assert trace == [trace[0]] + trace[1..];
    }
  }

  /** Appending one manifest put whose blobs are all there. */
  lemma RecordPut(w: World, g: map<string, ManifestData>, had: set<string>, trace: seq<Event>, put: Event)
    requires BlobsFirst(w, g, had, trace) && put.PutManifest? && put.digest in g
    requires forall b :: b in Blobs(w, g[put.digest]) ==> b in had + BlobSet(trace)
    ensures BlobsFirst(w, g, had, trace + [put]) && BlobSet(trace + [put]) == BlobSet(trace)
    ensures Puts(trace + [put]) == Puts(trace) + [(put.reference, put.digest)]
    ensures ManifestOrder(trace + [put]) == ManifestOrder(trace) + [put.digest]
  {
    assert [put][1..] == [] && BlobSet([put]) == {};
    assert BlobsBefore(w, g, had + BlobSet(trace), [put], 0);
    BlobsFirstAppend(w, g, had, trace, [put]);
    PutsAppend(trace, [put]);
    ManifestOrderAppend(trace, [put]);
    assert Puts([put]) == [(put.reference, put.digest)];
  }

  lemma BlobsAreDigests(w: World, m: ManifestData)
    ensures forall b :: b in Blobs(w, m) ==> FromStrChecked(b).Some?
  {
    if w.parse(m.body).Some? {
      SizedAreValid(BlobPositions(w.parse(m.body).value));
      forall d | Valid(d) ensures FromStrChecked(ToString(d)).Some? { ParsePrint(ToString(d), d); }
    }
  }

  lemma {:induction false} SizedAreValid(items: seq<Json>)
    ensures forall d :: d in Collect(SizedDescriptorOf, items) ==> Valid(d.digest)
  {
    if items != [] {
      SizedAreValid(items[1..]);
      if SizedDescriptorOf(items[0]).Some? {
        ParsePrint(AsString(Get(items[0], "digest")).value, SizedDescriptorOf(items[0]).value.digest);
      }
    }
  }

  /** When the i-th event puts a manifest, the blobs of that manifest are already there. */
  ghost predicate BlobsBefore(w: World, g: map<string, ManifestData>, had: set<string>, trace: seq<Event>, i: nat)
    requires i < |trace|
  {
    trace[i].PutManifest? && trace[i].digest in g ==>
      forall b :: b in Blobs(w, g[trace[i].digest]) ==> b in had + BlobSet(trace[..i])
  }

  ghost predicate BlobsFirst(w: World, g: map<string, ManifestData>, had: set<string>, trace: seq<Event>) {
    forall i :: 0 <= i < |trace| ==> BlobsBefore(w, g, had, trace, i)
  }

  lemma BlobSetAppend(a: seq<Event>, b: seq<Event>)
    ensures BlobSet(a + b) == BlobSet(a) + BlobSet(b)
  {
  }

  lemma BlobsFirstAppend(w: World, g: map<string, ManifestData>, had: set<string>, a: seq<Event>, b: seq<Event>)
    requires BlobsFirst(w, g, had, a) && BlobsFirst(w, g, had + BlobSet(a), b)
    ensures BlobsFirst(w, g, had, a + b) && BlobSet(a + b) == BlobSet(a) + BlobSet(b)
  {
    BlobSetAppend(a, b);
    forall i | 0 <= i < |a + b| ensures BlobsBefore(w, g, had, a + b, i) {
      if i < |a| {
        assert (a + b)[..i] == a[..i] && BlobsBefore(w, g, had, a, i);
      } else {
        var k := i - |a|;
        assert (a + b)[..i] == a + b[..k] && (a + b)[i] == b[k] && BlobsBefore(w, g, had + BlobSet(a), b, k);
        BlobSetAppend(a, b[..k]);
      }
    }
  }

  // ---- The local repository ----

  ghost function Resolve(w: World, manifests: map<string, ManifestData>, tags: map<string, string>,
                         c: string): ManifestData {
    var local := Lookup(manifests, tags, c);
    if local.Some? then local.value else w.upstream(c)
  }

  /**
   A child text stands, locally or upstream, for the graph's manifest of that name; for `top` any body
   with its hash will do. A text that is a local tag does not dangle, and names its row by hash.
   */
  ghost predicate ChildOk(w: World, g: map<string, ManifestData>, top: string,
                          manifests: map<string, ManifestData>, tags: map<string, string>, c: string)
  {
    && (SHA256 <= c ==> w.named(c) == c)
    && (!IsDigestText(c) && c in tags ==> tags[c] in manifests && (SHA256 <= tags[c] ==> tags[c] == w.named(c)))
    && w.sha256(Resolve(w, manifests, tags, c).body) == w.named(c)
    && (w.named(c) in g && w.named(c) != top ==> Resolve(w, manifests, tags, c) == g[w.named(c)])
  }

  ghost predicate IsChildText(w: World, g: map<string, ManifestData>, c: string) {
    exists d :: d in g && c in Children(w, g[d])
  }

  /** The finite graph the walk sees, keyed by SHA-256 digest and closed under children. */
  ghost predicate Resolves(w: World, g: map<string, ManifestData>, top: string,
                           manifests: map<string, ManifestData>, tags: map<string, string>)
  {
    && top in g && ClosedEdges(TextLinks(w, g)) && Closed(Links(w, g))
    && (forall d :: d in g ==> SHA256 <= d && w.sha256(g[d].body) == d)
    && (forall c :: IsChildText(w, g, c) ==> ChildOk(w, g, top, manifests, tags, c))
  }

  ghost predicate Serves(w: World, g: map<string, ManifestData>, manifests: map<string, ManifestData>,
                         tags: map<string, string>, root: ManifestData)
  {
    Resolves(w, g, w.sha256(root.body), manifests, tags) && g[w.sha256(root.body)] == root
  }

  // ---- Tags ----

  /** What the puts of a history make of the tags: a reference without ':' is one. */
  ghost function TagsAfter(tags: map<string, string>, trace: seq<Event>): map<string, string> {
    if trace == [] then tags
    else
      var before, e := TagsAfter(tags, trace[..|trace| - 1]), trace[|trace| - 1];
      if e.PutManifest? && ':' !in e.reference then before[e.reference := e.digest] else before
  }

  lemma {:induction false} TagsAfterAppend(tags: map<string, string>, a: seq<Event>, b: seq<Event>)
    ensures TagsAfter(tags, a + b) == TagsAfter(TagsAfter(tags, a), b)
    decreases |b|
  {
    if b == [] {
      assert a + b == a;
    } else {
      TagsAfterAppend(tags, a, b[..|b| - 1]);
      assert (a + b)[..|a + b| - 1] == a + b[..|b| - 1];
    }
  }

  lemma {:induction false} BlobsMoveNoTag(tags: map<string, string>, trace: seq<Event>)
    requires forall e :: e in trace ==> e.PutBlob?
    ensures TagsAfter(tags, trace) == tags
    decreases |trace|
  {
    if trace != [] {
      assert trace[|trace| - 1] in trace;
      BlobsMoveNoTag(tags, trace[..|trace| - 1]);
    }
  }

  ghost predicate PutUnder(trace: seq<Event>, t: string) {
    ':' !in t && exists d :: PutManifest(t, d) in trace
  }

  /** A tag is written exactly when some put went by it as its reference, and then names what such a put stored. */
  lemma {:induction false} TagMovesIff(tags: map<string, string>, trace: seq<Event>, t: string)
    ensures var after := TagsAfter(tags, trace);
            if PutUnder(trace, t) then t in after && PutManifest(t, after[t]) in trace
            else (t in after <==> t in tags) && (t in tags ==> after[t] == tags[t])
    decreases |trace|
  {
    if trace != [] {
      var front, e := trace[..|trace| - 1], trace[|trace| - 1];
      TagMovesIff(tags, front, t);
      assert trace == front + [e];
      if PutUnder(front, t) {
        var d :| PutManifest(t, d) in front;
        assert PutManifest(t, d) in trace;
      }
      if ':' !in t && e.PutManifest? && e.reference == t {
        assert PutManifest(t, e.digest) in trace;
      }
    }
  }

  /** The root goes by the caller's reference and every other manifest by the text of one of its parents. */
  ghost predicate RefersTo(w: World, g: map<string, ManifestData>, used: string, reference: string, n: string,
                           top: string) {
    if n == top then used == reference else IsChildText(w, g, used) && w.named(used) == n
  }

  ghost predicate ReferencesOk(w: World, g: map<string, ManifestData>, reference: string, top: string,
                               trace: seq<Event>) {
    forall e :: e in trace && e.PutManifest? ==> RefersTo(w, g, e.reference, reference, e.digest, top)
  }

  lemma PutsAreOrdered(trace: seq<Event>, e: Event)
    requires e in trace && e.PutManifest?
    ensures e.digest in ManifestOrder(trace)
  {
    PutsMeaning(trace, (e.reference, e.digest));
    var i :| 0 <= i < |Puts(trace)| && Puts(trace)[i] == (e.reference, e.digest);
    assert ManifestOrder(trace)[i] == e.digest;
  }

  /** Until the root is put, storing rows of the graph does not change what any child text resolves to. */
  lemma ResolvesAfterWrites(w: World, g: map<string, ManifestData>, top: string, reference: string,
                            before: map<string, ManifestData>, tags: map<string, string>,
                            after: map<string, ManifestData>, trace: seq<Event>)
    requires Resolves(w, g, top, before, tags) && Written(g, before, after, ManifestOrder(trace))
    requires ReferencesOk(w, g, reference, top, trace) && top !in ManifestOrder(trace)
    ensures Resolves(w, g, top, after, TagsAfter(tags, trace))
  {
    forall c | IsChildText(w, g, c) ensures ChildOk(w, g, top, after, TagsAfter(tags, trace), c) {
      assert ChildOk(w, g, top, before, tags, c);
      if IsDigestText(c) {
        DigestResolves(w, g, top, before, tags, after, TagsAfter(tags, trace), ManifestOrder(trace), c);
      } else {
        TagMovesIff(tags, trace, c);
        if PutUnder(trace, c) {
          PutsAreOrdered(trace, PutManifest(c, TagsAfter(tags, trace)[c]));
        }
        TagResolves(w, g, top, before, tags, after, TagsAfter(tags, trace), ManifestOrder(trace), c);
      }
    }
  }

  lemma DigestResolves(w: World, g: map<string, ManifestData>, top: string, before: map<string, ManifestData>,
                       tags: map<string, string>, after: map<string, ManifestData>, tags': map<string, string>,
                       order: seq<string>, c: string)
    requires ChildOk(w, g, top, before, tags, c) && IsDigestText(c) && Written(g, before, after, order)
    requires forall d :: d in g ==> SHA256 <= d && w.sha256(g[d].body) == d
    ensures ChildOk(w, g, top, after, tags', c)
  {
    if c in order {
      assert c in g && SHA256 <= c;
    }
  }

  lemma TagResolves(w: World, g: map<string, ManifestData>, top: string, before: map<string, ManifestData>,
                    tags: map<string, string>, after: map<string, ManifestData>, tags': map<string, string>,
                    order: seq<string>, c: string)
    requires ChildOk(w, g, top, before, tags, c) && !IsDigestText(c) && Written(g, before, after, order) &&
             top !in order
    requires forall d :: d in g ==> SHA256 <= d && w.sha256(g[d].body) == d
    requires || (c in tags' && tags'[c] == w.named(c) && tags'[c] in order)
             || (c in tags && c in tags' && tags'[c] == tags[c])
             || (c !in tags && c !in tags')
    ensures ChildOk(w, g, top, after, tags', c)
  {
    if c in tags' && tags'[c] in order {
      assert tags'[c] in g;
    }
  }

  /** The rows of `order` now hold the graph's manifests and no other row changed. */
  ghost predicate Written(g: map<string, ManifestData>, before: map<string, ManifestData>,
                          after: map<string, ManifestData>, order: seq<string>)
  {
    && (forall d :: d in order ==> d in g && d in after && after[d] == g[d])
    && (forall d :: d !in order ==> (d in after <==> d in before) && (d in after ==> after[d] == before[d]))
  }

  datatype WalkFrame =
    | ProcessFrame(reference: string, data: ManifestData)
    | StoreFrame(reference: string, data: ManifestData)

  ghost function Abstract(w: World, f: WalkFrame): Frame {
    var e := (f.reference, w.sha256(f.data.body));
    if f.ProcessFrame? then Process(e) else Store(e)
  }

  ghost function AbstractStack(w: World, stack: seq<WalkFrame>): (r: seq<Frame>)
    ensures |r| == |stack| && forall i :: 0 <= i < |stack| ==> r[i] == Abstract(w, stack[i])
  {
    seq(|stack|, i requires 0 <= i < |stack| => Abstract(w, stack[i]))
  }

  /** A frame that will still be acted on carries the graph's own data and reference. */
  ghost predicate FrameOk(w: World, g: map<string, ManifestData>, top: string, reference: string,
                          visited: set<string>, f: WalkFrame)
  {
    var n := w.sha256(f.data.body);
    && n in g
    && (f.StoreFrame? ==> IsIndexManifest(f.data.contentType) && Parses(w, f.data))
    && (f.StoreFrame? || n !in visited ==> f.data == g[n] && RefersTo(w, g, f.reference, reference, n, top))
  }

  ghost predicate OrderGrows(before: seq<Edge>, after: seq<Edge>, e: Edge, ok: bool) {
    after == before + [e] || (!ok && after == before)
  }

  /** One run of the walk: its arguments and the state it started from. */
  datatype Run = Run(w: World, g: map<string, ManifestData>, reference: string, root: ManifestData,
                     manifests: map<string, ManifestData>, tags: map<string, string>, blobs: set<string>)
  {
    ghost function Top(): string { w.sha256(root.body) }

    ghost function FullOrder(): seq<string>
      requires Serves(w, g, manifests, tags, root)
    {
      Dfs(Links(w, g), Top(), {}).order
    }

    /** The same order, each manifest with the text of the edge it is entered by. */
    ghost function TextOrder(): seq<Edge>
      requires Serves(w, g, manifests, tags, root)
    {
      TextDfs(TextLinks(w, g), (reference, Top()), {}).order
    }

    /** Every frame is usable, and the root is marked before anything else. */
    ghost predicate Framed(stack: seq<WalkFrame>, visited: set<string>) {
      && visited <= g.Keys
      && (visited == {} ==> stack == [ProcessFrame(reference, root)])
      && (visited != {} ==> Top() in visited)
      && (forall f :: f in stack ==> FrameOk(w, g, Top(), reference, visited, f))
    }
  }

  lemma FramedAfterPop(run: Run, below: seq<WalkFrame>, f: WalkFrame, visited: set<string>)
    requires run.Top() in run.g && run.Framed(below + [f], visited)
    ensures FrameOk(run.w, run.g, run.Top(), run.reference, visited, f)
    ensures visited != {} ==> run.Framed(below, visited)
    ensures run.Framed(below, visited + {run.w.sha256(f.data.body)})
    ensures f.ProcessFrame? && run.w.sha256(f.data.body) !in visited && IsIndexManifest(f.data.contentType) &&
              Parses(run.w, f.data) ==>
              run.Framed(below + [StoreFrame(f.reference, f.data)], visited + {run.w.sha256(f.data.body)})
  {
    var stack := below + [f];
    assert stack[|below|] == f;
    assert forall x :: x in below ==> x in stack;
    if visited == {} {
      assert f == ProcessFrame(run.reference, run.root);
    }
  }

  lemma NamesInGraph(w: World, g: map<string, ManifestData>, n: string)
    requires ClosedEdges(TextLinks(w, g)) && n in g
    ensures forall c :: c in Children(w, g[n]) ==> w.named(c) in g && w.named(c) in Links(w, g)[n]
  {
    var cs, edges := Children(w, g[n]), TextLinks(w, g);
    forall i | 0 <= i < |cs| ensures w.named(cs[i]) in g && w.named(cs[i]) in Links(w, g)[n] {
      assert edges[n][i] == (cs[i], w.named(cs[i])) && edges[n][i] in edges[n];
      assert Links(w, g)[n][i] == w.named(cs[i]);
    }
  }

  lemma RemainingAfterOpen(run: Run, below: seq<WalkFrame>, f: WalkFrame, pushed: seq<WalkFrame>, visited: set<string>,
                           put: seq<Edge>, full: seq<Edge>)
    requires Remaining(TextLinks(run.w, run.g), AbstractStack(run.w, below + [f]), visited, put, full)
    requires f.ProcessFrame? && run.w.sha256(f.data.body) !in visited
    requires var n := run.w.sha256(f.data.body);
             var store := StoreFrame(f.reference, f.data);
             && n in run.g
             && AbstractStack(run.w, pushed) ==
                PushReversed(AbstractStack(run.w, below + [store]), TextLinks(run.w, run.g)[n])
    ensures var marked := visited + {run.w.sha256(f.data.body)};
            Remaining(TextLinks(run.w, run.g), AbstractStack(run.w, pushed), marked, put, full)
  {
    var e, rest := (f.reference, run.w.sha256(f.data.body)), AbstractStack(run.w, below);
    assert AbstractStack(run.w, below + [f]) == rest + [Process(e)];
    assert AbstractStack(run.w, below + [StoreFrame(f.reference, f.data)]) == rest + [Store(e)];
    RemainingAfterPop(TextLinks(run.w, run.g), rest, Process(e), visited, put, full);
  }

  lemma RemainingAfterFrame(run: Run, below: seq<WalkFrame>, f: WalkFrame, visited: set<string>, put: seq<Edge>,
                            full: seq<Edge>)
    requires Remaining(TextLinks(run.w, run.g), AbstractStack(run.w, below + [f]), visited, put, full)
    ensures var n, links, rest := run.w.sha256(f.data.body), TextLinks(run.w, run.g), AbstractStack(run.w, below);
            var e := (f.reference, n);
            && n in run.g
            && (f.StoreFrame? ==> Remaining(links, rest, visited, put + [e], full))
            && (f.ProcessFrame? && n in visited ==> Remaining(links, rest, visited, put, full))
            && (f.ProcessFrame? && n !in visited && Children(run.w, run.g[n]) == [] ==>
                  Remaining(links, rest, visited + {n}, put + [e], full))
  {
    var rest := AbstractStack(run.w, below);
    assert AbstractStack(run.w, below + [f]) == rest + [Abstract(run.w, f)];
    RemainingAfterPop(TextLinks(run.w, run.g), rest, Abstract(run.w, f), visited, put, full);
  }

  lemma PrefixTargets(a: seq<Edge>, b: seq<Edge>)
    requires a <= b
    ensures Targets(a) <= Targets(b)
  {
  }

  // ---- What a run of the walk means ----

  lemma PutsAreEvents(trace: seq<Event>, d: string)
    requires d in ManifestOrder(trace)
    ensures exists i :: 0 <= i < |trace| && trace[i].PutManifest? && trace[i].digest == d
  {
    var k :| 0 <= k < |Puts(trace)| && Puts(trace)[k].1 == d;
    var e := Puts(trace)[k];
    PutsMeaning(trace, e);
    var i :| 0 <= i < |trace| && trace[i] == PutManifest(e.0, e.1);
  }

  /**
   Referential closure at every intermediate state: in a run that may have failed anywhere, each
   manifest was put after all its children, provided the reachable graph has no cycle.
   */
  lemma EveryPutFollowsItsChildren(w: World, g: map<string, ManifestData>, root: ManifestData, trace: seq<Event>,
                                   rank: string -> nat)
    requires w.sha256(root.body) in g && Closed(Links(w, g))
    requires ManifestOrder(trace) <= Dfs(Links(w, g), w.sha256(root.body), {}).order
    requires Ranked(Links(w, g), Dfs(Links(w, g), w.sha256(root.body), {}).seen, rank)
    ensures ChildFirst(Links(w, g), ManifestOrder(trace))
  {
    var links, top := Links(w, g), w.sha256(root.body);
    DfsIsChildFirstIffAcyclic(links, top);
    PrefixIsChildFirst(links, Dfs(links, top, {}).order, ManifestOrder(trace));
  }

  /**
   After a successful run, whatever the repository held before (for instance a manifest left by a
   lazy pull), every reachable manifest is stored and every reachable sized blob is present.
   */
  lemma SuccessStoresEverything(w: World, g: map<string, ManifestData>, root: ManifestData,
                                had: set<string>, trace: seq<Event>,
                                before: map<string, ManifestData>, after: map<string, ManifestData>, n: string)
    requires w.sha256(root.body) in g && Closed(Links(w, g))
    requires ManifestOrder(trace) == Dfs(Links(w, g), w.sha256(root.body), {}).order
    requires BlobsFirst(w, g, had, trace) && Written(g, before, after, ManifestOrder(trace))
    requires Reachable(Links(w, g), w.sha256(root.body), n)
    ensures n in g && n in after && after[n] == g[n]
    ensures forall b :: b in Blobs(w, g[n]) ==> b in had + BlobSet(trace)
  {
    DfsPutsExactlyTheReachable(Links(w, g), w.sha256(root.body));
    PutsAreEvents(trace, n);
    var i :| 0 <= i < |trace| && trace[i].PutManifest? && trace[i].digest == n;
    assert BlobsBefore(w, g, had, trace, i);
    assert BlobSet(trace[..i]) <= BlobSet(trace) by { assert forall e :: e in trace[..i] ==> e in trace; }
  }

  /** Everything the document of `m` names is stored. */
  ghost predicate HasAll(w: World, g: map<string, ManifestData>, m: ManifestData,
                         manifests: map<string, ManifestData>, blobs: set<string>) {
    && (forall c :: MentionsChild(w, m, c) ==>
          w.named(c) in g && w.named(c) in manifests && manifests[w.named(c)] == g[w.named(c)])
    && (forall b :: MentionsBlob(w, m, b) ==> b in blobs)
  }

  /** The root is stored, and with each manifest put everything its document names. */
  ghost predicate Whole(w: World, g: map<string, ManifestData>, root: ManifestData, order: seq<string>,
                        manifests: map<string, ManifestData>, blobs: set<string>) {
    && w.sha256(root.body) in order && w.sha256(root.body) in manifests && manifests[w.sha256(root.body)] == root
    && (forall d :: d in order ==> d in g && HasAll(w, g, g[d], manifests, blobs))
    && (forall d, c :: d in order && d in g && MentionsChild(w, g[d], c) ==> w.named(c) in order)
  }

  lemma NamedIsStored(w: World, g: map<string, ManifestData>, root: ManifestData, had: set<string>, trace: seq<Event>,
                      before: map<string, ManifestData>, after: map<string, ManifestData>, d: string)
    requires w.sha256(root.body) in g && Closed(Links(w, g)) && ClosedEdges(TextLinks(w, g))
    requires ManifestOrder(trace) == Dfs(Links(w, g), w.sha256(root.body), {}).order
    requires BlobsFirst(w, g, had, trace) && Written(g, before, after, ManifestOrder(trace))
    requires d in ManifestOrder(trace)
    ensures d in g && HasAll(w, g, g[d], after, had + BlobSet(trace))
    ensures forall c :: MentionsChild(w, g[d], c) ==> w.named(c) in ManifestOrder(trace)
  {
    var links, top := Links(w, g), w.sha256(root.body);
    DfsPutsExactlyTheReachable(links, top);
    SuccessStoresEverything(w, g, root, had, trace, before, after, d);
    NamesInGraph(w, g, d);
    forall c | MentionsChild(w, g[d], c)
      ensures w.named(c) in ManifestOrder(trace) && w.named(c) in g && w.named(c) in after &&
              after[w.named(c)] == g[w.named(c)] {
      ChildrenIff(w, g[d], c);
      ReachableStep(links, top, d, w.named(c));
    }
    forall b | MentionsBlob(w, g[d], b) ensures b in had + BlobSet(trace) {
      BlobsIff(w, g[d], b);
    }
  }

  lemma SuccessIsWhole(w: World, g: map<string, ManifestData>, root: ManifestData, had: set<string>, trace: seq<Event>,
                       before: map<string, ManifestData>, after: map<string, ManifestData>)
    requires w.sha256(root.body) in g && g[w.sha256(root.body)] == root
    requires Closed(Links(w, g)) && ClosedEdges(TextLinks(w, g))
    requires ManifestOrder(trace) == Dfs(Links(w, g), w.sha256(root.body), {}).order
    requires BlobsFirst(w, g, had, trace) && Written(g, before, after, ManifestOrder(trace))
    ensures Whole(w, g, root, ManifestOrder(trace), after, had + BlobSet(trace))
  {
    DfsPutsExactlyTheNewNodes(Links(w, g), w.sha256(root.body), {});
    forall d | d in ManifestOrder(trace)
      ensures d in g && HasAll(w, g, g[d], after, had + BlobSet(trace))
      ensures forall c :: MentionsChild(w, g[d], c) ==> w.named(c) in ManifestOrder(trace) {
      NamedIsStored(w, g, root, had, trace, before, after, d);
    }
  }

  /** Only blobs that were asked for and were not there are put. */
  ghost predicate OnlyMissing(digests: seq<string>, had: set<string>, events: seq<Event>) {
    forall e :: e in events ==> e.digest in digests && e.digest !in had
  }

  class Repository {
    var manifests: map<string, ManifestData>
    var tags: map<string, string>
    var blobs: set<string>
    /** How many outside calls were made, the index into `World.fails`. */
    var calls: nat
    /** How many blobs were looked up, the index into `World.blind`. */
    var lookups: nat

    constructor ()
      ensures manifests == map[] && tags == map[] && blobs == {} && calls == 0 && lookups == 0
    {
      manifests, tags, blobs, calls, lookups := map[], map[], {}, 0, 0;
    }

    /** One outside call. */
    method Call(w: World) returns (ok: bool)
      modifies this`calls
      ensures ok == !w.fails(old(calls)) && calls == old(calls) + 1
    {
      ok := !w.fails(calls);
      calls := calls + 1;
    }

    method PutManifestEntry(w: World, reference: string, m: ManifestData) returns (ok: bool, ghost events: seq<Event>)
      modifies this`manifests, this`tags, this`calls
      ensures ok ==> events != []
      ensures events == [] || events == [PutManifest(reference, w.sha256(m.body))]
      ensures events == [] ==> manifests == old(manifests) && tags == old(tags)
      ensures events != [] ==>
                && manifests == old(manifests)[w.sha256(m.body) := m]
                && tags == if ':' in reference then old(tags) else old(tags)[reference := w.sha256(m.body)]
      ensures old(calls) < calls && (ok <==> NoFailure(w, old(calls), calls))
    {
      events := [];
      var digest := w.sha256(m.body);
      ok := Call(w);
      if !ok { return; }
      manifests := manifests[digest := m];
      if ':' !in reference {
        tags := tags[reference := digest];
      }
      events := [PutManifest(reference, digest)];
      if reference != digest {
        // The second put writes the same row again, under the digest.
        ok := Call(w);
      }
    }

    /** A failing `stat` counts as absent, exactly like a missing blob. */
    method Stat(w: World, digest: string) returns (found: bool)
      modifies this`lookups
      ensures found ==> digest in blobs
      ensures !w.blind(old(lookups)) ==> found == (digest in blobs)
    {
      found := digest in blobs && !w.blind(lookups);
      lookups := lookups + 1;
    }

    method PullBlobs(w: World, digests: seq<string>) returns (ok: bool, ghost events: seq<Event>)
      modifies this`blobs, this`calls, this`lookups
      ensures forall e :: e in events ==> e.PutBlob?
      ensures blobs == old(blobs) + BlobSet(events)
      ensures ok ==> forall b :: b in digests && FromStrChecked(b).Some? ==> b in blobs
      ensures (forall k :: !w.blind(k)) ==> OnlyMissing(digests, old(blobs), events)
      ensures old(calls) <= calls && (ok <==> NoFailure(w, old(calls), calls))
    {
      events := [];
      for i := 0 to |digests|
        invariant forall e :: e in events ==> e.PutBlob?
        invariant (forall k :: !w.blind(k)) ==> OnlyMissing(digests, old(blobs), events)
        invariant blobs == old(blobs) + BlobSet(events)
        invariant forall j :: 0 <= j < i && FromStrChecked(digests[j]).Some? ==> digests[j] in blobs
        invariant old(calls) <= calls && NoFailure(w, old(calls), calls)
      {
        if FromStrChecked(digests[i]).None? {
          continue;
        }
        var found := Stat(w, digests[i]);
        if found {
          continue;
        }
        ok := Call(w);
        if !ok { return; }
        ok := Call(w);
        if !ok { return; }
        blobs := blobs + {digests[i]};
        events := events + [PutBlob(digests[i])];
      }
      ok := true;
    }

    /** A child from the local store, or else from upstream. */
    method FetchChild(w: World, c: string) returns (ok: bool, data: ManifestData)
      modifies this`calls
      ensures data == Resolve(w, manifests, tags, c)
      ensures match Lookup(manifests, tags, c)
              case Some(local) => data == local && calls == old(calls) + 1
              case None => data == w.upstream(c)
      ensures old(calls) <= calls && (ok <==> NoFailure(w, old(calls), calls))
    {
      ok := Call(w);
      var local := Lookup(manifests, tags, c);
      if local.Some? {
        data := local.value;
      } else {
        if ok {
          ok := Call(w);
        }
        data := w.upstream(c);
      }
    }

    /** Fetches the children of an index, last first, and pushes one Process frame for each. */
    method PushChildren(w: World, children: seq<string>, stack: seq<WalkFrame>, ghost run: Run,
                        ghost visited: set<string>)
      returns (ok: bool, pushed: seq<WalkFrame>)
      requires run.w == w
      requires run.Framed(stack, visited) && visited != {}
      requires forall c :: c in children ==> UsableChild(run, manifests, tags, c)
      modifies this`calls
      ensures ok ==> AbstractStack(w, pushed) == PushReversed(AbstractStack(w, stack), EdgesTo(w, children))
      ensures ok ==> run.Framed(pushed, visited)
      ensures old(calls) <= calls && (ok <==> NoFailure(w, old(calls), calls))
    {
      pushed := stack;
      var i := |children|;
      while i > 0
        invariant 0 <= i <= |children|
        invariant AbstractStack(w, pushed) == PushReversed(AbstractStack(w, stack), EdgesTo(w, children[i..]))
        invariant run.Framed(pushed, visited)
        invariant old(calls) <= calls && NoFailure(w, old(calls), calls)
      {
        i := i - 1;
        var c := children[i];
        assert EdgesTo(w, children[i..])[1..] == EdgesTo(w, children[i + 1..]) && c in children;
        ghost var from := calls;
        var data;
        ok, data := FetchChild(w, c);
        ChildFrame(run, manifests, tags, visited, c);
        NoFailureSplits(w, old(calls), from, calls);
        if !ok { return; }
        var frame := ProcessFrame(c, data);
        assert AbstractStack(w, pushed + [frame]) == AbstractStack(w, pushed) + [Process((c, w.named(c)))];
        pushed := pushed + [frame];
      }
      ok := true;
    }

    ghost predicate Recorded(run: Run, trace: seq<Event>)
      reads this
    {
      RecordedAs(run, trace, manifests, tags, blobs)
    }

    /** The loop invariant: everything is recorded and the stack still yields the rest of the recursive order. */
    ghost predicate Going(run: Run, stack: seq<WalkFrame>, visited: set<string>, trace: seq<Event>)
      reads this
    {
      && Serves(run.w, run.g, run.manifests, run.tags, run.root)
      && Recorded(run, trace)
      && run.Framed(stack, visited)
      && Remaining(TextLinks(run.w, run.g), AbstractStack(run.w, stack), visited, Puts(trace), run.TextOrder())
    }

    /** Puts a manifest whose blobs are all present, and extends the trace. */
    method PutAfterBlobs(w: World, reference: string, m: ManifestData, ghost run: Run, ghost trace: seq<Event>)
      returns (ok: bool, ghost after: seq<Event>)
      requires run.w == w && Recorded(run, trace) && Storable(run, reference, m)
      requires forall b :: b in Blobs(w, m) ==> b in blobs
      modifies this
      ensures Recorded(run, after)
      ensures OrderGrows(Puts(trace), Puts(after), (reference, w.sha256(m.body)), ok)
      ensures old(calls) <= calls && (ok <==> NoFailure(w, old(calls), calls))
    {
      ghost var put;
      RecordPut(w, run.g, run.blobs, trace, PutManifest(reference, w.sha256(m.body)));
      ok, put := PutManifestEntry(w, reference, m);
      after := trace + put;
      assert trace + [] == trace;
      assert [PutManifest(reference, w.sha256(m.body))][..0] == [];
      TagsAfterAppend(run.tags, trace, put);
    }

    method StoreLeaf(w: World, reference: string, m: ManifestData, ghost run: Run, ghost trace: seq<Event>)
      returns (ok: bool, ghost after: seq<Event>)
      requires run.w == w && Recorded(run, trace) && Storable(run, reference, m)
      modifies this
      ensures Recorded(run, after)
      ensures OrderGrows(Puts(trace), Puts(after), (reference, w.sha256(m.body)), ok)
      ensures old(calls) <= calls && (ok <==> NoFailure(w, old(calls), calls))
    {
      ghost var pulled;
      ok, pulled := PullBlobs(w, Blobs(w, m));
      BlobsAreDigests(w, m);
      RecordBlobs(run, trace, pulled);
      after := trace + pulled;
      if ok {
        ghost var from := calls;
        ok, after := PutAfterBlobs(w, reference, m, run, after);
        NoFailureSplits(w, old(calls), from, calls);
      }
    }

    /** Opens an index: its Store frame goes below one Process frame for each child. */
    method OpenIndex(w: World, f: WalkFrame, below: seq<WalkFrame>, ghost run: Run, ghost visited: set<string>,
                     ghost trace: seq<Event>)
      returns (ok: bool, stack: seq<WalkFrame>)
      requires run.w == w && f.ProcessFrame? && w.sha256(f.data.body) !in visited
      requires Going(run, below + [f], visited, trace)
      requires Parses(w, f.data) && IsIndexManifest(f.data.contentType)
      modifies this`calls
      ensures ok ==> Going(run, stack, visited + {w.sha256(f.data.body)}, trace)
      ensures old(calls) <= calls && (ok <==> NoFailure(w, old(calls), calls))
    {
      ghost var n := w.sha256(f.data.body);
      var store := StoreFrame(f.reference, f.data);
      FramedAfterPop(run, below, f, visited);
      EnteredFrame(run, below, f, visited, Puts(trace));
      ChildrenAreUsable(run, manifests, trace, n);
      var children := ChildManifests(w.parse(f.data.body).value);
      assert children == Children(w, run.g[n]);
      ok, stack := PushChildren(w, children, below + [store], run, visited + {n});
      if ok {
        RemainingAfterOpen(run, below, f, stack, visited, Puts(trace), run.TextOrder());
      }
    }

    /** Acts on a Process frame of an unmarked manifest: an index is opened, a leaf is stored. */
    method EnterManifest(w: World, f: WalkFrame, below: seq<WalkFrame>, ghost run: Run, ghost visited: set<string>,
                         ghost trace: seq<Event>)
      returns (ok: bool, stack: seq<WalkFrame>, ghost after: seq<Event>)
      requires run.w == w && f.ProcessFrame? && w.sha256(f.data.body) !in visited
      requires Going(run, below + [f], visited, trace)
      modifies this
      ensures ok ==> Going(run, stack, visited + {w.sha256(f.data.body)}, after)
      ensures !ok ==> Recorded(run, after) && Puts(after) <= run.TextOrder()
      ensures old(calls) <= calls && (ok ==> NoFailure(w, old(calls), calls))
      ensures !ok ==> !NoFailure(w, old(calls), calls) || !AllParse(w, run.g, run.FullOrder())
    {
      stack, after := below, trace;
      if w.parse(f.data.body).None? {
        FramedAfterPop(run, below, f, visited);
        EnteredFrame(run, below, f, visited, Puts(trace));
        ok := false;
      } else if IsIndexManifest(f.data.contentType) {
        ok, stack := OpenIndex(w, f, below, run, visited, trace);
      } else {
        RemainingAfterFrame(run, below, f, visited, Puts(trace), run.TextOrder());
        FramedAfterPop(run, below, f, visited);
        ok, after := StoreLeaf(w, f.reference, f.data, run, trace);
      }
    }

    /** Acts on a Store frame: all that the index names is stored, so it can be put. */
    method StoreIndex(w: World, f: WalkFrame, below: seq<WalkFrame>, ghost run: Run, ghost visited: set<string>,
                      ghost trace: seq<Event>)
      returns (ok: bool, ghost after: seq<Event>)
      requires run.w == w && f.StoreFrame? && visited != {} && Going(run, below + [f], visited, trace)
      modifies this
      ensures ok ==> Going(run, below, visited, after)
      ensures !ok ==> Recorded(run, after) && Puts(after) <= run.TextOrder()
      ensures old(calls) <= calls && (ok <==> NoFailure(w, old(calls), calls))
    {
      RemainingAfterFrame(run, below, f, visited, Puts(trace), run.TextOrder());
      FramedAfterPop(run, below, f, visited);
      ok, after := PutAfterBlobs(w, f.reference, f.data, run, trace);
    }

    /** One turn of the loop, on the popped frame `f`. */
    method Step(w: World, f: WalkFrame, below: seq<WalkFrame>, visited: set<string>, ghost run: Run,
                ghost trace: seq<Event>)
      returns (ok: bool, stack': seq<WalkFrame>, visited': set<string>, ghost after: seq<Event>)
      requires run.w == w && Going(run, below + [f], visited, trace)
      modifies this
      ensures ok ==> Going(run, stack', visited', after)
      ensures ok ==> visited < visited' || (visited == visited' && |stack'| <= |below|)
      ensures !ok ==> Recorded(run, after) && Puts(after) <= run.TextOrder()
      ensures old(calls) <= calls && (ok ==> NoFailure(w, old(calls), calls))
      ensures !ok ==> !NoFailure(w, old(calls), calls) || !AllParse(w, run.g, run.FullOrder())
    {
      ok, stack', visited', after := true, below, visited, trace;
      if f.StoreFrame? {
        ok, after := StoreIndex(w, f, below, run, visited, trace);
      } else if w.sha256(f.data.body) !in visited {
        ok, stack', after := EnterManifest(w, f, below, run, visited, trace);
        visited' := visited + {w.sha256(f.data.body)};
      } else {
        SkippedFrame(run, below, f, visited, Puts(trace));
      }
    }

    /** The loop: pops a frame and acts on it until none is left. */
    method Walk(w: World, reference: string, root: ManifestData, ghost run: Run)
      returns (ok: bool, ghost trace: seq<Event>)
      requires run == Run(w, run.g, reference, root, manifests, tags, blobs) && Serves(w, run.g, manifests, tags, root)
      modifies this
      ensures Recorded(run, trace) && Puts(trace) <= run.TextOrder() && (ok ==> Puts(trace) == run.TextOrder())
      ensures old(calls) <= calls
      ensures ok <==> NoFailure(w, old(calls), calls) && AllParse(w, run.g, run.FullOrder())
    {
      trace := [];
      var stack := [ProcessFrame(reference, root)];
      var visited: set<string> := {};
      StartFrame(run);
      StartRecorded(run);
      while stack != []
        invariant Going(run, stack, visited, trace)
        invariant old(calls) <= calls && NoFailure(w, old(calls), calls)
        decreases run.g.Keys - visited, |stack|
      {
        ghost var from := calls;
        var f, below := stack[|stack| - 1], stack[..|stack| - 1];
        assert stack == below + [f];
        ok, stack, visited, trace := Step(w, f, below, visited, run, trace);
        NoFailureSplits(w, old(calls), from, calls);
        if !ok { return; }
      }
      NothingLeft(run, visited, Puts(trace));
      OrdersAgree(run, trace);
      ok := true;
    }

    /**
     Stores the manifest graph below `root`. Whatever fails, the manifests put so far are a prefix of the
     recursive post-order, under the texts of the edges by which it enters them; on success they are all of
     it, and everything their documents name is stored. It succeeds if and only if no call it made failed and
     every manifest of that order parses.
     */
    method StoreManifestRecursive(w: World, reference: string, root: ManifestData, ghost g: map<string, ManifestData>)
      returns (ok: bool, ghost trace: seq<Event>)
      requires Serves(w, g, manifests, tags, root)
      modifies this
      ensures ManifestOrder(trace) <= Dfs(Links(w, g), w.sha256(root.body), {}).order
      ensures ok ==> ManifestOrder(trace) == Dfs(Links(w, g), w.sha256(root.body), {}).order
      ensures Puts(trace) <= TextDfs(TextLinks(w, g), (reference, w.sha256(root.body)), {}).order
      ensures ok ==> Puts(trace) == TextDfs(TextLinks(w, g), (reference, w.sha256(root.body)), {}).order
      ensures BlobsFirst(w, g, old(blobs), trace) && blobs == old(blobs) + BlobSet(trace)
      ensures Written(g, old(manifests), manifests, ManifestOrder(trace))
      ensures tags == TagsAfter(old(tags), trace) && ReferencesOk(w, g, reference, w.sha256(root.body), trace)
      ensures ok ==> Whole(w, g, root, ManifestOrder(trace), manifests, blobs)
      ensures old(calls) <= calls
      ensures ok <==> && NoFailure(w, old(calls), calls)
                      && AllParse(w, g, Dfs(Links(w, g), w.sha256(root.body), {}).order)
    {
      ghost var run := Run(w, g, reference, root, manifests, tags, blobs);
      ok, trace := Walk(w, reference, root, run);
      OrdersAgree(run, trace);
      if ok {
        SuccessIsWhole(w, g, root, run.blobs, trace, run.manifests, manifests);
      }
    }
  }

  /** A child text of the graph that resolves to the graph's manifest. */
  ghost predicate UsableChild(run: Run, manifests: map<string, ManifestData>, tags: map<string, string>, c: string) {
    && IsChildText(run.w, run.g, c) && run.w.named(c) in run.g
    && ChildOk(run.w, run.g, run.Top(), manifests, tags, c)
  }

  lemma ChildFrame(run: Run, manifests: map<string, ManifestData>, tags: map<string, string>, visited: set<string>,
                   c: string)
    requires UsableChild(run, manifests, tags, c) && run.Top() in visited
    ensures var data := Resolve(run.w, manifests, tags, c);
            && run.w.sha256(data.body) == run.w.named(c)
            && FrameOk(run.w, run.g, run.Top(), run.reference, visited, ProcessFrame(c, data))
  {
  }

  lemma ChildrenAreUsable(run: Run, manifests: map<string, ManifestData>, trace: seq<Event>, n: string)
    requires Serves(run.w, run.g, run.manifests, run.tags, run.root) && n in run.g
    requires Written(run.g, run.manifests, manifests, ManifestOrder(trace))
    requires ReferencesOk(run.w, run.g, run.reference, run.Top(), trace) && run.Top() !in ManifestOrder(trace)
    ensures forall c :: c in Children(run.w, run.g[n]) ==> UsableChild(run, manifests, TagsAfter(run.tags, trace), c)
  {
    ResolvesAfterWrites(run.w, run.g, run.Top(), run.reference, run.manifests, run.tags, manifests, trace);
    NamesInGraph(run.w, run.g, n);
    assert forall c :: c in Children(run.w, run.g[n]) ==> IsChildText(run.w, run.g, c);
  }

  ghost predicate AllParse(w: World, g: map<string, ManifestData>, order: seq<string>) {
    forall d :: d in order ==> d in g && Parses(w, g[d])
  }

  /** A manifest of the graph that may be put under that reference. */
  ghost predicate Storable(run: Run, reference: string, m: ManifestData) {
    var n := run.w.sha256(m.body);
    && n in run.g && run.g[n] == m && Parses(run.w, m)
    && RefersTo(run.w, run.g, reference, run.reference, n, run.Top())
  }

  /** Appending blob puts. */
  lemma RecordBlobs(run: Run, trace: seq<Event>, pulled: seq<Event>)
    requires BlobsFirst(run.w, run.g, run.blobs, trace) && forall e :: e in pulled ==> e.PutBlob?
    requires ReferencesOk(run.w, run.g, run.reference, run.Top(), trace)
    ensures BlobsFirst(run.w, run.g, run.blobs, trace + pulled) &&
            BlobSet(trace + pulled) == BlobSet(trace) + BlobSet(pulled)
    ensures Puts(trace + pulled) == Puts(trace) &&
            TagsAfter(run.tags, trace + pulled) == TagsAfter(run.tags, trace)
    ensures ReferencesOk(run.w, run.g, run.reference, run.Top(), trace + pulled)
  {
    NoManifests(pulled);
    assert BlobsFirst(run.w, run.g, run.blobs + BlobSet(trace), pulled);
    BlobsFirstAppend(run.w, run.g, run.blobs, trace, pulled);
    PutsAppend(trace, pulled);
    TagsAfterAppend(run.tags, trace, pulled);
    BlobsMoveNoTag(TagsAfter(run.tags, trace), pulled);
  }

  /** The store and the trace tell the same story. */
  ghost predicate RecordedAs(run: Run, trace: seq<Event>, manifests: map<string, ManifestData>,
                             tags: map<string, string>,
                             blobs: set<string>)
  {
    && BlobsFirst(run.w, run.g, run.blobs, trace)
    && blobs == run.blobs + BlobSet(trace)
    && Written(run.g, run.manifests, manifests, ManifestOrder(trace))
    && tags == TagsAfter(run.tags, trace) && ReferencesOk(run.w, run.g, run.reference, run.Top(), trace)
    && AllParse(run.w, run.g, ManifestOrder(trace))
  }

  lemma StartRecorded(run: Run)
    ensures RecordedAs(run, [], run.manifests, run.tags, run.blobs)
  {
  }

  /** An empty stack has nothing left to put. */
  lemma NothingLeft(run: Run, visited: set<string>, put: seq<Edge>)
    requires Serves(run.w, run.g, run.manifests, run.tags, run.root)
    requires Remaining(TextLinks(run.w, run.g), AbstractStack(run.w, []), visited, put, run.TextOrder())
    ensures put == run.TextOrder()
  {
    assert AbstractStack(run.w, []) == [];
  }

  lemma StartFrame(run: Run)
    requires Serves(run.w, run.g, run.manifests, run.tags, run.root)
    ensures var stack := [ProcessFrame(run.reference, run.root)];
            && run.Framed(stack, {})
            && Remaining(TextLinks(run.w, run.g), AbstractStack(run.w, stack), {}, [], run.TextOrder())
  {
    RemainingAtStart(TextLinks(run.w, run.g), (run.reference, run.Top()));
    assert AbstractStack(run.w, [ProcessFrame(run.reference, run.root)]) == [Process((run.reference, run.Top()))];
  }

  /** With and without texts, the puts follow the same order. */
  lemma OrdersAgree(run: Run, trace: seq<Event>)
    requires Serves(run.w, run.g, run.manifests, run.tags, run.root) && Puts(trace) <= run.TextOrder()
    ensures ManifestOrder(trace) <= run.FullOrder()
    ensures Puts(trace) == run.TextOrder() ==> ManifestOrder(trace) == run.FullOrder()
  {
    TextDfsVisits(TextLinks(run.w, run.g), (run.reference, run.Top()), {});
    PrefixTargets(Puts(trace), run.TextOrder());
  }

  /** A Process frame of a marked manifest is dropped. */
  lemma SkippedFrame(run: Run, below: seq<WalkFrame>, f: WalkFrame, visited: set<string>, put: seq<Edge>)
    requires Serves(run.w, run.g, run.manifests, run.tags, run.root) && run.Framed(below + [f], visited)
    requires Remaining(TextLinks(run.w, run.g), AbstractStack(run.w, below + [f]), visited, put, run.TextOrder())
    requires f.ProcessFrame? && run.w.sha256(f.data.body) in visited
    ensures run.Framed(below, visited)
    ensures Remaining(TextLinks(run.w, run.g), AbstractStack(run.w, below), visited, put, run.TextOrder())
  {
    RemainingAfterFrame(run, below, f, visited, put, run.TextOrder());
    FramedAfterPop(run, below, f, visited);
  }

  /** An unmarked manifest is still to be put, and the root has not been put yet. */
  lemma EnteredFrame(run: Run, below: seq<WalkFrame>, f: WalkFrame, visited: set<string>, put: seq<Edge>)
    requires Serves(run.w, run.g, run.manifests, run.tags, run.root) && f.ProcessFrame?
    requires Remaining(TextLinks(run.w, run.g), AbstractStack(run.w, below + [f]), visited, put, run.TextOrder())
    requires run.w.sha256(f.data.body) !in visited
    ensures run.w.sha256(f.data.body) in run.FullOrder() && run.Top() !in Targets(put)
  {
    var e, rest := (f.reference, run.w.sha256(f.data.body)), AbstractStack(run.w, below);
    assert AbstractStack(run.w, below + [f]) == rest + [Process(e)];
    EnteredIsPending(TextLinks(run.w, run.g), rest, e, visited, put, (run.reference, run.Top()));
  }
}
