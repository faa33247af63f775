/**
 Manifest documents: what they reference and how much storage they account for (oci/manifest.rs,
 mirror/client.rs).
 */
module Manifest {
  import opened Common
  import opened Digests

  datatype Json =
    | Null
    | Bool(b: bool)
    | Number(n: int)
    | Fraction(r: real)
    | Str(s: string)
    | Array(items: seq<Json>)
    | Object(fields: map<string, Json>)

  function Get(v: Json, key: string): Option<Json> {
    if v.Object? && key in v.fields then Some(v.fields[key]) else None
  }

  function AsString(v: Option<Json>): Option<string> {
    if v.Some? && v.value.Str? then Some(v.value.s) else None
  }

  function AsU64(v: Option<Json>): Option<nat> {
    if v.Some? && v.value.Number? && 0 <= v.value.n < U64_SIZE then Some(v.value.n) else None
  }

  /** The elements of the array stored under `key`; empty when there is no such array. */
  function Items(v: Json, key: string): seq<Json> {
    match Get(v, key)
    case Some(Array(items)) => items
    case _ => []
  }

  datatype SizedDescriptor = SizedDescriptor(digest: Digest, size: nat)

  function DescriptorDigest(v: Json): Option<Digest> {
    match AsString(Get(v, "digest"))
    case Some(text) => FromStrChecked(text)
    case None => None
  }

  function SizedDescriptorOf(v: Json): Option<SizedDescriptor> {
    match (DescriptorDigest(v), AsU64(Get(v, "size")))
    case (Some(digest), Some(size)) => Some(SizedDescriptor(digest, size))
    case _ => None
  }

  function Collect<B>(f: Json -> Option<B>, items: seq<Json>): seq<B> {
    if items == [] then []
    else
      var rest := Collect(f, items[1..]);
      match f(items[0])
      case Some(b) => [b] + rest
      case None => rest
  }

  /** The places of a manifest that can name a blob, in document order. */
  function BlobPositions(v: Json): seq<Json> {
    (match Get(v, "config") case Some(config) => [config] case None => []) + Items(v, "layers") + Items(v, "blobs")
  }

  function ReferencedDigests(v: Json): seq<Digest> {
    Collect(DescriptorDigest, BlobPositions(v))
  }

  function SizedDescriptors(v: Json): seq<SizedDescriptor> {
    Collect(SizedDescriptorOf, BlobPositions(v))
  }

  function DigestsOf(ds: seq<SizedDescriptor>): (r: seq<Digest>)
    ensures |r| == |ds| && forall i :: 0 <= i < |ds| ==> r[i] == ds[i].digest
  {
    seq(|ds|, i requires 0 <= i < |ds| => ds[i].digest)
  }

  ghost predicate Subsequence<T(!new)>(a: seq<T>, b: seq<T>) {
    a == [] || (b != [] && ((a[0] == b[0] && Subsequence(a[1..], b[1..])) || Subsequence(a, b[1..])))
  }

  /** Every blob that is pulled is also counted as a reference, in the same order. */
  lemma SizedAreReferenced(v: Json)
    ensures Subsequence(DigestsOf(SizedDescriptors(v)), ReferencedDigests(v))
  {
    CollectedSubsequence(BlobPositions(v));
  }

  lemma {:induction false} CollectedSubsequence(items: seq<Json>)
    ensures Subsequence(DigestsOf(Collect(SizedDescriptorOf, items)), Collect(DescriptorDigest, items))
  {
    if items != [] {
      CollectedSubsequence(items[1..]);
      var sized, all := Collect(SizedDescriptorOf, items[1..]), Collect(DescriptorDigest, items[1..]);
      match SizedDescriptorOf(items[0])
      case Some(d) =>
        assert DigestsOf([d] + sized)[1..] == DigestsOf(sized);
        assert ([d.digest] + all)[1..] == all;
      case None =>
        if DescriptorDigest(items[0]).Some? {
          assert ([DescriptorDigest(items[0]).value] + all)[1..] == all;
        }
    }
  }

  method PushAll<B>(f: Json -> Option<B>, items: seq<Json>, sofar: seq<B>) returns (r: seq<B>)
    ensures r == sofar + Collect(f, items)
  {
    r := sofar;
    for i := 0 to |items|
      invariant r + Collect(f, items[i..]) == sofar + Collect(f, items)
    {
      assert items[i..][1..] == items[i + 1..];
      match f(items[i])
      case Some(b) => r := r + [b];
      case None =>
    }
  }

  lemma {:induction false} CollectAppend<B>(f: Json -> Option<B>, a: seq<Json>, b: seq<Json>)
    ensures Collect(f, a + b) == Collect(f, a) + Collect(f, b)
  {
    if a == [] {
      assert a + b == b;
    } else {
      CollectAppend(f, a[1..], b);
      assert (a + b)[1..] == a[1..] + b;
    }
  }

  /** Both extractors of the source are this loop over config, layers and blobs, with a different descriptor test. */
  method ExtractFrom<B>(f: Json -> Option<B>, v: Json) returns (found: seq<B>)
    ensures found == Collect(f, BlobPositions(v))
  {
    var config := match Get(v, "config") case Some(c) => [c] case None => [];
    var layers, blobs := Items(v, "layers"), Items(v, "blobs");
    found := PushAll(f, config, []);
    found := PushAll(f, layers, found);
    found := PushAll(f, blobs, found);
    CollectAppend(f, config, layers);
    CollectAppend(f, config + layers, blobs);
  }

  // ---- Children of an index ----

  function ChildDigest(m: Json): Option<string> {
    match (AsString(Get(m, "digest")), AsU64(Get(m, "size")))
    case (Some(digest), Some(_)) => Some(digest)
    case _ => None
  }

  /** Digest texts of the entries of an index; they are not checked for digest syntax. */
  function ChildManifests(index: Json): seq<string> {
    Collect(ChildDigest, Items(index, "manifests"))
  }

  // ---- What a document names ----

  /** Under `key` the document has the array of these items. */
  ghost predicate HasArray(v: Json, key: string, items: seq<Json>) {
    v.Object? && key in v.fields && v.fields[key] == Array(items)
  }

  /** A descriptor: an object with that digest text and a size of 64 bits. */
  predicate Describes(v: Json, digest: string, size: int) {
    && v.Object? && "digest" in v.fields && v.fields["digest"] == Str(digest)
    && "size" in v.fields && v.fields["size"] == Number(size) && 0 <= size <= 0xFFFF_FFFF_FFFF_FFFF
  }

  ghost predicate NamesChild(v: Json, c: string) { exists size :: Describes(v, c, size) }

  ghost predicate NamesSome(v: Json) { exists c :: NamesChild(v, c) }

  ghost predicate Rising(at: seq<nat>) { forall i, j :: 0 <= i < j < |at| ==> at[i] < at[j] }

  /** The texts are those of the items at the positions `at`, in order, and no other item names a child. */
  ghost predicate NamedAt(items: seq<Json>, texts: seq<string>, at: seq<nat>) {
    && Rising(at) && |at| == |texts|
    && (forall k :: 0 <= k < |at| ==> at[k] < |items| && NamesChild(items[at[k]], texts[k]))
    && (forall i :: 0 <= i < |items| && NamesSome(items[i]) ==> i in at)
  }

  lemma ChildDigestMeaning(v: Json, c: string)
    ensures ChildDigest(v) == Some(c) <==> NamesChild(v, c)
  {
    if ChildDigest(v) == Some(c) {
      assert Describes(v, c, v.fields["size"].n);
    }
  }

  lemma {:induction false} CollectedAt(items: seq<Json>) returns (at: seq<nat>)
    ensures NamedAt(items, Collect(ChildDigest, items), at)
    decreases |items|
  {
    at := [];
    if items != [] {
      var front, last := items[..|items| - 1], items[|items| - 1];
      at := CollectedAt(front);
      assert items == front + [last] && [last][1..] == [];
      CollectAppend(ChildDigest, front, [last]);
      forall c ensures ChildDigest(last) == Some(c) <==> NamesChild(last, c) { ChildDigestMeaning(last, c); }
      if ChildDigest(last).Some? {
        NamedAtEnd(front, last, Collect(ChildDigest, front), at, ChildDigest(last).value);
        at := at + [|front|];
      } else {
        NamedAtFront(front, last, Collect(ChildDigest, front), at);
      }
    }
  }

  /** One more item, which names a child. */
  lemma NamedAtEnd(front: seq<Json>, last: Json, texts: seq<string>, at: seq<nat>, c: string)
    requires NamedAt(front, texts, at) && NamesChild(last, c)
    ensures NamedAt(front + [last], texts + [c], at + [|front|])
  {
    var items, all := front + [last], at + [|front|];
    forall i | 0 <= i < |items| && NamesSome(items[i]) ensures i in all {
      assert i < |front| ==> items[i] == front[i] && i in at;
      assert all[|at|] == |front|;
    }
  }

  /** One more item, which does not. */
  lemma NamedAtFront(front: seq<Json>, last: Json, texts: seq<string>, at: seq<nat>)
    requires NamedAt(front, texts, at) && !NamesSome(last)
    ensures NamedAt(front + [last], texts, at)
  {
    var items := front + [last];
    forall i | 0 <= i < |items| && NamesSome(items[i]) ensures i in at {
      assert i < |front| && items[i] == front[i];
    }
  }

  /**
   The children of an index are the texts of its "manifests" that are descriptors: all, in order, with
   repetitions.
   */
  lemma ChildrenOfIndex(index: Json, items: seq<Json>) returns (at: seq<nat>)
    requires HasArray(index, "manifests", items)
    ensures NamedAt(items, ChildManifests(index), at)
  {
    at := CollectedAt(items);
  }

  ghost predicate HasChild(index: Json, c: string) {
    exists items, i :: HasArray(index, "manifests", items) && 0 <= i < |items| && NamesChild(items[i], c)
  }

  lemma ChildIff(index: Json, c: string)
    ensures c in ChildManifests(index) <==> HasChild(index, c)
  {
    var items := Items(index, "manifests");
    var at := CollectedAt(items);
    var texts := ChildManifests(index);
    if HasChild(index, c) {
      var items', i :| HasArray(index, "manifests", items') && 0 <= i < |items'| && NamesChild(items'[i], c);
      assert NamesSome(items[i]);
      var k :| 0 <= k < |at| && at[k] == i;
      ChildDigestMeaning(items[i], c);
      ChildDigestMeaning(items[i], texts[k]);
    }
    if c in texts {
      var k :| 0 <= k < |texts| && texts[k] == c;
      assert HasArray(index, "manifests", items) && NamesChild(items[at[k]], c);
    }
  }

  /** A place where a document can name a blob: its config, an item of its layers or one of its blobs. */
  ghost predicate IsBlobEntry(v: Json, item: Json) {
    || (v.Object? && "config" in v.fields && item == v.fields["config"])
    || (exists items :: HasArray(v, "layers", items) && item in items)
    || (exists items :: HasArray(v, "blobs", items) && item in items)
  }

  lemma BlobEntryIff(v: Json, item: Json)
    ensures item in BlobPositions(v) <==> IsBlobEntry(v, item)
  {
    if item in Items(v, "layers") {
      assert HasArray(v, "layers", Items(v, "layers"));
    }
    if item in Items(v, "blobs") {
      assert HasArray(v, "blobs", Items(v, "blobs"));
    }
  }

  lemma {:induction false} CollectMeaning<B>(f: Json -> Option<B>, items: seq<Json>, b: B)
    ensures b in Collect(f, items) <==> exists item :: item in items && f(item) == Some(b)
  {
    if items != [] {
      CollectMeaning(f, items[1..], b);
      assert items == [items[0]] + items[1..];
    }
  }

  /** A blob counts as referenced exactly when some entry of the document has its digest text. */
  lemma ReferencedIff(v: Json, d: Digest)
    ensures d in ReferencedDigests(v) <==>
            Valid(d) && exists item :: IsBlobEntry(v, item) && item.Object? && "digest" in item.fields &&
                                       item.fields["digest"] == Str(ToString(d))
  {
    CollectMeaning(DescriptorDigest, BlobPositions(v), d);
    forall item ensures item in BlobPositions(v) <==> IsBlobEntry(v, item) { BlobEntryIff(v, item); }
    forall s ensures FromStrChecked(s) == Some(d) <==> Valid(d) && s == ToString(d) { ParsePrint(s, d); }
  }

  /** The digest texts a body references, none when it does not parse. */
  function BlobTexts(body: Option<Json>): set<string> {
    if body.Some? then set d | d in ReferencedDigests(body.value) :: ToString(d) else {}
  }

  /** The body parses and some entry of it has that digest, whatever else the entry says. */
  ghost predicate NamesBlob(body: Option<Json>, b: string) {
    body.Some? && IsDigest(b) &&
    exists item :: IsBlobEntry(body.value, item) && item.Object? && "digest" in item.fields &&
                   item.fields["digest"] == Str(b)
  }

  lemma BlobTextsIff(body: Option<Json>, b: string)
    ensures b in BlobTexts(body) <==> NamesBlob(body, b)
  {
    AcceptedIff(b);
    if body.Some? {
      if FromStrChecked(b).Some? {
        ParsePrint(b, FromStrChecked(b).value);
        ReferencedIff(body.value, FromStrChecked(b).value);
      }
      if b in BlobTexts(body) {
        var d :| d in ReferencedDigests(body.value) && ToString(d) == b;
        ReferencedIff(body.value, d);
        ParsePrint(b, d);
      }
    }
  }

  /** A blob is pulled and accounted for exactly when some entry describes it with a size. */
  lemma SizedIff(v: Json, d: Digest, size: nat)
    ensures SizedDescriptor(d, size) in SizedDescriptors(v) <==>
            Valid(d) && exists item :: IsBlobEntry(v, item) && Describes(item, ToString(d), size)
  {
    CollectMeaning(SizedDescriptorOf, BlobPositions(v), SizedDescriptor(d, size));
    forall item ensures item in BlobPositions(v) <==> IsBlobEntry(v, item) { BlobEntryIff(v, item); }
    forall s ensures FromStrChecked(s) == Some(d) <==> Valid(d) && s == ToString(d) { ParsePrint(s, d); }
  }

  const OCI_INDEX: string := "application/vnd.oci.image.index.v1+json"
  const DOCKER_LIST: string := "application/vnd.docker.distribution.manifest.list.v2+json"

  predicate IsIndexManifest(contentType: string) {
    contentType == OCI_INDEX || contentType == DOCKER_LIST
  }

  // ---- Stored size ----

  function Name(d: SizedDescriptor): string {
    ToString(d.digest)
  }

  ghost function Names(ds: seq<SizedDescriptor>): set<string> {
    set d | d in ds :: Name(d)
  }

  function Max(a: nat, b: nat): nat {
    if a < b then b else a
  }

  /** The largest size declared for a digest, 0 when it is not declared. */
  ghost function MaxSize(ds: seq<SizedDescriptor>, name: string): nat {
    if ds == [] then 0
    else
      var last, m := ds[|ds| - 1], MaxSize(ds[..|ds| - 1], name);
      if Name(last) == name then Max(m, last.size) else m
  }

  lemma {:induction false} MaxSizeIsMaximum(ds: seq<SizedDescriptor>, name: string)
    ensures forall d :: d in ds && Name(d) == name ==> d.size <= MaxSize(ds, name)
    ensures name in Names(ds) ==> exists d :: d in ds && Name(d) == name && d.size == MaxSize(ds, name)
    ensures name !in Names(ds) ==> MaxSize(ds, name) == 0
  {
    if ds != [] {
      var last, front := ds[|ds| - 1], ds[..|ds| - 1];
      assert ds == front + [last];
      MaxSizeIsMaximum(front, name);
      if name in Names(front) {
        var d :| d in front && Name(d) == name && d.size == MaxSize(front, name);
        assert d in ds;
      }
      assert last in ds;
    }
  }

  ghost function SumOver(names: set<string>, f: string -> nat): nat {
    if names == {} then 0 else var n :| n in names; f(n) + SumOver(names - {n}, f)
  }

  lemma {:induction false} SumOverRemove(names: set<string>, f: string -> nat, n: string)
    requires n in names
    ensures SumOver(names, f) == f(n) + SumOver(names - {n}, f)
  {
    var m :| m in names && SumOver(names, f) == f(m) + SumOver(names - {m}, f);
    if m != n {
      SumOverRemove(names - {m}, f, n);
      SumOverRemove(names - {n}, f, m);
      assert names - {m} - {n} == names - {n} - {m};
    }
  }

  lemma {:induction false} SumOverSame(names: set<string>, f: string -> nat, g: string -> nat)
    requires forall n :: n in names ==> f(n) == g(n)
    ensures SumOver(names, f) == SumOver(names, g)
  {
    if names != {} {
      var n :| n in names;
      SumOverRemove(names, f, n);
      SumOverRemove(names, g, n);
      SumOverSame(names - {n}, f, g);
    }
  }

  /** What a manifest accounts for: each distinct digest once, at the largest size declared for it. */
  ghost function StoredSize(ds: seq<SizedDescriptor>): nat {
    SumOver(Names(ds), n => MaxSize(ds, n))
  }

  lemma PrefixStep(ds: seq<SizedDescriptor>, i: nat, n: string)
    requires i < |ds|
    ensures Names(ds[..i + 1]) == Names(ds[..i]) + {Name(ds[i])}
    ensures MaxSize(ds[..i + 1], n) ==
            if Name(ds[i]) == n then Max(MaxSize(ds[..i], n), ds[i].size) else MaxSize(ds[..i], n)
  {
    assert ds[..i + 1] == ds[..i] + [ds[i]];
    assert ds[..i + 1][..i] == ds[..i];
  }

  /** The first half of `stored_size_from_descriptors`: the map from digest to largest size. */
  method MergeByDigest(ds: seq<SizedDescriptor>) returns (byDigest: map<string, nat>)
    ensures byDigest.Keys == Names(ds)
    ensures forall n :: n in byDigest ==> byDigest[n] == MaxSize(ds, n)
  {
    byDigest := map[];
    for i := 0 to |ds|
      invariant byDigest.Keys == Names(ds[..i])
      invariant forall n :: n in byDigest ==> byDigest[n] == MaxSize(ds[..i], n)
    {
      var name := Name(ds[i]);
      PrefixStep(ds, i, name);
      forall n | n in byDigest ensures n != name ==> MaxSize(ds[..i + 1], n) == MaxSize(ds[..i], n) {
        PrefixStep(ds, i, n);
      }
      MaxSizeIsMaximum(ds[..i], name);
      byDigest := byDigest[name := if name in byDigest then Max(byDigest[name], ds[i].size) else ds[i].size];
    }
    assert ds[..|ds|] == ds;
  }

  /** `stored_size_from_descriptors`, whose final `sum` wraps at 64 bits. */
  method StoredSizeFromDescriptors(ds: seq<SizedDescriptor>) returns (total: nat)
    ensures total == StoredSize(ds) % U64_SIZE
  {
    var byDigest := MergeByDigest(ds);
    ghost var f := n => MaxSize(ds, n);
    var names, sum := byDigest.Keys, 0;
    while names != {}
      invariant names <= byDigest.Keys
      invariant sum + SumOver(names, f) == SumOver(Names(ds), f)
    {
      var n :| n in names;
      SumOverRemove(names, f, n);
      sum := sum + byDigest[n];
      names := names - {n};
    }
    SumOverSame(Names(ds), f, n => MaxSize(ds, n));
    total := sum % U64_SIZE;
  }

  /** Order and exact repetition do not matter: the size depends only on which descriptors occur. */
  lemma StoredSizeDependsOnSet(a: seq<SizedDescriptor>, b: seq<SizedDescriptor>)
    requires forall d :: d in a <==> d in b
    ensures StoredSize(a) == StoredSize(b)
  {
    assert Names(a) == Names(b);
    var f, g := n => MaxSize(a, n), n => MaxSize(b, n);
    forall n | n in Names(a) ensures f(n) == g(n) {
      MaxSizeIsMaximum(a, n);
      MaxSizeIsMaximum(b, n);
      var x :| x in a && Name(x) == n && x.size == MaxSize(a, n);
      var y :| y in b && Name(y) == n && y.size == MaxSize(b, n);
    }
    SumOverSame(Names(a), f, g);
  }

  ghost function PlainSum(ds: seq<SizedDescriptor>): nat {
    if ds == [] then 0 else PlainSum(ds[..|ds| - 1]) + ds[|ds| - 1].size
  }

  /** Sharing layers never makes a manifest look larger. */
  lemma {:induction false} StoredSizeAtMostPlainSum(ds: seq<SizedDescriptor>)
    ensures StoredSize(ds) <= PlainSum(ds)
  {
    if ds != [] {
      var last, front := ds[|ds| - 1], ds[..|ds| - 1];
      StoredSizeAtMostPlainSum(front);
      assert ds == front + [last];
      var n := Name(last);
      assert Names(ds) == Names(front) + {n};
      var f, g := m => MaxSize(front, m), m => MaxSize(ds, m);
      SumOverRemove(Names(ds), g, n);
      SumOverSame(Names(ds) - {n}, f, g);
      if n in Names(front) {
        SumOverRemove(Names(front), f, n);
        assert Names(ds) == Names(front);
      } else {
        MaxSizeIsMaximum(front, n);
        assert Names(ds) - {n} == Names(front);
      }
    }
  }
}
