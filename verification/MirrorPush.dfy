/**
 The push side of the mirror engine (mirror/mod.rs, `push_manifest_recursive`): a plain recursion
 without a visited set that uploads children and blobs before the manifest that names them.
 */
module MirrorPush {
  import opened Common
  import opened Digests
  import opened Manifest
  import opened MirrorWalk

  datatype Upload = Blob(digest: string) | Document(reference: string, data: ManifestData)

  ghost function BlobsOf(trace: seq<Upload>): set<string> {
    set e | e in trace && e.Blob? :: e.digest
  }

  /** The documents of the remote registry after some uploads. */
  ghost function Uploaded(documents: map<string, ManifestData>, trace: seq<Upload>): map<string, ManifestData> {
    if trace == [] then documents
    else
      var before, last := Uploaded(documents, trace[..|trace| - 1]), trace[|trace| - 1];
      if last.Document? then before[last.reference := last.data] else before
  }

  lemma {:induction false} UploadedAppend(documents: map<string, ManifestData>, a: seq<Upload>, b: seq<Upload>)
    ensures Uploaded(documents, a + b) == Uploaded(Uploaded(documents, a), b)
    decreases |b|
  {
    if b == [] {
      assert a + b == a;
    } else {
      UploadedAppend(documents, a, b[..|b| - 1]);
      assert (a + b)[..|a + b| - 1] == a + b[..|b| - 1];
    }
  }

  lemma {:induction false} BlobsUploadNoDocument(documents: map<string, ManifestData>, trace: seq<Upload>)
    requires forall e :: e in trace ==> e.Blob?
    ensures Uploaded(documents, trace) == documents
    decreases |trace|
  {
    if trace != [] {
      assert trace[|trace| - 1] in trace;
      BlobsUploadNoDocument(documents, trace[..|trace| - 1]);
    }
  }

  /** What the push reads: the answers of `get_manifest` and the stored blobs, which no step of the push changes. */
  datatype Local = Local(get: string -> Option<ManifestData>, blobs: set<string>)

  /** The stored children of `m` are nodes too, and of lower rank. */
  ghost predicate Descends(w: World, local: Local, nodes: set<ManifestData>, rank: ManifestData -> nat,
                           m: ManifestData) {
    forall c :: c in Children(w, m) && local.get(c).Some? ==>
      local.get(c).value in nodes && rank(local.get(c).value) < rank(m)
  }

  /** `nodes` is closed under stored children and the rank drops along them: nothing in it reaches itself. */
  ghost predicate Acyclic(w: World, local: Local, nodes: set<ManifestData>, rank: ManifestData -> nat) {
    forall m {:trigger Descends(w, local, nodes, rank, m)} :: m in nodes ==> Descends(w, local, nodes, rank, m)
  }

  /** The stored manifest of that digest has been uploaded under it. */
  ghost predicate Sent(local: Local, trace: seq<Upload>, c: string) {
    local.get(c).Some? && Document(c, local.get(c).value) in trace
  }

  /** At its upload, a manifest's children and blobs are already upstream. */
  ghost predicate ReadyAt(w: World, local: Local, had: set<string>, trace: seq<Upload>, i: nat)
    requires i < |trace|
  {
    trace[i].Document? ==>
      && (forall c :: c in Children(w, trace[i].data) ==> Sent(local, trace[..i], c))
      && (forall b :: b in Blobs(w, trace[i].data) ==> b in had + BlobsOf(trace[..i]))
  }

  ghost predicate Ordered(w: World, local: Local, had: set<string>, trace: seq<Upload>) {
    forall i :: 0 <= i < |trace| ==> ReadyAt(w, local, had, trace, i)
  }

  lemma BlobsOfAppend(a: seq<Upload>, b: seq<Upload>)
    ensures BlobsOf(a + b) == BlobsOf(a) + BlobsOf(b)
  {
  }

  lemma ReadyEarlier(w: World, local: Local, had: set<string>, a: seq<Upload>, b: seq<Upload>, i: nat)
    requires i < |a| && ReadyAt(w, local, had, a, i)
    ensures ReadyAt(w, local, had, a + b, i)
  {
    assert (a + b)[..i] == a[..i];
  }

  lemma ReadyLater(w: World, local: Local, had: set<string>, a: seq<Upload>, b: seq<Upload>, k: nat)
    requires k < |b| && ReadyAt(w, local, had + BlobsOf(a), b, k)
    ensures ReadyAt(w, local, had, a + b, |a| + k)
  {
    assert (a + b)[..|a| + k] == a + b[..k];
    BlobsOfAppend(a, b[..k]);
  }

  lemma OrderedAppend(w: World, local: Local, had: set<string>, a: seq<Upload>, b: seq<Upload>)
    requires Ordered(w, local, had, a) && Ordered(w, local, had + BlobsOf(a), b)
    ensures Ordered(w, local, had, a + b) && BlobsOf(a + b) == BlobsOf(a) + BlobsOf(b)
  {
    BlobsOfAppend(a, b);
    forall i | 0 <= i < |a + b| ensures ReadyAt(w, local, had, a + b, i) {
      if i < |a| {
        ReadyEarlier(w, local, had, a, b, i);
      } else {
        ReadyLater(w, local, had, a, b, i - |a|);
      }
    }
  }

  /** Once the order is kept, everything below an uploaded manifest is uploaded, down to the blobs. */
  lemma {:induction false} UploadsAreClosed(w: World, local: Local, had: set<string>, trace: seq<Upload>, root: Upload,
                                            path: seq<string>)
    requires Ordered(w, local, had, trace) && root in trace && root.Document?
    requires path != [] && path[0] in Children(w, root.data)
    requires forall i :: 0 <= i < |path| - 1 ==>
               local.get(path[i]).Some? && path[i + 1] in Children(w, local.get(path[i]).value)
    ensures Sent(local, trace, path[|path| - 1])
    ensures forall b :: b in Blobs(w, local.get(path[|path| - 1]).value) ==> b in had + BlobsOf(trace)
    decreases |path|
  {
    ReadyUpload(w, local, had, trace, root);
    var next := Document(path[0], local.get(path[0]).value);
    if |path| > 1 {
      assert path[0 + 1] in Children(w, local.get(path[0]).value);
      UploadsAreClosed(w, local, had, trace, next, path[1..]);
    } else {
      ReadyUpload(w, local, had, trace, next);
    }
  }

  /** What holds when a manifest is uploaded still holds at the end. */
  lemma ReadyUpload(w: World, local: Local, had: set<string>, trace: seq<Upload>, e: Upload)
    requires Ordered(w, local, had, trace) && e in trace && e.Document?
    ensures forall c :: c in Children(w, e.data) ==> Sent(local, trace, c)
    ensures forall b :: b in Blobs(w, e.data) ==> b in had + BlobsOf(trace)
  {
    var i :| 0 <= i < |trace| && trace[i] == e;
    assert ReadyAt(w, local, had, trace, i);
    assert forall x :: x in trace[..i] ==> x in trace;
  }

  /** All that the document of an upload names is upstream. */
  ghost predicate Complete(w: World, local: Local, trace: seq<Upload>, blobs: set<string>, e: Upload)
    requires e.Document?
  {
    && (forall c :: MentionsChild(w, e.data, c) ==> Sent(local, trace, c))
    && (forall b :: MentionsBlob(w, e.data, b) ==> b in blobs)
  }

  lemma UploadsAreComplete(w: World, local: Local, had: set<string>, trace: seq<Upload>)
    requires Ordered(w, local, had, trace)
    ensures forall e :: e in trace && e.Document? ==> Complete(w, local, trace, had + BlobsOf(trace), e)
  {
    forall e | e in trace && e.Document? ensures Complete(w, local, trace, had + BlobsOf(trace), e) {
      ReadyUpload(w, local, had, trace, e);
      forall c ensures c in Children(w, e.data) <==> MentionsChild(w, e.data, c) { ChildrenIff(w, e.data, c); }
      forall b ensures b in Blobs(w, e.data) <==> MentionsBlob(w, e.data, b) { BlobsIff(w, e.data, b); }
    }
  }

  /** What the remote registry holds. */
  datatype Side = Side(documents: map<string, ManifestData>, blobs: set<string>)

  /** The uploads of `trace` kept closure and are exactly what changed. */
  ghost predicate Kept(w: World, local: Local, before: Side, trace: seq<Upload>, after: Side) {
    && Ordered(w, local, before.blobs, trace)
    && after == Side(Uploaded(before.documents, trace), before.blobs + BlobsOf(trace))
  }

  lemma KeptAppend(w: World, local: Local, s0: Side, a: seq<Upload>, s1: Side, b: seq<Upload>, s2: Side)
    requires Kept(w, local, s0, a, s1) && Kept(w, local, s1, b, s2)
    ensures Kept(w, local, s0, a + b, s2)
  {
    OrderedAppend(w, local, s0.blobs, a, b);
    UploadedAppend(s0.documents, a, b);
  }

  ghost predicate SentUpTo(local: Local, trace: seq<Upload>, children: seq<string>, n: nat) {
    n <= |children| && forall i :: 0 <= i < n ==> Sent(local, trace, children[i])
  }

  lemma SentNext(local: Local, trace: seq<Upload>, below: seq<Upload>, children: seq<string>, n: nat)
    requires n < |children| && SentUpTo(local, trace, children, n)
    ensures SentUpTo(local, trace + below, children, n)
    ensures Sent(local, below, children[n]) ==> SentUpTo(local, trace + below, children, n + 1)
  {
    SentAppend(local, trace, below);
  }

  lemma SentAppend(local: Local, a: seq<Upload>, b: seq<Upload>)
    ensures forall c :: Sent(local, a, c) || Sent(local, b, c) ==> Sent(local, a + b, c)
  {
  }

  /** A leaf's blobs alone. */
  lemma KeptBlobs(w: World, local: Local, before: Side, trace: seq<Upload>)
    requires forall e :: e in trace ==> e.Blob?
    ensures Kept(w, local, before, trace, Side(before.documents, before.blobs + BlobsOf(trace)))
  {
    BlobUploadsAreOrdered(w, local, before.blobs, trace);
    BlobsUploadNoDocument(before.documents, trace);
  }

  /** A manifest whose children and blobs are there. */
  lemma KeptDocument(w: World, local: Local, before: Side, trace: seq<Upload>, mid: Side, reference: string,
                     entry: ManifestData)
    requires Kept(w, local, before, trace, mid)
    requires forall c :: c in Children(w, entry) ==> Sent(local, trace, c)
    requires forall b :: b in Blobs(w, entry) ==> b in mid.blobs
    ensures var after := mid.(documents := mid.documents[reference := entry]);
            Kept(w, local, before, trace + [Document(reference, entry)], after)
  {
    AppendOne(w, local, before.blobs, trace, Document(reference, entry));
    assert (trace + [Document(reference, entry)])[..|trace|] == trace;
  }

  // ---- When a push succeeds ----

  /** A manifest the push can get through: its body parses, its children are stored and its blobs are to be had. */
  ghost predicate Fit(w: World, local: Local, available: set<string>, m: ManifestData) {
    && w.parse(m.body).Some?
    && (forall c :: c in Children(w, m) ==> local.get(c).Some?)
    && (forall b :: b in Blobs(w, m) ==> b in available)
  }

  /** Following the child texts of `path` from `m` leads to `d`. */
  ghost predicate LeadsTo(w: World, local: Local, m: ManifestData, path: seq<string>, d: ManifestData)
    decreases |path|
  {
    if path == [] then d == m
    else
      path[0] in Children(w, m) && local.get(path[0]).Some? && LeadsTo(w, local, local.get(path[0]).value, path[1..], d)
  }

  /** Every manifest some path leads to is fit. */
  ghost predicate Pushable(w: World, local: Local, available: set<string>, m: ManifestData) {
    forall path, d :: LeadsTo(w, local, m, path, d) ==> Fit(w, local, available, d)
  }

  /** One step of what pushable means: fit, and all children pushable. */
  ghost predicate StepOf(w: World, local: Local, available: set<string>, m: ManifestData,
                         pushable: ManifestData -> bool) {
    && Fit(w, local, available, m)
    && forall c :: c in Children(w, m) && local.get(c).Some? ==> pushable(local.get(c).value)
  }

  lemma PushableStep(w: World, local: Local, available: set<string>, m: ManifestData)
    ensures Pushable(w, local, available, m) == StepOf(w, local, available, m, x => Pushable(w, local, available, x))
  {
    if Pushable(w, local, available, m) {
      assert LeadsTo(w, local, m, [], m);
      forall c | c in Children(w, m) && local.get(c).Some? ensures Pushable(w, local, available, local.get(c).value) {
        PushableBelow(w, local, available, m, c);
      }
    }
    if StepOf(w, local, available, m, x => Pushable(w, local, available, x)) {
      forall path, d | LeadsTo(w, local, m, path, d) ensures Fit(w, local, available, d) {
        if path != [] {
          assert LeadsTo(w, local, local.get(path[0]).value, path[1..], d);
        }
      }
    }
  }

  lemma PushableBelow(w: World, local: Local, available: set<string>, m: ManifestData, c: string)
    requires Pushable(w, local, available, m) && c in Children(w, m) && local.get(c).Some?
    ensures Pushable(w, local, available, local.get(c).value)
  {
    forall path, d | LeadsTo(w, local, local.get(c).value, path, d) ensures Fit(w, local, available, d) {
      assert ([c] + path)[1..] == path && LeadsTo(w, local, m, [c] + path, d);
    }
  }

  /** What a push has to go on: the nodes below it, and for each whether it can be pushed. */
  datatype Plan = Plan(w: World, local: Local, available: set<string>, nodes: set<ManifestData>,
                       rank: ManifestData -> nat, pushable: ManifestData -> bool)
  {
    ghost predicate OkAt(m: ManifestData) {
      Descends(w, local, nodes, rank, m) && pushable(m) == StepOf(w, local, available, m, pushable)
    }

    ghost predicate Ok() {
      forall m {:trigger OkAt(m)} :: m in nodes ==> OkAt(m)
    }

    ghost predicate ChildOk(c: string) { local.get(c).Some? && pushable(local.get(c).value) }

    /** The first `n` children can be pushed. */
    ghost predicate OkUpTo(children: seq<string>, n: nat) {
      n <= |children| && forall i :: 0 <= i < n ==> ChildOk(children[i])
    }
  }

  lemma ChildIsBelow(plan: Plan, entry: ManifestData, child: string)
    requires plan.Ok() && entry in plan.nodes && child in Children(plan.w, entry) && plan.local.get(child).Some?
    ensures plan.local.get(child).value in plan.nodes && plan.rank(plan.local.get(child).value) < plan.rank(entry)
  {
    assert plan.OkAt(entry);
  }

  class Remote {
    var documents: map<string, ManifestData>
    var blobs: set<string>
    var calls: nat

    method Call(w: World) returns (ok: bool)
      modifies this`calls
      ensures ok == !w.fails(old(calls)) && calls == old(calls) + 1
    {
      ok := !w.fails(calls);
      calls := calls + 1;
    }

    /** Looks the blob up upstream and uploads it from the local store when it is missing. */
    method PushBlob(w: World, digest: string, local: Local) returns (ok: bool, ghost trace: seq<Upload>)
      modifies this
      ensures documents == old(documents) && blobs == old(blobs) + BlobsOf(trace)
      ensures trace == [] || (trace == [Blob(digest)] && digest in local.blobs && digest !in old(blobs))
      ensures old(calls) <= calls && (ok <==> NoFailure(w, old(calls), calls) && digest in old(blobs) + local.blobs)
      ensures ok ==> digest in blobs
    {
      trace := [];
      ok := Call(w);
      if !ok || digest in blobs {
        return;
      }
      ok := Call(w);
      if !ok || digest !in local.blobs {
        return false, trace;
      }
      ok := Call(w);
      if !ok { return; }
      ok := Call(w);
      if !ok { return; }
      blobs := blobs + {digest};
      trace := [Blob(digest)];
    }

    method PushBlobs(w: World, digests: seq<string>, local: Local) returns (ok: bool, ghost trace: seq<Upload>)
      modifies this
      ensures documents == old(documents) && blobs == old(blobs) + BlobsOf(trace)
      ensures forall e :: e in trace ==> e.Blob? && e.digest in local.blobs
      ensures ok ==> forall b :: b in digests && FromStrChecked(b).Some? ==> b in blobs
      ensures old(calls) <= calls
      ensures ok <==> && NoFailure(w, old(calls), calls)
                      && forall b :: b in digests && FromStrChecked(b).Some? ==> b in old(blobs) + local.blobs
    {
      trace := [];
      for i := 0 to |digests|
        invariant documents == old(documents) && blobs == old(blobs) + BlobsOf(trace)
        invariant forall e :: e in trace ==> e.Blob? && e.digest in local.blobs
        invariant forall j :: 0 <= j < i && FromStrChecked(digests[j]).Some? ==> digests[j] in blobs
        invariant old(calls) <= calls && NoFailure(w, old(calls), calls)
      {
        if FromStrChecked(digests[i]).None? {
          continue;
        }
        ghost var sent, from := [], calls;
        ok, sent := PushBlob(w, digests[i], local);
        BlobsOfAppend(trace, sent);
        trace := trace + sent;
        NoFailureSplits(w, old(calls), from, calls);
        if !ok {
          assert digests[i] in digests;
          return;
        }
      }
      ok := true;
    }

    ghost function Now(): Side
      reads this
    {
      Side(documents, blobs)
    }

    /** Uploads come from the local store, so what can be had stays as planned. */
    ghost predicate Planned(w: World, local: Local, plan: Plan)
      reads this
    {
      plan.Ok() && plan.w == w && plan.local == local && blobs + local.blobs == plan.available
    }

    /** The loop over the children of an index. */
    method PushChildren(w: World, entry: ManifestData, local: Local, ghost plan: Plan)
      returns (ok: bool, ghost trace: seq<Upload>)
      requires Planned(w, local, plan) && entry in plan.nodes
      modifies this
      ensures Kept(w, local, old(Now()), trace, Now()) && Planned(w, local, plan)
      ensures ok ==> SentUpTo(local, trace, Children(w, entry), |Children(w, entry)|)
      ensures old(calls) <= calls
      ensures ok <==> NoFailure(w, old(calls), calls) && plan.OkUpTo(Children(w, entry), |Children(w, entry)|)
      decreases plan.rank(entry), 1
    {
      var children := Children(w, entry);
      trace := [];
      for i := 0 to |children|
        invariant Kept(w, local, old(Now()), trace, Now()) && Planned(w, local, plan)
        invariant SentUpTo(local, trace, children, i) && plan.OkUpTo(children, i)
        invariant old(calls) <= calls && NoFailure(w, old(calls), calls)
      {
        ghost var mid, below, from := Now(), [], calls;
        ok, below := PushChild(w, entry, children[i], local, plan);
        KeptAppend(w, local, old(Now()), trace, mid, below, Now());
        SentNext(local, trace, below, children, i);
        trace := trace + below;
        NoFailureSplits(w, old(calls), from, calls);
        if !ok {
          return;
        }
      }
      ok := true;
    }

    method PushChild(w: World, entry: ManifestData, child: string, local: Local, ghost plan: Plan)
      returns (ok: bool, ghost trace: seq<Upload>)
      requires Planned(w, local, plan) && entry in plan.nodes && child in Children(w, entry)
      modifies this
      ensures Kept(w, local, old(Now()), trace, Now()) && Planned(w, local, plan)
      ensures ok ==> Sent(local, trace, child)
      ensures old(calls) <= calls
      ensures ok <==> NoFailure(w, old(calls), calls) && plan.ChildOk(child)
      decreases plan.rank(entry), 0
    {
      trace := [];
      ok := Call(w);
      if !ok || local.get(child).None? {
        return false, trace;
      }
      ChildIsBelow(plan, entry, child);
      ghost var from := calls;
      ok, trace := PushManifestRecursive(w, child, local.get(child).value, local, plan);
      NoFailureSplits(w, old(calls), from, calls);
    }

    /** Everything a manifest names: the children of an index, the blobs of a leaf. */
    method PushBelow(w: World, entry: ManifestData, local: Local, ghost plan: Plan)
      returns (ok: bool, ghost trace: seq<Upload>)
      requires Planned(w, local, plan) && entry in plan.nodes
      modifies this
      ensures Kept(w, local, old(Now()), trace, Now()) && Planned(w, local, plan)
      ensures ok ==> forall c :: c in Children(w, entry) ==> Sent(local, trace, c)
      ensures ok ==> forall b :: b in Blobs(w, entry) ==> b in blobs
      ensures old(calls) <= calls
      ensures ok <==> NoFailure(w, old(calls), calls) && plan.pushable(entry)
      decreases plan.rank(entry), 2
    {
      assert plan.OkAt(entry);
      trace := [];
      if w.parse(entry.body).None? {
        return false, trace;
      }
      if IsIndexManifest(entry.contentType) {
        ok, trace := PushChildren(w, entry, local, plan);
      } else {
        ok, trace := PushBlobs(w, Blobs(w, entry), local);
        BlobsAreDigests(w, entry);
        KeptBlobs(w, local, old(Now()), trace);
        LocalBlobs(local, old(blobs), trace);
      }
    }

    method PushManifestRecursive(w: World, reference: string, entry: ManifestData, local: Local, ghost plan: Plan)
      returns (ok: bool, ghost trace: seq<Upload>)
      requires Planned(w, local, plan) && entry in plan.nodes
      modifies this
      ensures Kept(w, local, old(Now()), trace, Now()) && Planned(w, local, plan)
      ensures ok ==> trace != [] && trace[|trace| - 1] == Document(reference, entry)
      ensures old(calls) <= calls
      ensures ok <==> NoFailure(w, old(calls), calls) && plan.pushable(entry)
      decreases plan.rank(entry), 3
    {
      ok, trace := PushBelow(w, entry, local, plan);
      if !ok { return; }
      ghost var from := calls;
      ok := Call(w);
      NoFailureSplits(w, old(calls), from, calls);
      if !ok { return; }
      KeptDocument(w, local, old(Now()), trace, Now(), reference, entry);
      documents := documents[reference := entry];
      trace := trace + [Document(reference, entry)];
    }

    /**
     A push succeeds if and only if no call fails and everything below the manifest is fit to be pushed; with
     every manifest it uploads, all that its document names is upstream.
     */
    method Push(w: World, reference: string, entry: ManifestData, local: Local,
                ghost nodes: set<ManifestData>, ghost rank: ManifestData -> nat)
      returns (ok: bool, ghost trace: seq<Upload>)
      requires Acyclic(w, local, nodes, rank) && entry in nodes
      modifies this
      ensures Kept(w, local, old(Now()), trace, Now())
      ensures ok ==> trace != [] && trace[|trace| - 1] == Document(reference, entry)
      ensures forall e :: e in trace && e.Document? ==> Complete(w, local, trace, blobs, e)
      ensures old(calls) <= calls
      ensures ok <==> NoFailure(w, old(calls), calls) && Pushable(w, local, old(blobs) + local.blobs, entry)
    {
      ghost var available := blobs + local.blobs;
      ghost var plan := Plan(w, local, available, nodes, rank, m => Pushable(w, local, available, m));
      forall m | m in nodes ensures plan.OkAt(m) {
        assert Descends(w, local, nodes, rank, m);
        PushableStep(w, local, available, m);
        SameStep(w, local, available, m, plan.pushable);
      }
      ok, trace := PushManifestRecursive(w, reference, entry, local, plan);
      UploadsAreComplete(w, local, old(blobs), trace);
    }
  }

  lemma SameStep(w: World, local: Local, available: set<string>, m: ManifestData, pushable: ManifestData -> bool)
    requires forall x :: pushable(x) == Pushable(w, local, available, x)
    ensures StepOf(w, local, available, m, pushable) ==
            StepOf(w, local, available, m, x => Pushable(w, local, available, x))
  {
  }

  lemma LocalBlobs(local: Local, had: set<string>, trace: seq<Upload>)
    requires forall e :: e in trace ==> e.Blob? && e.digest in local.blobs
    ensures had + BlobsOf(trace) + local.blobs == had + local.blobs
  {
  }

  lemma BlobUploadsAreOrdered(w: World, local: Local, had: set<string>, trace: seq<Upload>)
    requires forall e :: e in trace ==> e.Blob?
    ensures Ordered(w, local, had, trace)
  {
    forall i | 0 <= i < |trace| ensures ReadyAt(w, local, had, trace, i) {
      assert trace[i] in trace;
    }
  }

  lemma AppendOne(w: World, local: Local, had: set<string>, a: seq<Upload>, e: Upload)
    requires Ordered(w, local, had, a) && e.Document?
    requires forall c :: c in Children(w, e.data) ==> Sent(local, a, c)
    requires forall b :: b in Blobs(w, e.data) ==> b in had + BlobsOf(a)
    ensures Ordered(w, local, had, a + [e]) && BlobsOf(a + [e]) == BlobsOf(a)
  {
    BlobsOfAppend(a, [e]);
    forall i | 0 <= i < |a + [e]| ensures ReadyAt(w, local, had, a + [e], i) {
      assert (a + [e])[..i] == a[..i];
      assert i < |a| ==> ReadyAt(w, local, had, a, i);
      assert a[..|a|] == a;
    }
  }
}
