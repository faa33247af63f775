/**
 The blob garbage collector (gc.rs): one sweep over the object listing with two snapshots of the
 reference counters, interleaved with whatever the metadata writers do in between.
 */
module Gc {
  import opened Common
  import opened Digests
  import opened RefCounts
  import opened StateMachine

  const BATCH: nat := 1000

  datatype Object = Object(key: string, digest: string, lastModified: Option<nat>)

  /** One row of the S3 listing; the time is in seconds since the epoch and may be absent or negative. */
  datatype Listed = Listed(key: string, seconds: Option<int>)

  function FromListed(l: Listed): Option<Object> {
    match S3KeyToDigest(l.key)
    case None => None
    case Some(digest) =>
      Some(Object(l.key, digest, if l.seconds.Some? && l.seconds.value >= 0 then Some(l.seconds.value) else None))
  }

  /** The object of a row: key and digest belong together, and the time is known unless absent or negative. */
  ghost predicate IsListed(o: Object, l: Listed) {
    && o.key == l.key && S3KeyToDigest(l.key) == Some(o.digest)
    && (o.lastModified.Some? <==> l.seconds.Some? && l.seconds.value >= 0)
    && (o.lastModified.Some? ==> l.seconds == Some(o.lastModified.value))
  }

  /** `list_blob_objects`: keys that do not look like blob keys are never considered. */
  method ListBlobObjects(listing: seq<Listed>) returns (objects: seq<Object>)
    ensures forall o :: o in objects ==> S3KeyToDigest(o.key) == Some(o.digest)
    ensures forall o :: o in objects <==> exists l :: l in listing && IsListed(o, l)
  {
    objects := [];
    for i := 0 to |listing|
      invariant forall o :: o in objects ==> S3KeyToDigest(o.key) == Some(o.digest)
      invariant forall o :: o in objects <==> exists l :: l in listing[..i] && IsListed(o, l)
    {
      assert listing[..i + 1] == listing[..i] + [listing[i]];
      assert forall o :: FromListed(listing[i]) == Some(o) <==> IsListed(o, listing[i]);
      match FromListed(listing[i])
      case Some(o) => objects := objects + [o];
      case None =>
    }
    assert listing[..|listing|] == listing;
  }

  datatype Config = Config(gracePeriod: nat, dryRun: bool)

  datatype Status = Status(scanned: nat, candidates: nat, deleted: nat, skippedReferenced: nat, skippedYoung: nat,
                           deleteErrors: nat, leadershipLost: bool)

  /** An object without a usable time, or with one in the future, counts as young. */
  predicate OldEnough(o: Object, now: nat, grace: nat) {
    o.lastModified.Some? && o.lastModified.value <= now && now - o.lastModified.value >= grace
  }

  /** No time is known, or the grace period is not over. */
  predicate Young(o: Object, now: nat, grace: nat) {
    o.lastModified.None? || o.lastModified.value + grace > now
  }

  predicate Referenced(counts: map<string, nat>, o: Object) {
    Count(counts, o.digest) > 0
  }

  function Select(objects: seq<Object>, keep: Object -> bool): (r: seq<Object>)
    ensures forall o :: o in r <==> o in objects && keep(o)
  {
    if objects == [] then []
    else
      var rest := Select(objects[..|objects| - 1], keep);
      var last := objects[|objects| - 1];
      assert objects == objects[..|objects| - 1] + [last];
      if keep(last) then rest + [last] else rest
  }

  function FirstPass(objects: seq<Object>, now: nat, grace: nat, counts: map<string, nat>): seq<Object> {
    Select(objects, o => !Referenced(counts, o) && OldEnough(o, now, grace))
  }

  /** How many unreferenced objects are young. */
  function YoungCount(objects: seq<Object>, now: nat, grace: nat, counts: map<string, nat>): nat {
    |Select(objects, (o: Object) => Count(counts, o.digest) == 0 && Young(o, now, grace))|
  }

  /** What a sweep may delete: old enough and unreferenced in both snapshots, in listing order. */
  function Candidates(objects: seq<Object>, now: nat, grace: nat, first: map<string, nat>,
                      second: map<string, nat>): seq<Object> {
    Select(FirstPass(objects, now, grace, first), o => !Referenced(second, o))
  }

  method CollectUnreferenced(objects: seq<Object>, now: nat, grace: nat, counts: map<string, nat>)
    returns (toDelete: seq<Object>, referenced: nat, young: nat)
    ensures toDelete == FirstPass(objects, now, grace, counts)
    ensures |objects| == |toDelete| + referenced + young
    ensures young == YoungCount(objects, now, grace, counts)
  {
    toDelete, referenced, young := [], 0, 0;
    for i := 0 to |objects|
      invariant toDelete == FirstPass(objects[..i], now, grace, counts)
      invariant i == |toDelete| + referenced + young
      invariant young == YoungCount(objects[..i], now, grace, counts)
    {
      var o := objects[i];
      assert objects[..i + 1][..i] == objects[..i];
      if Count(counts, o.digest) > 0 {
        referenced := referenced + 1;
        continue;
      }
      if !OldEnough(o, now, grace) {
        young := young + 1;
        continue;
      }
      toDelete := toDelete + [o];
    }
    assert objects[..|objects|] == objects;
  }

  method Retain(objects: seq<Object>, counts: map<string, nat>) returns (kept: seq<Object>)
    ensures kept == Select(objects, o => !Referenced(counts, o)) && |kept| <= |objects|
  {
    kept := [];
    for i := 0 to |objects|
      invariant kept == Select(objects[..i], o => !Referenced(counts, o)) && |kept| <= i
    {
      assert objects[..i + 1][..i] == objects[..i];
      if Count(counts, objects[i].digest) == 0 {
        kept := kept + [objects[i]];
      }
    }
    assert objects[..|objects|] == objects;
  }

  function Keys(objects: seq<Object>): (r: seq<string>)
    ensures |r| == |objects| && forall i :: 0 <= i < |objects| ==> r[i] == objects[i].key
  {
    seq(|objects|, i requires 0 <= i < |objects| => objects[i].key)
  }

  /**
   The world during the deletions: whether this node still leads before the b-th batch, whether the
   b-th batch request fails, and how many errors its answer reports.
   */
  datatype World = World(leads: nat -> bool, fails: nat -> bool, errors: nat -> nat)

  function BatchSize(n: nat, b: nat): nat {
    if (b + 1) * BATCH <= n then BATCH else if b * BATCH <= n then n - b * BATCH else 0
  }

  /** The errors the first `n` answers report. */
  function ErrorsUpTo(w: World, n: nat): nat {
    if n == 0 then 0 else ErrorsUpTo(w, n - 1) + w.errors(n - 1)
  }

  /** What the first `n` answers leave as deleted, of `total` keys. */
  function DeletedUpTo(w: World, total: nat, n: nat): nat {
    if n == 0 then 0 else DeletedUpTo(w, total, n - 1) + SaturatingSub(BatchSize(total, n - 1), w.errors(n - 1))
  }

  function SaturatingSub(a: nat, b: nat): nat { if b <= a then a - b else 0 }

  /** The batch loop. `batches` counts the batches handed to S3, the last one possibly failing. */
  method DeleteInBatches(w: World, toDelete: seq<Object>)
    returns (ok: bool, sent: seq<string>, deleted: nat, errors: nat, lost: bool, batches: nat)
    ensures sent <= Keys(toDelete)
    ensures |sent| == batches * BATCH || (sent == Keys(toDelete) && |sent| <= batches * BATCH)
    ensures forall b :: 0 <= b < batches ==> w.leads(b)
    ensures batches > 0 ==> (batches - 1) * BATCH < |sent|
    ensures ok ==> errors == ErrorsUpTo(w, batches) && deleted == DeletedUpTo(w, |toDelete|, batches)
    ensures !ok <==> batches > 0 && w.fails(batches - 1)
    ensures forall b :: 0 <= b < batches - 1 ==> !w.fails(b)
    ensures ok && lost ==> !w.leads(batches) && |sent| < |toDelete|
    ensures ok && !lost ==> sent == Keys(toDelete)
    ensures ok ==> |sent| <= deleted + errors
    ensures ok ==> (deleted + errors == |sent| <==>
                    forall b :: 0 <= b < batches ==> w.errors(b) <= BatchSize(|toDelete|, b))
  {
    var keys := Keys(toDelete);
    var i := 0;
    sent, deleted, errors, batches := [], 0, 0, 0;
    while i < |keys|
      invariant 0 <= i <= |keys| && sent == keys[..i]
      invariant i == batches * BATCH || (i == |keys| && i <= batches * BATCH)
      invariant forall b :: 0 <= b < batches ==> w.leads(b) && !w.fails(b)
      invariant batches > 0 ==> (batches - 1) * BATCH < i
      invariant errors == ErrorsUpTo(w, batches) && deleted == DeletedUpTo(w, |keys|, batches)
      invariant i <= deleted + errors
      invariant deleted + errors == i <==> forall b :: 0 <= b < batches ==> w.errors(b) <= BatchSize(|keys|, b)
    {
      if !w.leads(batches) {
        return true, sent, deleted, errors, true, batches;
      }
      var end := if i + BATCH <= |keys| then i + BATCH else |keys|;
      assert sent + keys[i..end] == keys[..end];
      assert BatchSize(|keys|, batches) == end - i;
      sent := sent + keys[i..end];
      if w.fails(batches) {
        return false, sent, deleted, errors, false, batches + 1;
      }
      deleted := deleted + SaturatingSub(end - i, w.errors(batches));
      errors := errors + w.errors(batches);
      i, batches := end, batches + 1;
    }
    assert keys[..|keys|] == keys;
    return true, sent, deleted, errors, false, batches;
  }

  /**
   One sweep. `first` and `second` are the counters read at two moments; everything in between is up to
   the writers. `sent` lists the keys handed to S3 for deletion, even when the sweep then fails.
   */
  method RunGcSweep(w: World, objects: seq<Object>, now: nat, config: Config, first: map<string, nat>,
                    second: map<string, nat>)
    returns (r: Result<Status>, sent: seq<string>, batches: nat)
    ensures sent <= Keys(Candidates(objects, now, config.gracePeriod, first, second))
    ensures |sent| == batches * 1000 || sent == Keys(Candidates(objects, now, config.gracePeriod, first, second))
    ensures config.dryRun ==> sent == [] && r.Ok? && batches == 0
    ensures batches > 0 ==> (batches - 1) * 1000 < |sent|
    ensures r.Ok? ==> && r.value.deleteErrors == ErrorsUpTo(w, batches)
                      && r.value.deleted == DeletedUpTo(w, r.value.candidates, batches)
    ensures !config.dryRun ==> (r.Err? <==> batches > 0 && w.fails(batches - 1))
    ensures forall b :: 0 <= b < batches ==> w.leads(b) && (b < batches - 1 ==> !w.fails(b))
    ensures r.Ok? ==> && r.value.scanned == |objects|
                      && r.value.scanned == r.value.skippedReferenced + r.value.skippedYoung + r.value.candidates
                      && r.value.candidates == |Candidates(objects, now, config.gracePeriod, first, second)|
                      && r.value.skippedYoung == YoungCount(objects, now, config.gracePeriod, first)
    ensures r.Ok? && r.value.leadershipLost ==> !w.leads(batches) && |sent| < r.value.candidates
    ensures r.Ok? && !config.dryRun && !r.value.leadershipLost ==>
              && |sent| == r.value.candidates
              && (r.value.deleted + r.value.deleteErrors == r.value.candidates <==>
                  forall b :: 0 <= b < batches ==> w.errors(b) <= BatchSize(r.value.candidates, b))
  {
    var toDelete, referenced, young := CollectUnreferenced(objects, now, config.gracePeriod, first);
    var before := |toDelete|;
    toDelete := Retain(toDelete, second);
    referenced := referenced + (before - |toDelete|);
    if config.dryRun {
      return Ok(Status(|objects|, |toDelete|, 0, referenced, young, 0, false)), [], 0;
    }
    var ok, deleted, errors, lost;
    ok, sent, deleted, errors, lost, batches := DeleteInBatches(w, toDelete);
    if ok {
      r := Ok(Status(|objects|, |toDelete|, deleted, referenced, young, errors, lost));
    } else {
      r := Err;
    }
  }

  // ---- Safety ----

  /**
   No object of a blob is deleted if its counter was positive in either snapshot or if it was young.
   The keys in the listing and the keys of the counters meet because the two digest codecs agree.
   */
  lemma SweepSpares(objects: seq<Object>, now: nat, grace: nat, first: map<string, nat>, second: map<string, nat>,
                    sent: seq<string>, d: Digest)
    requires forall o :: o in objects ==> S3KeyToDigest(o.key) == Some(o.digest)
    requires sent <= Keys(Candidates(objects, now, grace, first, second)) && Valid(d)
    requires || Count(first, ToString(d)) > 0
             || Count(second, ToString(d)) > 0
             || (forall o :: o in objects && o.key == S3Key(d) ==> Young(o, now, grace))
    ensures S3Key(d) !in sent
  {
    S3KeyRoundTrip(d);
    var candidates := Candidates(objects, now, grace, first, second);
    forall i | 0 <= i < |sent| ensures sent[i] != S3Key(d) {
      assert sent[i] == Keys(candidates)[i] == candidates[i].key;
      assert candidates[i] in candidates;
    }
  }

  /** An object is a candidate exactly when it is old and unreferenced in both snapshots. */
  lemma CandidatesMeaning(objects: seq<Object>, now: nat, grace: nat, first: map<string, nat>, second: map<string, nat>,
                          o: Object)
    ensures o in Candidates(objects, now, grace, first, second) <==>
            && o in objects && Count(first, o.digest) == 0 && Count(second, o.digest) == 0
            && o.lastModified.Some? && o.lastModified.value + grace <= now
  {
  }

  /**
   End to end: in every interleaving of the sweep with the state machine, the blobs of any manifest
   stored at either snapshot survive, because the counters of every reachable catalog are exact.
   */
  lemma LiveBlobsSurvive(objects: seq<Object>, now: nat, grace: nat, atFirst: Catalog, atSecond: Catalog,
                         sent: seq<string>, d: Digest, c: Catalog, p: (string, string))
    requires forall o :: o in objects ==> S3KeyToDigest(o.key) == Some(o.digest)
    requires sent <= Keys(Candidates(objects, now, grace, atFirst.refCounts, atSecond.refCounts)) && Valid(d)
    requires atFirst.Ok() && atSecond.Ok() && (c == atFirst || c == atSecond)
    requires IsStored(c.manifests, p) && ToString(d) in c.manifests[p.0][p.1].refs
    ensures S3Key(d) !in sent
  {
    PositiveIffReferenced(c.refCounts, c.manifests, ToString(d));
    SweepSpares(objects, now, grace, atFirst.refCounts, atSecond.refCounts, sent, d);
  }

  ghost predicate ReferencedIn(c: Catalog, d: Digest) {
    exists p :: IsStored(c.manifests, p) && ToString(d) in c.manifests[p.0][p.1].refs
  }

  ghost predicate HasOldObject(objects: seq<Object>, now: nat, grace: nat, key: string) {
    exists o :: o in objects && o.key == key && !Young(o, now, grace)
  }

  lemma CandidateKeyIff(objects: seq<Object>, now: nat, grace: nat, first: map<string, nat>, second: map<string, nat>,
                        key: string, digest: string)
    requires forall o :: o in objects && o.key == key ==> o.digest == digest
    ensures key in Keys(Candidates(objects, now, grace, first, second)) <==>
            HasOldObject(objects, now, grace, key) && Count(first, digest) == 0 && Count(second, digest) == 0
  {
    var candidates := Candidates(objects, now, grace, first, second);
    if key in Keys(candidates) {
      var i :| 0 <= i < |candidates| && Keys(candidates)[i] == key;
      assert candidates[i] in candidates;
    }
    if HasOldObject(objects, now, grace, key) && Count(first, digest) == 0 && Count(second, digest) == 0 {
      var o :| o in objects && o.key == key && !Young(o, now, grace);
      assert o in candidates;
      var i :| 0 <= i < |candidates| && candidates[i] == o;
      assert Keys(candidates)[i] in Keys(candidates);
    }
  }

  /**
   What a sweep that is not cut short deletes: the object of a blob goes if and only if it is old and
   no manifest stored at either snapshot references the blob. Manifests stored later do not count.
   */
  lemma DeletedIff(objects: seq<Object>, now: nat, grace: nat, atFirst: Catalog, atSecond: Catalog, d: Digest)
    requires forall o :: o in objects ==> S3KeyToDigest(o.key) == Some(o.digest)
    requires atFirst.Ok() && atSecond.Ok() && Valid(d)
    ensures S3Key(d) in Keys(Candidates(objects, now, grace, atFirst.refCounts, atSecond.refCounts)) <==>
            HasOldObject(objects, now, grace, S3Key(d)) && !ReferencedIn(atFirst, d) && !ReferencedIn(atSecond, d)
  {
    S3KeyRoundTrip(d);
    PositiveIffReferenced(atFirst.refCounts, atFirst.manifests, ToString(d));
    PositiveIffReferenced(atSecond.refCounts, atSecond.manifests, ToString(d));
    CandidateKeyIff(objects, now, grace, atFirst.refCounts, atSecond.refCounts, S3Key(d), ToString(d));
  }

  /**
   A manifest stored after the second snapshot can lose its blob: every state with an old unreferenced
   object has a successor, reached by storing one manifest, in which a stored manifest references the
   blob the sweep is about to delete.
   */
  lemma LateManifestLosesBlob(objects: seq<Object>, now: nat, grace: nat, atFirst: Catalog, atSecond: Catalog,
                              d: Digest, name: string, key: string)
    returns (later: Catalog)
    requires forall o :: o in objects ==> S3KeyToDigest(o.key) == Some(o.digest)
    requires atFirst.Ok() && atSecond.Ok() && Valid(d) && HasOldObject(objects, now, grace, S3Key(d))
    requires !ReferencedIn(atFirst, d) && !ReferencedIn(atSecond, d) && key !in Row(atSecond.manifests, name)
    ensures later.Ok() && later.manifests == Inserted(atSecond.manifests, name, key, Entry(key, {ToString(d)}))
    ensures ReferencedIn(later, d)
    ensures S3Key(d) in Keys(Candidates(objects, now, grace, atFirst.refCounts, atSecond.refCounts))
  {
    var entry := Entry(key, {ToString(d)});
    InsertCounts(atSecond.refCounts, atSecond.manifests, name, key, entry);
    InsertKeepsTags(atSecond.manifests, atSecond.tags, name, key, entry);
    var manifests := Inserted(atSecond.manifests, name, key, entry);
    later := Catalog(manifests, atSecond.tags, Incremented(atSecond.refCounts, entry.refs));
    assert IsStored(later.manifests, (name, key)) && ToString(d) in later.manifests[name][key].refs;
    DeletedIff(objects, now, grace, atFirst, atSecond, d);
  }
}
