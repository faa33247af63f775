/**
 Blob reference counts of the metadata state machine (raft/state_machine.rs): the counter of a blob
 is the number of stored manifests that reference it, however the manifests got there.
 */
module RefCounts {
  /** A stored manifest, reduced to its distinct blob references. */
  datatype Entry = Entry(digest: string, refs: set<string>)

  type Manifests = map<string, map<string, Entry>>

  /** The stored manifests, as (repository, digest) pairs. */
  ghost function Stored(m: Manifests): set<(string, string)> {
    set name, key | name in m && key in m[name] :: (name, key)
  }

  ghost predicate IsStored(m: Manifests, p: (string, string)) {
    p.0 in m && p.1 in m[p.0]
  }

  lemma StoredMeaning(m: Manifests)
    ensures forall p :: p in Stored(m) <==> IsStored(m, p)
  {
  }

  /** The stored manifests that reference a blob. */
  ghost function Holders(m: Manifests, b: string): set<(string, string)> {
    set p | p in Stored(m) && IsStored(m, p) && b in m[p.0][p.1].refs
  }

  /** Entries already taken out of the manifests whose references are still counted. */
  ghost function Uncounted(pending: map<string, Entry>, b: string): set<string> {
    set key | key in pending && b in pending[key].refs
  }

  function Count(counts: map<string, nat>, b: string): nat {
    if b in counts then counts[b] else 0
  }

  ghost predicate ExactWith(counts: map<string, nat>, m: Manifests, pending: map<string, Entry>) {
    && (forall b :: Count(counts, b) == |Holders(m, b)| + |Uncounted(pending, b)|)
    && (forall b :: b in counts ==> counts[b] > 0)
  }

  /** Every counter is exact and no zero counter is kept. */
  ghost predicate Exact(counts: map<string, nat>, m: Manifests) {
    && (forall b :: Count(counts, b) == |Holders(m, b)|)
    && (forall b :: b in counts ==> counts[b] > 0)
  }

  lemma NothingPending(counts: map<string, nat>, m: Manifests)
    ensures ExactWith(counts, m, map[]) <==> Exact(counts, m)
  {
  }

  /** The counter of a blob is positive exactly when some stored manifest references it. */
  lemma PositiveIffReferenced(counts: map<string, nat>, m: Manifests, b: string)
    requires Exact(counts, m)
    ensures Count(counts, b) > 0 <==> exists p :: IsStored(m, p) && b in m[p.0][p.1].refs
  {
    StoredMeaning(m);
    if p :| IsStored(m, p) && b in m[p.0][p.1].refs {
      assert p in Holders(m, b);
    }
    if Holders(m, b) != {} {
      var p :| p in Holders(m, b);
      assert IsStored(m, p);
    }
  }

  /** No counter exceeds the number of stored manifests, so 64 bits suffice for fewer than 2^64 of them. */
  lemma CountersFit(counts: map<string, nat>, m: Manifests, b: string)
    requires Exact(counts, m)
    ensures Count(counts, b) <= |Stored(m)|
  {
    SubsetIsNoLarger(Holders(m, b), Stored(m));
  }

  lemma {:induction false} SubsetIsNoLarger(a: set<(string, string)>, b: set<(string, string)>)
    requires a <= b
    ensures |a| <= |b|
  {
    assert b == a + (b - a);
  }

  // ---- The two loops ----

  function Incremented(counts: map<string, nat>, refs: set<string>): map<string, nat> {
    map b | b in counts.Keys + refs :: Count(counts, b) + if b in refs then 1 else 0
  }

  function Decremented(counts: map<string, nat>, refs: set<string>): map<string, nat> {
    map b | b in counts && (b !in refs || counts[b] > 1) :: if b in refs then counts[b] - 1 else counts[b]
  }

  method IncrementBlobRefs(counts: map<string, nat>, refs: set<string>) returns (after: map<string, nat>)
    ensures after == Incremented(counts, refs)
  {
    after := counts;
    var todo := refs;
    while todo != {}
      invariant todo <= refs
      invariant after == Incremented(counts, refs - todo)
    {
      var b :| b in todo;
      after := after[b := Count(after, b) + 1];
      todo := todo - {b};
    }
    assert refs - {} == refs;
  }

  method DecrementBlobRefs(counts: map<string, nat>, refs: set<string>) returns (after: map<string, nat>)
    ensures after == Decremented(counts, refs)
  {
    after := counts;
    var todo := refs;
    while todo != {}
      invariant todo <= refs
      invariant after == Decremented(counts, refs - todo)
    {
      var b :| b in todo;
      if b in after {
        // `saturating_sub(1)`, and a counter that reaches zero is removed.
        after := if after[b] <= 1 then after - {b} else after[b := after[b] - 1];
      }
      todo := todo - {b};
    }
    assert refs - {} == refs;
  }

  // ---- Changes to the manifests ----

  function Row(m: Manifests, name: string): map<string, Entry> {
    if name in m then m[name] else map[]
  }

  /** `manifests.entry(name).or_default().insert(key, entry)` */
  function Inserted(m: Manifests, name: string, key: string, entry: Entry): Manifests {
    m[name := Row(m, name)[key := entry]]
  }

  /** Removing keys from a repository's row; the row itself stays, even when it becomes empty. */
  function Without(m: Manifests, name: string, keys: set<string>): Manifests {
    if name in m then m[name := m[name] - keys] else m
  }

  lemma HoldersAfterInsert(m: Manifests, name: string, key: string, entry: Entry, b: string)
    requires key !in Row(m, name)
    ensures (name, key) !in Holders(m, b)
    ensures Holders(Inserted(m, name, key, entry), b) == Holders(m, b) + if b in entry.refs then {(name, key)} else {}
  {
  }

  lemma HoldersAfterRemoval(m: Manifests, name: string, key: string, b: string)
    requires name in m && key in m[name]
    ensures (name, key) !in Holders(Without(m, name, {key}), b)
    ensures Holders(m, b) == Holders(Without(m, name, {key}), b) + if b in m[name][key].refs then {(name, key)} else {}
  {
  }

  lemma InsertCounts(counts: map<string, nat>, m: Manifests, name: string, key: string, entry: Entry)
    requires Exact(counts, m) && key !in Row(m, name)
    ensures Exact(Incremented(counts, entry.refs), Inserted(m, name, key, entry))
  {
    forall b ensures Count(Incremented(counts, entry.refs), b) == |Holders(Inserted(m, name, key, entry), b)| {
      HoldersAfterInsert(m, name, key, entry, b);
    }
  }

  /** Taking a manifest out of its row leaves its references to be uncounted. */
  lemma RemovalIsPending(counts: map<string, nat>, m: Manifests, name: string, key: string, pending: map<string, Entry>)
    requires ExactWith(counts, m, pending) && name in m && key in m[name] && key !in pending
    ensures ExactWith(counts, Without(m, name, {key}), pending[key := m[name][key]])
  {
    var after, waiting := Without(m, name, {key}), pending[key := m[name][key]];
    forall b ensures Count(counts, b) == |Holders(after, b)| + |Uncounted(waiting, b)| {
      HoldersAfterRemoval(m, name, key, b);
      UncountedAfterAdding(pending, key, m[name][key], b);
    }
  }

  lemma UncountedAfterAdding(pending: map<string, Entry>, key: string, entry: Entry, b: string)
    requires key !in pending
    ensures Uncounted(pending[key := entry], b) == Uncounted(pending, b) + if b in entry.refs then {key} else {}
  {
  }

  lemma DecrementUncounts(counts: map<string, nat>, m: Manifests, pending: map<string, Entry>, key: string)
    requires ExactWith(counts, m, pending) && key in pending
    ensures ExactWith(Decremented(counts, pending[key].refs), m, pending - {key})
  {
    var refs := pending[key].refs;
    forall b ensures Count(Decremented(counts, refs), b) == |Holders(m, b)| + |Uncounted(pending - {key}, b)| {
      UncountedAfterAdding(pending - {key}, key, pending[key], b);
      assert (pending - {key})[key := pending[key]] == pending;
    }
  }

  /** `decrement_blob_refs` of every removed entry, in any order. */
  method DecrementAll(counts: map<string, nat>, pending: map<string, Entry>, ghost m: Manifests)
    returns (after: map<string, nat>)
    requires ExactWith(counts, m, pending)
    ensures Exact(after, m)
  {
    after := counts;
    var todo := pending;
    while todo != map[]
      invariant ExactWith(after, m, todo)
      decreases todo.Keys
    {
      var key :| key in todo;
      DecrementUncounts(after, m, todo, key);
      after := DecrementBlobRefs(after, todo[key].refs);
      todo := todo - {key};
    }
    NothingPending(after, m);
  }

  /** Dropping a whole repository leaves all its manifests to be uncounted. */
  lemma RowIsPending(counts: map<string, nat>, m: Manifests, name: string)
    requires Exact(counts, m) && name in m
    ensures ExactWith(counts, m - {name}, m[name])
  {
    forall b ensures Count(counts, b) == |Holders(m - {name}, b)| + |Uncounted(m[name], b)| {
      HoldersOfRow(m, name, b);
    }
  }

  lemma HoldersOfRow(m: Manifests, name: string, b: string)
    requires name in m
    ensures |Holders(m, b)| == |Holders(m - {name}, b)| + |Uncounted(m[name], b)|
  {
    var after, keys := m - {name}, Uncounted(m[name], b);
    var pairs := set key | key in keys :: (name, key);
    StoredMeaning(m);
    StoredMeaning(after);
    forall p ensures p in Holders(m, b) <==> p in Holders(after, b) || p in pairs {
      if p.0 == name {
        assert p == (name, p.1) && !IsStored(after, p);
      } else {
        assert IsStored(after, p) <==> IsStored(m, p);
      }
    }
    assert Holders(m, b) == Holders(after, b) + pairs;
    assert Holders(after, b) !! pairs by {
      forall p | p in pairs ensures p !in Holders(after, b) { assert !IsStored(after, p); }
    }
    SameSize(name, keys);
  }

  lemma {:induction false} SameSize(name: string, keys: set<string>)
    ensures |set key | key in keys :: (name, key)| == |keys|
  {
    if keys != {} {
      var k :| k in keys;
      SameSize(name, keys - {k});
      assert (set key | key in keys :: (name, key)) == (set key | key in keys - {k} :: (name, key)) + {(name, k)};
    }
  }

  /** Storing a row: the references of the row it replaces are uncounted, then those of the new row are counted. */
  method ReplaceRow(counts: map<string, nat>, m: Manifests, name: string, key: string, entry: Entry)
    returns (after: map<string, nat>)
    requires Exact(counts, m)
    ensures Exact(after, Inserted(m, name, key, entry))
  {
    after := counts;
    if key in Row(m, name) {
      var previous := m[name][key];
      ghost var without := Without(m, name, {key});
      NothingPending(counts, m);
      RemovalIsPending(counts, m, name, key, map[]);
      after := DecrementAll(counts, map[key := previous], without);
      InsertCounts(after, without, name, key, entry);
      assert without[name][key := entry] == m[name][key := entry];
      assert Inserted(without, name, key, entry) == Inserted(m, name, key, entry);
    } else {
      InsertCounts(counts, m, name, key, entry);
    }
    after := IncrementBlobRefs(after, entry.refs);
  }

  /** Takes several rows out of one repository, one by one, and then uncounts all of them. */
  method RemoveRows(counts: map<string, nat>, m: Manifests, name: string, keys: set<string>)
    returns (after: map<string, nat>, left: Manifests)
    requires Exact(counts, m)
    ensures left == Without(m, name, keys) && Exact(after, left)
  {
    var removed: map<string, Entry>, todo := map[], keys;
    left := m;
    NothingPending(counts, m);
    if name in m {
      assert m[name] - (keys - keys) == m[name];
    }
    while todo != {}
      invariant todo <= keys && ExactWith(counts, left, removed)
      invariant left == Without(m, name, keys - todo) && removed.Keys !! todo
    {
      var key :| key in todo;
      if key in Row(left, name) {
        RemovalIsPending(counts, left, name, key, removed);
        removed := removed[key := left[name][key]];
        left := left[name := left[name] - {key}];
      }
      todo := todo - {key};
      if name in m {
        assert left[name] == m[name] - (keys - todo);
      }
    }
    assert keys - {} == keys;
    after := DecrementAll(counts, removed, left);
  }

  // ---- Rebuilding after a restore ----

  lemma EmptyRowHoldsNothing(m: Manifests, name: string)
    requires name !in m
    ensures forall b :: Holders(m[name := map[]], b) == Holders(m, b)
  {
  }

  /** The inner loop of the rebuild: counts every manifest of one repository. */
  method CountRow(counts: map<string, nat>, ghost done: Manifests, ghost name: string, row: map<string, Entry>)
    returns (after: map<string, nat>)
    requires Exact(counts, done) && name !in done
    ensures Exact(after, done[name := row])
  {
    after := counts;
    var keys := row.Keys;
    ghost var part: map<string, Entry> := map[];
    assert Exact(after, done[name := part]) by { EmptyRowHoldsNothing(done, name); }
    while keys != {}
      invariant keys <= row.Keys && part.Keys == row.Keys - keys
      invariant forall k :: k in part ==> part[k] == row[k]
      invariant Exact(after, done[name := part])
    {
      var key :| key in keys;
      after := CountOne(after, done, name, part, key, row[key]);
      part := part[key := row[key]];
      keys := keys - {key};
    }
    assert part == row;
  }

  method CountOne(counts: map<string, nat>, ghost done: Manifests, ghost name: string, ghost part: map<string, Entry>,
                  ghost key: string, entry: Entry)
    returns (after: map<string, nat>)
    requires Exact(counts, done[name := part]) && key !in part
    ensures Exact(after, done[name := part[key := entry]])
  {
    InsertCounts(counts, done[name := part], name, key, entry);
    assert Inserted(done[name := part], name, key, entry) == done[name := part[key := entry]];
    after := IncrementBlobRefs(counts, entry.refs);
  }

  /** `rebuild_blob_ref_counts`: counting from scratch gives the same exact counters. */
  method RebuildBlobRefCounts(m: Manifests) returns (counts: map<string, nat>)
    ensures Exact(counts, m)
  {
    counts := map[];
    ghost var done: Manifests := map[];
    var names := m.Keys;
    while names != {}
      invariant names <= m.Keys && Exact(counts, done)
      invariant done == map n | n in m && n !in names :: m[n]
    {
      var name :| name in names;
      counts := CountRow(counts, done, name, m[name]);
      done := done[name := m[name]];
      names := names - {name};
    }
    assert done == m;
  }
}
