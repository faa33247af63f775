/**
 The replicated metadata (raft/state_machine.rs): manifests, tags, blob reference counts and the
 namespaces that own repository names. Every request keeps four invariants: counters are exact, no
 tag dangles, content exists only in the ownership epoch it was written in, and grants never outlive
 their namespace.
 */
module StateMachine {
  import opened Common
  import opened Text
  import opened Digests
  import opened RefCounts
  import opened Grants
  import Principal
  import M = Manifest

  /** One period of ownership of a handle; the generation tells apart successive owners. */
  datatype Epoch = Epoch(handle: string, generation: nat)

  /** The part of a repository name before the first '/'; the rest must not be empty. */
  function HandleOf(repository: string): Option<string> {
    match SplitOnce(repository, '/')
    case Some((handle, rest)) => if rest != "" then Some(handle) else None
    case None => None
  }

  predicate IsReserved(handle: string) {
    handle == "users"
  }

  predicate IsHandleChar(c: char) {
    'a' <= c <= 'z' || '0' <= c <= '9' || c == '-'
  }

  predicate ValidHandle(s: string) {
    && 3 <= |s| <= 39
    && (forall c :: c in s ==> IsHandleChar(c))
    && s[0] != '-' && s[|s| - 1] != '-'
    && forall i :: 0 < i < |s| ==> !(s[i - 1] == '-' && s[i] == '-')
  }

  /** Not empty, and lower-case letters and digits alone. */
  ghost predicate IsWord(part: string) {
    part != "" && forall i :: 0 <= i < |part| ==> 'a' <= part[i] <= 'z' || '0' <= part[i] <= '9'
  }

  /** Handle characters with no hyphen at either end and no two in a row. */
  ghost predicate Hyphenated(s: string) {
    && s != "" && s[0] != '-' && s[|s| - 1] != '-' && (forall i :: 0 <= i < |s| ==> IsHandleChar(s[i]))
    && forall i :: 0 < i < |s| ==> !(s[i - 1] == '-' && s[i] == '-')
  }

  lemma HyphenatedJoin(a: string, b: string)
    requires '-' !in a
    ensures Hyphenated(a + ['-'] + b) ==> IsWord(a) && Hyphenated(b)
  {
    var s, n := a + ['-'] + b, |a|;
    if Hyphenated(s) {
      assert s[n] == '-';
      forall i | 0 <= i < n ensures 'a' <= a[i] <= 'z' || '0' <= a[i] <= '9' {
        assert s[i] == a[i] && a[i] in a;
      }
      assert b != "" by { assert s[|s| - 1] != '-'; }
      forall i | 0 <= i < |b| ensures IsHandleChar(b[i]) && (i > 0 ==> !(b[i - 1] == '-' && b[i] == '-')) {
        assert s[n + 1 + i] == b[i] && (i > 0 ==> s[n + 1 + i - 1] == b[i - 1]);
      }
      assert s[n + 1] == b[0] && s[n + 1 - 1] == '-' && s[|s| - 1] == b[|b| - 1];
    }
  }

  lemma JoinHyphenated(a: string, b: string)
    requires IsWord(a) && Hyphenated(b)
    ensures Hyphenated(a + ['-'] + b)
  {
    var s, n := a + ['-'] + b, |a|;
    forall i | 0 <= i < |s| ensures IsHandleChar(s[i]) && (i > 0 ==> !(s[i - 1] == '-' && s[i] == '-')) {
      if i < n {
        assert s[i] == a[i];
      } else if i > n + 1 {
        assert s[i] == b[i - n - 1] && s[i - 1] == b[i - n - 2];
      } else if i == n + 1 {
        assert s[i] == b[0];
      } else {
        assert s[n - 1] == a[n - 1];
      }
    }
    assert s[0] == a[0] && s[|s| - 1] == b[|b| - 1];
  }

  lemma {:induction false} HyphenatedParts(s: string)
    ensures Hyphenated(s) <==> forall part :: part in Split(s, '-') ==> IsWord(part)
    decreases |s|
  {
    SplitParts(s, '-');
    var parts := Split(s, '-');
    if |parts| == 1 {
      assert forall i :: 0 <= i < |s| ==> s[i] in s;
      assert parts[0] in parts;
    } else {
      var rest := s[|parts[0]| + 1..];
      HyphenatedParts(rest);
      HyphenatedJoin(parts[0], rest);
      if IsWord(parts[0]) && Hyphenated(rest) {
        JoinHyphenated(parts[0], rest);
      }
      assert parts == [parts[0]] + parts[1..];
    }
  }

  /** A valid handle is 3 to 39 characters long and consists of words joined by single hyphens. */
  lemma ValidHandleIff(s: string)
    ensures ValidHandle(s) <==> 3 <= |s| <= 39 && forall part :: part in Split(s, '-') ==> IsWord(part)
  {
    HyphenatedParts(s);
    assert forall i :: 0 <= i < |s| ==> s[i] in s;
  }

  /** The tags of each repository and the digests they name. */
  type TagTable = map<string, map<string, string>>

  /** Distinct valid digests among the declared references, or those found in the body when none is declared. */
  function EntryRefs(declared: seq<string>, body: Option<M.Json>): set<string> {
    var valid := set s | s in declared && FromStrChecked(s).Some?;
    if valid == {} then M.BlobTexts(body) else valid
  }

  /** The blob is among the declared references, or the document names it and no digest is declared. */
  ghost predicate References(declared: seq<string>, body: Option<M.Json>, b: string) {
    || (b in declared && IsDigest(b))
    || ((forall s :: s in declared ==> !IsDigest(s)) && M.NamesBlob(body, b))
  }

  lemma EntryRefsIff(declared: seq<string>, body: Option<M.Json>)
    ensures forall b :: b in EntryRefs(declared, body) <==> References(declared, body, b)
  {
    forall s ensures FromStrChecked(s).Some? <==> IsDigest(s) { AcceptedIff(s); }
    forall b ensures b in M.BlobTexts(body) <==> M.NamesBlob(body, b) { M.BlobTextsIff(body, b); }
    var valid := set s | s in declared && FromStrChecked(s).Some?;
    assert forall s :: s in valid <==> s in declared && IsDigest(s);
    assert EntryRefs(declared, body) == if valid == {} then M.BlobTexts(body) else valid;
    if valid != {} {
      var s :| s in valid;
    }
  }

  // ---- Invariants ----

  ghost predicate TagsResolve(m: Manifests, tags: TagTable) {
    forall name, t :: name in tags && t in tags[name] ==> IsStored(m, (name, tags[name][t]))
  }

  /** Content named `name` lies under a reserved handle or under a live one, and was written in its current epoch. */
  ghost predicate InCurrentEpoch(name: string, namespaces: map<string, Namespace>, born: map<string, nat>) {
    && HandleOf(name).Some?
    && (IsReserved(HandleOf(name).value) ||
        (&& HandleOf(name).value in namespaces && name in born
         && born[name] == namespaces[HandleOf(name).value].generation))
  }

  ghost predicate AllCurrent(content: set<string>, namespaces: map<string, Namespace>, born: map<string, nat>) {
    forall name :: name in content ==> InCurrentEpoch(name, namespaces, born)
  }

  /** The epoch record after a write to `name` that was authorized in the expected epoch. */
  ghost function BornAfter(born: map<string, nat>, name: string, expected: Option<Epoch>): map<string, nat> {
    born[name := if expected.Some? then expected.value.generation else 0]
  }

  lemma WriteStaysCurrent(content: set<string>, after: set<string>, name: string, namespaces: map<string, Namespace>,
                          born: map<string, nat>, expected: Option<Epoch>)
    requires AllCurrent(content, namespaces, born) && after <= content + {name}
    requires ExpectedNamespace(namespaces, name, expected)
    ensures AllCurrent(after, namespaces, BornAfter(born, name, expected))
  {
  }

  lemma TaggedResolves(m: Manifests, tags: TagTable, name: string, tag: string, digest: string)
    requires TagsResolve(m, tags) && IsStored(m, (name, digest))
    ensures TagsResolve(m, Tagged(tags, name, tag, digest))
  {
  }

  lemma InsertKeepsTags(m: Manifests, tags: TagTable, name: string, key: string, entry: Entry)
    requires TagsResolve(m, tags)
    ensures TagsResolve(Inserted(m, name, key, entry), tags)
  {
  }

  lemma RemovalKeepsTags(m: Manifests, tags: TagTable, name: string, digests: set<string>)
    requires TagsResolve(m, tags)
    ensures TagsResolve(Without(m, name, digests), Untagged(tags, name, digests))
  {
  }

  lemma DropKeepsTags(m: Manifests, tags: TagTable, name: string)
    requires TagsResolve(m, tags)
    ensures TagsResolve(m - {name}, tags - {name})
  {
  }

  /** The content maps and the counters derived from them. */
  datatype Catalog = Catalog(manifests: Manifests, tags: TagTable, refCounts: map<string, nat>) {
    ghost predicate Ok() {
      Exact(refCounts, manifests) && TagsResolve(manifests, tags)
    }

    ghost function Names(): set<string> {
      manifests.Keys + tags.Keys
    }
  }

  method PutEntry(c: Catalog, name: string, key: string, entry: Entry, reference: string) returns (after: Catalog)
    requires c.Ok()
    ensures after.Ok() && after.manifests == Inserted(c.manifests, name, key, entry)
    ensures after.tags == TagsAfterPut(c.tags, name, reference, key)
  {
    var counts := ReplaceRow(c.refCounts, c.manifests, name, key, entry);
    var manifests := Inserted(c.manifests, name, key, entry);
    InsertKeepsTags(c.manifests, c.tags, name, key, entry);
    var tags := c.tags;
    if ':' !in reference {
      TaggedResolves(manifests, tags, name, reference, key);
      tags := Tagged(tags, name, reference, key);
    }
    after := Catalog(manifests, tags, counts);
  }

  method RemoveManifests(c: Catalog, name: string, digests: set<string>) returns (after: Catalog)
    requires c.Ok()
    ensures after.Ok() && after.manifests == Without(c.manifests, name, digests)
    ensures after.tags == Untagged(c.tags, name, digests)
    ensures after.Names() == c.Names()
  {
    RemovalKeepsTags(c.manifests, c.tags, name, digests);
    var counts, manifests := RemoveRows(c.refCounts, c.manifests, name, digests);
    after := Catalog(manifests, Untagged(c.tags, name, digests), counts);
  }

  method DropRepository(c: Catalog, name: string) returns (after: Catalog)
    requires c.Ok()
    ensures after.Ok() && after.manifests == c.manifests - {name} && after.tags == c.tags - {name}
  {
    DropKeepsTags(c.manifests, c.tags, name);
    var counts := c.refCounts;
    if name in c.manifests {
      RowIsPending(counts, c.manifests, name);
      counts := DecrementAll(counts, c.manifests[name], c.manifests - {name});
    } else {
      assert c.manifests - {name} == c.manifests;
    }
    after := Catalog(c.manifests - {name}, c.tags - {name}, counts);
  }

  /** The blobs of a stored manifest are counted. */
  lemma RowIsCounted(c: Catalog, name: string, key: string)
    requires c.Ok() && IsStored(c.manifests, (name, key))
    ensures forall b :: b in c.manifests[name][key].refs ==> Count(c.refCounts, b) > 0
  {
    forall b | b in c.manifests[name][key].refs ensures Count(c.refCounts, b) > 0 {
      PositiveIffReferenced(c.refCounts, c.manifests, b);
      assert IsStored(c.manifests, (name, key)) && b in c.manifests[(name, key).0][(name, key).1].refs;
    }
  }

  function FilledRow(row: map<string, Entry>, name: string, bodies: (string, string) -> Option<M.Json>)
    : map<string, Entry>
  {
    map key | key in row :: if row[key].refs == {} then row[key].(refs := M.BlobTexts(bodies(name, key))) else row[key]
  }

  /** Entries without references get those found in their bodies. */
  function FilledIn(m: Manifests, bodies: (string, string) -> Option<M.Json>): Manifests {
    map name | name in m :: FilledRow(m[name], name, bodies)
  }

  method FillIn(m: Manifests, bodies: (string, string) -> Option<M.Json>) returns (filled: Manifests)
    ensures filled == FilledIn(m, bodies)
  {
    filled := m;
    var names := m.Keys;
    while names != {}
      invariant names <= m.Keys && filled.Keys == m.Keys
      invariant forall n :: n in m ==> filled[n] == if n in names then m[n] else FilledRow(m[n], n, bodies)
    {
      var name :| name in names;
      filled := filled[name := FilledRow(filled[name], name, bodies)];
      names := names - {name};
    }
  }

  /** The blobs that the body of a manifest without references names are counted. */
  ghost predicate BodiesAreCounted(m: Manifests, bodies: (string, string) -> Option<M.Json>, counts: map<string, nat>) {
    forall n, k, b :: n in m && k in m[n] && m[n][k].refs == {} && M.NamesBlob(bodies(n, k), b) ==> Count(counts, b) > 0
  }

  lemma FilledIsCounted(m: Manifests, bodies: (string, string) -> Option<M.Json>, c: Catalog)
    requires c.Ok() && c.manifests == FilledIn(m, bodies)
    ensures BodiesAreCounted(m, bodies, c.refCounts)
  {
    forall n, k, b | n in m && k in m[n] && m[n][k].refs == {} && M.NamesBlob(bodies(n, k), b)
      ensures Count(c.refCounts, b) > 0 {
      M.BlobTextsIff(bodies(n, k), b);
      assert c.manifests[n] == FilledRow(m[n], n, bodies);
      RowIsCounted(c, n, k);
    }
  }

  lemma FillingKeepsTags(m: Manifests, tags: TagTable, bodies: (string, string) -> Option<M.Json>)
    requires TagsResolve(m, tags)
    ensures TagsResolve(FilledIn(m, bodies), tags)
  {
    forall n, t | n in tags && t in tags[n] ensures IsStored(FilledIn(m, bodies), (n, tags[n][t])) {
      assert IsStored(m, (n, tags[n][t]));
    }
  }

  /** With the tags resolving, a tag always leads to a stored manifest. */
  lemma TagLookupSucceeds(c: Catalog, name: string, tag: string)
    requires c.Ok() && name in c.tags && tag in c.tags[name] && !IsDigestText(tag)
    ensures GetManifest(c, name, tag) == Some(c.manifests[name][c.tags[name][tag]])
  {
  }

  function TagsOf(c: Catalog, name: string): map<string, string> {
    if name in c.tags then c.tags[name] else map[]
  }

  function GetManifest(c: Catalog, name: string, reference: string): Option<Entry> {
    if name in c.manifests then Lookup(c.manifests[name], TagsOf(c, name), reference) else None
  }

  /**
   Every live handle is well-formed, not reserved and not also released; only live handles carry grants, all
   well-formed.
   */
  ghost predicate NamespacesOk(namespaces: map<string, Namespace>, released: map<string, nat>, grants: GrantTable) {
    && (forall h :: h in namespaces ==>
          ValidHandle(h) && !IsReserved(h) && h !in released && namespaces[h].generation > 0)
    && grants.Keys <= namespaces.Keys
    && (forall h, id :: h in grants && id in grants[h] ==> grants[h][id].WellFormed())
  }

  lemma ClaimStaysCurrent(content: set<string>, namespaces: map<string, Namespace>, born: map<string, nat>,
                          handle: string, ns: Namespace)
    requires AllCurrent(content, namespaces, born) && handle !in namespaces
    ensures AllCurrent(content, namespaces[handle := ns], born)
  {
  }

  /** The latest generation a handle has had, 0 when it was never claimed. */
  ghost function GenerationIn(namespaces: map<string, Namespace>, released: map<string, nat>, handle: string): nat {
    if handle in namespaces then namespaces[handle].generation
    else if handle in released then released[handle]
    else 0
  }

  /** A well-formed, free handle; one that was released before only by override, and while generations last. */
  predicate CanClaim(namespaces: map<string, Namespace>, released: map<string, nat>, handle: string,
                     adminOverride: bool) {
    && ValidHandle(handle) && !IsReserved(handle) && handle !in namespaces
    && (handle in released ==> adminOverride && released[handle] < U64_MAX)
  }

  /** A claim, on the tables of namespaces and tombstones alone. */
  method ClaimHandle(namespaces: map<string, Namespace>, released: map<string, nat>, ghost grants: GrantTable,
                     handle: string, owner: Owner, adminOverride: bool)
    returns (ok: bool, live: map<string, Namespace>, tombs: map<string, nat>)
    requires NamespacesOk(namespaces, released, grants)
    ensures NamespacesOk(live, tombs, grants)
    ensures ok == CanClaim(namespaces, released, handle, adminOverride)
    ensures live == if ok then namespaces[handle := Namespace(GenerationIn(namespaces, released, handle) + 1, owner)]
                    else namespaces
    ensures forall h :: GenerationIn(live, tombs, h) ==
                        GenerationIn(namespaces, released, h) + if ok && h == handle then 1 else 0
  {
    live, tombs := namespaces, released;
    if !ValidHandle(handle) || IsReserved(handle) || handle in namespaces {
      return false, live, tombs;
    }
    if handle in released && (!adminOverride || released[handle] >= U64_MAX) {
      return false, live, tombs;
    }
    var generation := if handle in released then released[handle] + 1 else 1;
    tombs := released - {handle};
    live := namespaces[handle := Namespace(generation, owner)];
    ok := true;
  }

  /** Releasing a handle that owns nothing leaves all content in its epoch; none of it is under the handle. */
  lemma ReleaseStaysCurrent(content: set<string>, namespaces: map<string, Namespace>, born: map<string, nat>,
                            handle: string)
    requires AllCurrent(content, namespaces, born) && forall n :: n in content ==> !(handle + ['/'] <= n)
    ensures AllCurrent(content, namespaces - {handle}, born)
    ensures forall n :: n in content ==> HandleOf(n) != Some(handle)
  {
  }

  /** Every namespace-owned mutation carries the epoch it was authorized against. */
  predicate ExpectedNamespace(namespaces: map<string, Namespace>, repository: string, expected: Option<Epoch>) {
    match HandleOf(repository)
    case None => false
    case Some(handle) =>
      || IsReserved(handle)
      || (&& expected.Some? && expected.value.handle == handle
          && handle in namespaces && namespaces[handle].generation == expected.value.generation)
  }

  /** `handle/rest`, where the rest may hold further slashes. */
  ghost predicate IsUnder(repository: string, handle: string, rest: string) {
    repository == handle + ['/'] + rest && '/' !in handle && rest != ""
  }

  lemma HandleIff(repository: string, handle: string)
    ensures HandleOf(repository) == Some(handle) <==> exists rest :: IsUnder(repository, handle, rest)
  {
    SplitOnceParts(repository, '/');
    if HandleOf(repository) == Some(handle) {
      assert IsUnder(repository, handle, SplitOnce(repository, '/').value.1);
    }
    if rest :| IsUnder(repository, handle, rest) {
      SplitOnceJoined(handle, '/', rest);
    }
  }

  /** A write passes under a personal name, or in the very generation the handle is in now. */
  lemma ExpectedIff(namespaces: map<string, Namespace>, repository: string, expected: Option<Epoch>)
    ensures ExpectedNamespace(namespaces, repository, expected) <==>
            exists handle, rest :: && IsUnder(repository, handle, rest)
                                   && (handle == "users" ||
                                       (handle in namespaces &&
                                        expected == Some(Epoch(handle, namespaces[handle].generation))))
  {
    if HandleOf(repository).Some? {
      HandleIff(repository, HandleOf(repository).value);
    }
    forall handle, rest | IsUnder(repository, handle, rest) ensures HandleOf(repository) == Some(handle) {
      HandleIff(repository, handle);
    }
    if ExpectedNamespace(namespaces, repository, expected) {
      var handle := HandleOf(repository).value;
      var rest :| IsUnder(repository, handle, rest);
      assert handle == "users" || expected.value == Epoch(handle, namespaces[handle].generation);
    }
  }

  // ---- The tables, row by row ----

  function RowOf(m: Manifests, name: string, key: string): Option<Entry> {
    if name in m && key in m[name] then Some(m[name][key]) else None
  }

  function TagOf(tags: TagTable, name: string, tag: string): Option<string> {
    if name in tags && tag in tags[name] then Some(tags[name][tag]) else None
  }

  /** Storing a manifest changes its row and, for a reference that is a tag, that tag; nothing else. */
  lemma PutChanges(m: Manifests, tags: TagTable, name: string, key: string, entry: Entry, reference: string)
    ensures forall n, k :: RowOf(Inserted(m, name, key, entry), n, k) ==
                           if n == name && k == key then Some(entry) else RowOf(m, n, k)
    ensures forall n, t :: TagOf(TagsAfterPut(tags, name, reference, key), n, t) ==
                           if n == name && t == reference && ':' !in reference then Some(key) else TagOf(tags, n, t)
  {
  }

  /** Removing manifests takes their rows and exactly the tags that name them. */
  lemma RemovalChanges(m: Manifests, tags: TagTable, name: string, digests: set<string>)
    ensures forall n, k :: RowOf(Without(m, name, digests), n, k) ==
                           if n == name && k in digests then None else RowOf(m, n, k)
    ensures forall n, t :: TagOf(Untagged(tags, name, digests), n, t) ==
                           var named := TagOf(tags, n, t);
                           if n == name && named.Some? && named.value in digests then None else named
  {
  }

  /** A manifest is found under its digest, or under a tag that names its digest. */
  lemma FoundIff(c: Catalog, name: string, reference: string, entry: Entry)
    ensures GetManifest(c, name, reference) == Some(entry) <==>
            if SHA256 <= reference || SHA512 <= reference then RowOf(c.manifests, name, reference) == Some(entry)
            else exists digest :: TagOf(c.tags, name, reference) == Some(digest) &&
                                  RowOf(c.manifests, name, digest) == Some(entry)
  {
    var named := TagOf(c.tags, name, reference);
    if !IsDigestText(reference) && GetManifest(c, name, reference) == Some(entry) {
      assert RowOf(c.manifests, name, named.value) == Some(entry);
    }
  }

  class Data {
    var catalog: Catalog
    var repositories: set<string>
    var namespaces: map<string, Namespace>
    /** Tombstones: the last generation of a released handle. */
    var released: map<string, nat>
    var grants: GrantTable
    /** The generation in whose name each repository last received content. */
    ghost var born: map<string, nat>

    ghost function Content(): set<string>
      reads this
    {
      catalog.Names() + repositories
    }

    ghost function Generation(handle: string): nat
      reads this
    {
      GenerationIn(namespaces, released, handle)
    }

    ghost predicate Valid()
      reads this
    {
      && catalog.Ok()
      && AllCurrent(Content(), namespaces, born)
      && NamespacesOk(namespaces, released, grants)
    }

    constructor ()
      ensures Valid() && Content() == {} && namespaces == map[] && released == map[]
    {
      catalog := Catalog(map[], map[], map[]);
      repositories, namespaces, released, grants, born := {}, map[], map[], map[], map[];
      new;
      assert forall b :: Holders(map[], b) == {};
    }

    method PutManifest(name: string, expected: Option<Epoch>, reference: string, requireAbsent: bool, digest: string,
                       bodyDigest: string, declared: seq<string>, body: Option<M.Json>)
      returns (ok: bool)
      requires Valid()
      modifies this`catalog, this`born
      ensures Valid()
      ensures ok <==> && ExpectedNamespace(namespaces, name, expected)
                      && !(requireAbsent && ':' !in reference && GetManifest(old(catalog), name, reference).Some?)
      ensures ok ==> var key := if FromStrChecked(digest).Some? then digest else bodyDigest;
                     var entry := Entry(key, EntryRefs(declared, body));
                     && catalog.manifests == Inserted(old(catalog).manifests, name, key, entry)
                     && catalog.tags == TagsAfterPut(old(catalog).tags, name, reference, key)
                     && (forall b :: b in entry.refs <==> References(declared, body, b))
      ensures ok ==> forall b :: References(declared, body, b) ==> Count(catalog.refCounts, b) > 0
      ensures !ok ==> catalog == old(catalog)
    {
      ok := ExpectedNamespace(namespaces, name, expected);
      if !ok || (requireAbsent && ':' !in reference && GetManifest(catalog, name, reference).Some?) {
        return false;
      }
      var key := if FromStrChecked(digest).Some? then digest else bodyDigest;
      ghost var before := Content();
      catalog := PutEntry(catalog, name, key, Entry(key, EntryRefs(declared, body)), reference);
      WriteStaysCurrent(before, Content(), name, namespaces, born, expected);
      born := BornAfter(born, name, expected);
      EntryRefsIff(declared, body);
      RowIsCounted(catalog, name, key);
    }

    /** Also `DeleteManifest`, with one digest. */
    method DeleteManifests(name: string, expected: Option<Epoch>, digests: set<string>) returns (ok: bool)
      requires Valid()
      modifies this`catalog
      ensures Valid() && ok == ExpectedNamespace(namespaces, name, expected)
      ensures ok ==> && catalog.manifests == Without(old(catalog).manifests, name, digests)
                     && catalog.tags == Untagged(old(catalog).tags, name, digests)
      ensures !ok ==> catalog == old(catalog)
    {
      ok := ExpectedNamespace(namespaces, name, expected);
      if ok {
        catalog := RemoveManifests(catalog, name, digests);
      }
    }

    method DeleteTag(name: string, expected: Option<Epoch>, digest: string, tag: string) returns (removed: bool)
      requires Valid()
      modifies this`catalog
      ensures Valid()
      ensures removed <==> && ExpectedNamespace(namespaces, name, expected) && name in old(catalog).tags
                           && tag in old(catalog).tags[name] && old(catalog).tags[name][tag] == digest
      ensures catalog == if removed then old(catalog.(tags := catalog.tags[name := catalog.tags[name] - {tag}]))
                         else old(catalog)
    {
      removed := ExpectedNamespace(namespaces, name, expected) && name in catalog.tags && tag in catalog.tags[name] &&
                 catalog.tags[name][tag] == digest;
      if removed {
        ghost var before := Content();
        UntagKeepsTags(catalog.manifests, catalog.tags, name, tag);
        catalog := catalog.(tags := catalog.tags[name := catalog.tags[name] - {tag}]);
        assert Content() == before;
      }
    }

    method DeleteRepositoryContent(name: string, expected: Option<Epoch>) returns (ok: bool)
      requires Valid()
      modifies this`catalog
      ensures Valid() && ok == ExpectedNamespace(namespaces, name, expected)
      ensures ok ==> catalog.manifests == old(catalog).manifests - {name} && catalog.tags == old(catalog).tags - {name}
      ensures !ok ==> catalog == old(catalog)
    {
      ok := ExpectedNamespace(namespaces, name, expected);
      if ok {
        ghost var before := Content();
        catalog := DropRepository(catalog, name);
        assert Content() <= before;
      }
    }

    method PutRepository(name: string, expected: Option<Epoch>) returns (ok: bool)
      requires Valid()
      modifies this`repositories, this`born
      ensures Valid() && ok == ExpectedNamespace(namespaces, name, expected)
      ensures repositories == old(repositories) + if ok then {name} else {}
    {
      ok := ExpectedNamespace(namespaces, name, expected);
      if ok {
        ghost var before := Content();
        repositories := repositories + {name};
        WriteStaysCurrent(before, Content(), name, namespaces, born, expected);
        born := BornAfter(born, name, expected);
      }
    }

    method DeleteRepository(name: string, expected: Option<Epoch>) returns (removed: bool)
      requires Valid()
      modifies this`repositories
      ensures Valid() && (removed <==> ExpectedNamespace(namespaces, name, expected) && name in old(repositories))
      ensures repositories == if removed then old(repositories) - {name} else old(repositories)
    {
      removed := ExpectedNamespace(namespaces, name, expected) && name in repositories;
      if removed {
        repositories := repositories - {name};
      }
    }

    /** After a restore, missing references are taken from the bodies and the counters rebuilt, whatever they were. */
    method NormalizeRestored(bodies: (string, string) -> Option<M.Json>)
      requires TagsResolve(catalog.manifests, catalog.tags) && AllCurrent(Content(), namespaces, born)
      requires NamespacesOk(namespaces, released, grants)
      modifies this`catalog
      ensures Valid() && catalog.manifests == FilledIn(old(catalog).manifests, bodies)
      ensures BodiesAreCounted(old(catalog).manifests, bodies, catalog.refCounts)
      ensures catalog.tags == old(catalog).tags
    {
      var manifests := FillIn(catalog.manifests, bodies);
      var counts := RebuildBlobRefCounts(manifests);
      FillingKeepsTags(catalog.manifests, catalog.tags, bodies);
      ghost var before := Content();
      catalog := Catalog(manifests, catalog.tags, counts);
      assert Content() == before;
      FilledIsCounted(old(catalog).manifests, bodies, catalog);
    }

    // ---- Namespaces ----

    predicate HasContent(handle: string)
      reads this
    {
      exists name :: name in catalog.manifests.Keys + catalog.tags.Keys + repositories && handle + ['/'] <= name
    }

    method Claim(handle: string, owner: Owner, adminOverride: bool) returns (ok: bool)
      requires Valid()
      modifies this`namespaces, this`released
      ensures Valid()
      ensures ok <==> && ValidHandle(handle) && handle != "users" && handle !in old(namespaces)
                      && (handle in old(released) ==> adminOverride && old(released)[handle] < 0xFFFF_FFFF_FFFF_FFFF)
      ensures namespaces == if ok then old(namespaces[handle := Namespace(Generation(handle) + 1, owner)])
                            else old(namespaces)
      ensures forall h :: Generation(h) == old(Generation(h)) + if ok && h == handle then 1 else 0
    {
      var live, tombs;
      ok, live, tombs := ClaimHandle(namespaces, released, grants, handle, owner, adminOverride);
      if ok {
        ClaimStaysCurrent(Content(), namespaces, born, handle, live[handle]);
      }
      ghost var content := Content();
      namespaces, released := live, tombs;
      assert Content() == content && AllCurrent(content, live, born);
    }

    /** Release by the owner, or revocation by an administrator (`actor` None): refused while content remains. */
    method Release(handle: string, actor: Option<Principal.Bytes>) returns (ok: bool)
      requires Valid()
      modifies this`namespaces, this`released, this`grants
      ensures Valid()
      ensures ok <==> && handle in old(namespaces)
                      && (forall name :: name in old(Content()) ==> !(handle + ['/'] <= name))
                      && (actor.Some? ==> old(namespaces)[handle].owner == OwnedByUser(actor.value))
      ensures ok ==> namespaces == old(namespaces) - {handle} && handle in released && grants == old(grants) - {handle}
      ensures ok ==> forall name :: name in Content() ==> HandleOf(name) != Some(handle)
      ensures !ok ==> namespaces == old(namespaces) && grants == old(grants)
      ensures forall h :: Generation(h) == old(Generation(h))
    {
      if handle !in namespaces || HasContent(handle) {
        return false;
      }
      if actor.Some? && namespaces[handle].owner != OwnedByUser(actor.value) {
        return false;
      }
      ReleaseStaysCurrent(Content(), namespaces, born, handle);
      released := released[handle := namespaces[handle].generation];
      namespaces := namespaces - {handle};
      grants := grants - {handle};
      ok := true;
    }

    method PutGrant(handle: string, id: string, grant: Grant) returns (ok: bool)
      requires Valid()
      modifies this`grants
      ensures Valid() && (ok <==> ValidHandle(handle) && handle in namespaces && grant.WellFormed())
      ensures ok ==> match grant.grantee
                     case ToGroup(g) => g.kind.Group?
                     case ToUser(u) => u.kind.User?
                     case ToPublic => grant.action == Pull
      ensures grants == if ok then old(grants)[handle := GrantsOf(old(grants), handle)[id := grant]] else old(grants)
    {
      ok := ValidHandle(handle) && handle in namespaces && grant.WellFormed();
      if ok {
        grants := grants[handle := GrantsOf(grants, handle)[id := grant]];
      }
    }

    /** The namespace must be live; an emptied row is dropped. */
    method DeleteGrant(handle: string, id: string) returns (removed: Result<bool>)
      requires Valid()
      modifies this`grants
      ensures Valid()
      ensures removed == if ValidHandle(handle) && handle in namespaces then Ok(id in GrantsOf(old(grants), handle))
                         else Err
      ensures forall h :: GrantsOf(grants, h) == GrantsOf(old(grants), h) - (if h == handle then {id} else {})
    {
      if !ValidHandle(handle) || handle !in namespaces {
        return Err;
      }
      removed := Ok(id in GrantsOf(grants, handle));
      if handle in grants {
        var left := grants[handle] - {id};
        grants := if left == map[] then grants - {handle} else grants[handle := left];
      }
    }
  }

  lemma UntagKeepsTags(m: Manifests, tags: TagTable, name: string, tag: string)
    requires TagsResolve(m, tags) && name in tags
    ensures TagsResolve(m, tags[name := tags[name] - {tag}])
  {
  }

  /** A reference without ':' is a tag. */
  function TagsAfterPut(tags: TagTable, name: string, reference: string, digest: string): TagTable {
    if ':' in reference then tags else Tagged(tags, name, reference, digest)
  }

  function Tagged(tags: TagTable, name: string, tag: string, digest: string): TagTable {
    tags[name := (if name in tags then tags[name] else map[])[tag := digest]]
  }

  /** `retain` of the tags that do not name a removed digest. */
  function Untagged(tags: TagTable, name: string, digests: set<string>): TagTable {
    if name in tags then tags[name := map t | t in tags[name] && tags[name][t] !in digests :: tags[name][t]] else tags
  }
}
