# Layerhouse in Dafny

Layerhouse is a container registry that mirrors other registries, keeps its metadata in a Raft state
machine and its blobs in object storage. This project models the parts of it where correctness is
least obvious, and proves what they promise over all inputs, all runs and all interleavings.

| file | part of the program |
|---|---|
| `Traversal.dfy`, `MirrorWalk.dfy`, `MirrorTexts.dfy`, `MirrorPush.dfy` | the mirror engine's manifest walk: an explicit-stack loop proved to be a recursive post-order, closed under references at every intermediate state |
| `Glob.dfy`, `Routing.dfy` | tag patterns and longest-prefix routing |
| `SingleFlight.dfy`, `TagValidation.dfy` | deduplication of upstream work and the 24-hour tag cache, as state machines over all runs |
| `LogStore.dfy` | the Raft log store: a keyed table that refines an offset sequence, with crashes |
| `RefCounts.dfy`, `StateMachine.dfy`, `Gc.dfy` | exact blob counters, ownership epochs and the two-snapshot garbage collector that relies on them |
| `Transfer.dfy` | resumable blob transfer in chunks |
| `Scheduler.dfy` | reconciliation of sync jobs with the configuration |
| `Principal.dfy`, `Grants.dfy`, `Authorization.dfy` | qualified ids, the action ladder and the compilation of ownership and grants into Cedar policies |
| `Manifest.dfy`, `Digests.dfy` | manifest documents, stored sizes and digest codecs |
| `Challenge.dfy`, `ChallengeQuotes.dfy` | the WWW-Authenticate challenge, rendered and parsed, without and with quotes in its values |
| `Common.dfy`, `Text.dfy` | result types and the string operations of the Rust library |

Outside calls (registries, object storage, the metadata store, clocks) appear as a `World` value that
says which call fails and what it answers, as parameters, or as events of a run; every statement is for
all of them. SHA-256 is an unknown function; the walk assumes that the body served for a digest hashes to
it, since the code does not check that. `dafny verify dfyconfig.toml` checks everything.

Where the code does something other than one might expect, the model follows the code:

- The walk is child-first exactly on acyclic graphs (`Traversal.DfsIsChildFirstIffAcyclic`).
- A waiter of the single-flight protocol that starts to listen after its leader has notified is never woken
  (`SingleFlight.ListenerWakesIff`, `SingleFlight.WakeUpCanBeLost`).
- The 24 hours of a tag validation count from the record, not from the HEAD it rests on: answers 24 hours
  after the HEAD are possible exactly when the record was stamped later (`TagValidation.StaleAnswerIff`).
- A child named by a sha512 digest is stored under its SHA-256 digest alone and is not found under the name
  its parent uses, and a child text without ':' moves the local tag of that name
  (`MirrorTexts.ChildIsFoundIff`, `MirrorTexts.OtherTagMovesIff`, `MirrorTexts.WalkByTexts`).
- A tag validation may be recorded for a digest the tag has ceased to name, when the tag moves between a
  request's look and its HEAD (`TagValidation.NamedUnlessMoved`, `TagValidation.LookMayBeOlder`); it serves
  nobody, since the digests differ.
- A manifest stored after the collector's second snapshot can lose its blob (`Gc.DeletedIff`,
  `Gc.LateManifestLosesBlob`).
- Values of a challenge are not escaped: what follows a double quote is read as parameters, and the
  challenge survives exactly when those restore realm and service (`ChallengeQuotes.RecoveredIff`).
- A deduplication key stands for one operation exactly when no name in it holds a ':'
  (`SingleFlight.KeyIsUniqueIff`).
- The conversion of log range bounds wraps at u64::MAX (`LogStore.ConversionIsExactIff`), and stored sizes
  are summed modulo 2^64 (`Manifest.StoredSizeFromDescriptors`).
- A batch whose answer reports more errors than it had keys breaks `deleted + errors = candidates`
  (`Gc.RunGcSweep`).
- A rule's prefix with and without a trailing '/' are served from the same upstream repository
  (`Routing.UpstreamNamesCollideIff`).
- The comment at `crates/layerhouse-ctl/src/mirror.rs:210` promises a retry of each chunk; a failing PATCH
  ends the transfer, and only the source stream is retried (`Transfer.FailureIsLast`).
- The grammar in the comment at `crates/layerhouse-server/src/store/metadata/handle.rs:34` has single
  characters between dashes; the code accepts words of any length (`StateMachine.ValidHandleIff`).
- Ownership is decided at the actor's own provider: the namespace stores a bare subject
  (`Authorization.OwnerMeaning`).

## Model

| member | source | states |
|---|---|---|
| `Traversal.DfsPutsExactlyTheReachable` | `crates/layerhouse-server/src/mirror/mod.rs:1095-1184` | On every finite manifest graph, cyclic or not, a walk puts exactly the manifests reachable from the root, each once |
| `Traversal.DfsPutsExactlyTheNewNodes` | `crates/layerhouse-server/src/mirror/mod.rs:1095-1184` | A walk that starts with some nodes marked puts exactly those it newly marks, and marks the children of all it puts |
| `Traversal.DfsIsChildFirstIffAcyclic` | `crates/layerhouse-server/src/mirror/mod.rs:1095-1184` | Children are put before parents if and only if the part of the graph reachable from the root has no cycle |
| `Traversal.PendingOfPushed` | `crates/layerhouse-server/src/mirror/mod.rs:1130-1152` | Children pushed in reverse run as one recursive traversal of the list, after which the frames below resume |
| `Traversal.PendingOfEntered` | `crates/layerhouse-server/src/mirror/mod.rs:1119-1152` | Marking a node and pushing its Store frame under its children leaves the same puts to make as the Process frame did |
| `Traversal.RemainingAfterPop` | `crates/layerhouse-server/src/mirror/mod.rs:1113-1181` | Each turn of the stack loop keeps `puts so far ++ puts still pending` equal to the recursive post-order |
| `Traversal.EnteredIsPending` | `crates/layerhouse-server/src/mirror/mod.rs:1113-1181` | A node about to be entered is still to be put, so the root, which comes last, has not been put yet |
| `Traversal.TextDfsVisits` | `crates/layerhouse-server/src/mirror/mod.rs:1095-1184` | Recording the edge by which each node is entered changes neither the nodes put nor their order |
| `Traversal.PrefixIsChildFirst` | `crates/layerhouse-server/src/mirror/mod.rs:1095-1184` | A walk cut off anywhere has still put children first |
| `MirrorWalk.Repository.StoreManifestRecursive` | `crates/layerhouse-server/src/mirror/mod.rs:1086-1184` | The stack walk ends on every finite graph; whatever call fails, its manifest puts are a prefix of the recursive post-order, each under the text of the edge by which it is entered, and on success all of it; then the root is stored and, with every manifest put, each manifest its JSON document names in manifests and each blob it describes in config, layers or blobs; a leaf's blobs precede it; only the rows put change; the tags are what the puts make of them. It succeeds if and only if no call it made failed and every reachable manifest parses |
| `MirrorWalk.Repository.Walk` | `crates/layerhouse-server/src/mirror/mod.rs:1107-1183` | The loop pops frames until none is left, with the exact condition for success |
| `MirrorWalk.Repository.StoreIndex` | `crates/layerhouse-server/src/mirror/mod.rs:1166-1179` | A Store frame puts its index, whose children are all stored, under the text it was entered by |
| `MirrorWalk.Repository.Step` | `crates/layerhouse-server/src/mirror/mod.rs:1113-1181` | One turn keeps the loop invariant and lowers (unmarked manifests, stack height), or a call failed or a manifest does not parse |
| `MirrorWalk.Repository.EnterManifest` | `crates/layerhouse-server/src/mirror/mod.rs:1115-1165` | An unmarked manifest is opened or stored; a failure leaves a recorded prefix of the order |
| `MirrorWalk.Repository.FetchChild` | `crates/layerhouse-server/src/mirror/mod.rs:1137-1147` | A child found locally, by digest or tag, is taken from there with one call, any other from upstream; it fails exactly when a call does |
| `MirrorWalk.Repository.OpenIndex` | `crates/layerhouse-server/src/mirror/mod.rs:1129-1152` | Opening an index keeps the invariant with the index marked and its children on the stack |
| `MirrorWalk.Repository.PushChildren` | `crates/layerhouse-server/src/mirror/mod.rs:1136-1152` | The pushed frames are the children in document order on pop, each with the data it resolves to, locally or upstream |
| `MirrorWalk.Repository.StoreLeaf` | `crates/layerhouse-server/src/mirror/mod.rs:1153-1164` | A leaf's blobs are pulled before its manifest is put |
| `MirrorWalk.Repository.PutAfterBlobs` | `crates/layerhouse-server/src/mirror/mod.rs:1156-1179` | A put extends the recorded history by exactly its manifest, or by nothing when it failed |
| `MirrorWalk.Repository.PutManifestEntry` | `crates/layerhouse-server/src/mirror/mod.rs:1186-1221` | Writes the row under the digest and moves the tag for a reference without ':'; nothing changes when the first put fails; it fails exactly when a put does |
| `MirrorWalk.Repository.PullBlobs` | `crates/layerhouse-server/src/mirror/mod.rs:1223-1258` | On success every listed valid digest is present; the blobs added are exactly the puts made, and none of them was there unless a lookup failed; it fails exactly when a fetch or a put does, never on a failing lookup |
| `MirrorWalk.ResolvesAfterWrites` | `crates/layerhouse-server/src/mirror/mod.rs:1137-1147` | Until the root is put, rows and tags written by the walk do not change what any child text resolves to |
| `MirrorWalk.TagMovesIff` | `crates/layerhouse-server/src/raft/state_machine.rs:250-262` | A tag is written exactly when some put went by it as its reference, and names what such a put stored |
| `MirrorWalk.EveryPutFollowsItsChildren` | `crates/layerhouse-server/src/mirror/mod.rs:1086-1184` | Referential closure at every intermediate state: in a run that may fail anywhere, all children of a put manifest were put before it, on every acyclic graph |
| `MirrorWalk.SuccessStoresEverything` | `crates/layerhouse-server/src/mirror/mod.rs:1086-1258` | After success every reachable manifest is stored and every reachable sized blob present, whatever was there before (for instance after a lazy pull) |
| `MirrorWalk.SuccessIsWhole` | `crates/layerhouse-server/src/mirror/mod.rs:1086-1258` | After success everything the documents of the stored manifests name is stored, stated on the JSON |
| `MirrorWalk.ChildrenIff` | `crates/layerhouse-server/src/mirror/mod.rs:1130-1136` | The children of a manifest are exactly the texts its JSON names, for the two index media types |
| `MirrorWalk.BlobsIff` | `crates/layerhouse-server/src/mirror/mod.rs:1153-1156` | The blobs of a manifest are exactly the valid digests its JSON describes with a size, for all other media types |
| `MirrorTexts.OtherTagMovesIff` | `crates/layerhouse-server/src/mirror/mod.rs:1148-1151` | A tag other than the caller's moves if and only if the traversal enters a child by that text, which has no ':', and then it names that child |
| `MirrorTexts.ChildIsFoundIff` | `crates/layerhouse-server/src/mirror/mod.rs:1186-1211` | After success every child is stored under its SHA-256 digest; its text is found if and only if it is a sha256 text, a sha512 text that was a row before, or another text that was a tag before or by which the traversal enters a manifest |
| `MirrorTexts.PutUnderIff` | `crates/layerhouse-server/src/mirror/mod.rs:1148-1151` | Which texts are put under is decided by the graph and the caller's reference alone |
| `MirrorTexts.RootIsTagged` | `crates/layerhouse-server/src/mirror/mod.rs:1086-1184` | After success the caller's tag names the root, whatever the children did to it |
| `MirrorTexts.TextsMatter` | `crates/layerhouse-server/src/mirror/mod.rs:1086-1221` | On an empty repository a child with a sha512 text is stored and not found under it, and a text without ':' becomes a tag exactly when a child is entered by it |
| `MirrorTexts.StarIsServed` | `crates/layerhouse-server/src/mirror/mod.rs:1086-1184` | The walk accepts every index whose children are leaves, on an empty repository |
| `MirrorTexts.EnteredIffFirst` | `crates/layerhouse-server/src/mirror/mod.rs:1113-1165` | A leaf is entered by a text exactly when no earlier text of the index stands for the same manifest |
| `MirrorTexts.WalkStar` | `crates/layerhouse-server/src/mirror/mod.rs:1086-1184` | The walk run on any such graph stores all of it and nothing else, with the tags this says |
| `MirrorTexts.WalkByTexts` | `crates/layerhouse-server/src/mirror/mod.rs:1086-1184` | The walk run on an index with any list of texts stores the index and the manifest of every text, finds none under a sha512 text, and leaves a tag exactly for the texts without ':' that are the first to stand for their manifest |
| `MirrorWalk.BlobsAreDigests` | `crates/layerhouse-server/src/mirror/client.rs:907-915` | Every blob a leaf names for pulling is a valid digest |
| `MirrorPush.Remote.Push` | `crates/layerhouse-server/src/mirror/mod.rs:1296-1380` | The push succeeds if and only if no call failed and everything below parses, is stored locally and has its blobs upstream or stored locally; with every manifest uploaded, each child its JSON names has been uploaded and each blob it describes is upstream; blobs and documents upstream change by exactly the uploads made |
| `MirrorPush.Remote.PushManifestRecursive` | `crates/layerhouse-server/src/mirror/mod.rs:1296-1340` | The same for each recursive call; the manifest is the last upload |
| `MirrorPush.Remote.PushBelow` | `crates/layerhouse-server/src/mirror/mod.rs:1305-1328` | Everything a manifest names is upstream before it, or the exact cause of failure holds |
| `MirrorPush.Remote.PushChildren` | `crates/layerhouse-server/src/mirror/mod.rs:1309-1324` | Every child of an index is uploaded with the data stored locally, in an order that keeps closure; it fails exactly when a call does or a child cannot be pushed |
| `MirrorPush.Remote.PushChild` | `crates/layerhouse-server/src/mirror/mod.rs:1310-1323` | A child is looked up locally, fails when missing, and is otherwise uploaded with everything below it |
| `MirrorPush.Remote.PushBlobs` | `crates/layerhouse-server/src/mirror/mod.rs:1342-1380` | On success every valid listed blob is upstream; it fails exactly when a call does or a blob is neither upstream nor stored |
| `MirrorPush.PushableStep` | `crates/layerhouse-server/src/mirror/mod.rs:1296-1380` | What can be pushed, defined by paths, is a fixed point: the manifest is fit and its children can be pushed |
| `MirrorPush.OrderedAppend` | `crates/layerhouse-server/src/mirror/mod.rs:1296-1380` | Uploads that keep closure, done one after the other, keep closure |
| `MirrorPush.ReadyUpload` | `crates/layerhouse-server/src/mirror/mod.rs:1296-1380` | Children and blobs of every uploaded manifest are upstream |
| `MirrorPush.UploadsAreComplete` | `crates/layerhouse-server/src/mirror/mod.rs:1296-1380` | All that the document of an uploaded manifest names is upstream, stated on the JSON |
| `MirrorPush.UploadsAreClosed` | `crates/layerhouse-server/src/mirror/mod.rs:1296-1380` | Everything reachable from an uploaded manifest is uploaded, down to the blobs |
| `Glob.GlobMatches` | `crates/layerhouse-server/src/mirror/mod.rs:259-288` | The greedy search accepts a value if and only if the declarative meaning of `*` does, for every pattern and value |
| `Glob.SearchMeaning` | `crates/layerhouse-server/src/mirror/mod.rs:259-288` | Prefix test, leftmost search of the non-empty parts and suffix test together decide the meaning of the pattern |
| `Glob.PatternMeaning` | `crates/layerhouse-server/src/mirror/mod.rs:259-288` | The same for all segments of a pattern, empty ones included |
| `Glob.FloatsIffGreedy` | `crates/layerhouse-server/src/mirror/mod.rs:274-287` | Searching leftmost never misses a placement of the remaining segments |
| `Glob.StarMeaning` | `crates/layerhouse-server/src/mirror/mod.rs:259-288` | A pattern that continues after a `*` matches exactly when its segments can be placed in order |
| `Glob.GreedyIgnoresEmpty` | `crates/layerhouse-server/src/mirror/mod.rs:266` | Dropping the empty parts that runs of `*` leave changes no result |
| `Routing.MatchRule` | `crates/layerhouse-server/src/mirror/mod.rs:180-229` | The chosen rule is eligible, no eligible rule has a longer prefix, earlier ones are shorter; none is chosen exactly when none is eligible; the name returned is that rule's |
| `Routing.SegmentBoundary` | `crates/layerhouse-server/src/mirror/mod.rs:231-238` | A prefix is stripped exactly on a segment boundary |
| `Routing.OrderDoesNotMatter` | `crates/layerhouse-server/src/mirror/mod.rs:180-229` | Any permutation of the rules yields the same local prefix |
| `Routing.EligibilityIgnoresOrder` | `crates/layerhouse-server/src/mirror/mod.rs:180-229` | Any permutation of rules none of which is eligible has no eligible rule |
| `Routing.UpstreamNamesCollideIff` | `crates/layerhouse-server/src/mirror/mod.rs:160-178` | Two repositories of one rule share an upstream name exactly when equal, or when they are the prefix with and without a trailing '/' |
| `Routing.UpstreamIsInjective` | `crates/layerhouse-server/src/mirror/mod.rs:160-178` | The upstream mapping is injective on names that do not end in '/' |
| `Routing.RouteIff` | `crates/layerhouse-server/src/mirror/mod.rs:171-178` | A rule serves a repository exactly on a segment boundary, under the normalised upstream prefix, '/' and the rest of the name, one of them alone where the other is empty |
| `Routing.NormalizedIff` | `crates/layerhouse-server/src/mirror/mod.rs:160-169` | A configured prefix is normalised to a text if and only if it is that text within slashes within white space |
| `Routing.AbsentIff` | `crates/layerhouse-server/src/mirror/mod.rs:160-169` | A configured prefix counts as absent if and only if it is blanks, slashes, blanks |
| `SingleFlight.OneLeaderPerKey` | `crates/layerhouse-server/src/mirror/mod.rs:607-639` | In every interleaving a key is in the inflight map exactly while one task leads it, and never two |
| `SingleFlight.StepKeeps` | `crates/layerhouse-server/src/mirror/mod.rs:739-771` | Every critical section, and the removal and notification that end a leader's turn, keep the protocol invariant |
| `SingleFlight.WokenAfterLeader` | `crates/layerhouse-server/src/mirror/mod.rs:607-639` | A waiter returns only after the leader it found has finished and notified |
| `SingleFlight.ListenerWakesIff` | `crates/layerhouse-server/src/mirror/mod.rs:607-639` | Over whole runs: a waiter is woken if and only if it starts to listen before its object is notified and the object is notified afterwards |
| `SingleFlight.InTimeWakes` | `crates/layerhouse-server/src/mirror/mod.rs:607-639` | A caller listening before the notification of its object can always still be woken: its leader has only to finish |
| `SingleFlight.TooLateNeverWakes` | `crates/layerhouse-server/src/mirror/mod.rs:607-639` | A caller that starts to listen after the notification is not woken in any continuation |
| `SingleFlight.WakeUpCanBeLost` | `crates/layerhouse-server/src/mirror/mod.rs:607-639` | A run that ends in such a state, because the lock is released before listening starts |
| `SingleFlight.KindsNeverCollide` | `crates/layerhouse-server/src/mirror/mod.rs:600-603` | Keys of different operations or modes never collide, whatever the names |
| `SingleFlight.KeysAreFaithful` | `crates/layerhouse-server/src/mirror/mod.rs:732-737` | For repositories and caches named without ':', equal keys mean the same operation on the same repository and reference |
| `SingleFlight.KeyIsUniqueIff` | `crates/layerhouse-server/src/mirror/mod.rs:600-603` | A key stands for one operation only if and only if none of its names holds a ':' (a rule's blob key always does) |
| `SingleFlight.AmbiguousCollides` | `crates/layerhouse-server/src/mirror/mod.rs:787` | Every operation with a ':' in a name shares its key with another one |
| `TagValidation.FastPathIsValidated` | `crates/layerhouse-server/src/mirror/mod.rs:573-689` | In every run a manifest served without asking upstream has the digest its validation's own HEAD returned; the validation is under 24 hours old, and between its commit and its being read the tag did not move and no other validation was stored |
| `TagValidation.RecordsAreGrounded` | `crates/layerhouse-server/src/mirror/mod.rs:974-1071` | In every run a validation is recorded only for the digest a HEAD of the same task returned, and only if that task had read the digest under the tag, an eager pull then storing it again, or had fetched the manifest after the HEAD, written the tag and found it there |
| `TagValidation.NamedUnlessMoved` | `crates/layerhouse-server/src/mirror/mod.rs:974-1071` | Unless the task wrote the tag itself, the tag named the recorded digest at some moment between HEAD and record, provided it was not moved between the request's look and its HEAD |
| `TagValidation.LookMayBeOlder` | `crates/layerhouse-server/src/mirror/mod.rs:573-689` | A run that records a digest the tag had already ceased to name when the HEAD was asked |
| `TagValidation.PullMovesTag` | `crates/layerhouse-server/src/mirror/mod.rs:979-1052` | From every state in which upstream has moved a tag, a pull leaves the tag and its validation at the new digest and everything else as it was |
| `TagValidation.CompareKeeps` | `crates/layerhouse-server/src/mirror/mod.rs:984-1015` | Only a tag that names the digest of the HEAD passes without a fetch |
| `TagValidation.StepKeeps` | `crates/layerhouse-server/src/mirror/mod.rs:974-1071` | Every step of requests, pulls, pushes and deletions keeps the invariant on answers, records and tags |
| `TagValidation.SubmitKeeps` | `crates/layerhouse-server/src/mirror/mod.rs:1056-1071` | A stored validation carries the digest of its own HEAD, asked no later than its time stamp, even if GET returned another manifest |
| `TagValidation.DecideKeeps` | `crates/layerhouse-server/src/mirror/mod.rs:79-87` | The freshness test lets only justified answers through |
| `TagValidation.MoveKeeps` | `crates/layerhouse-server/src/raft/state_machine.rs:250-262` | Writing or removing a tag drops its validation and no other, and the history tells what every tag names |
| `TagValidation.ServableIff` | `crates/layerhouse-server/src/mirror/mod.rs:79-87` | A stored validation of the tag's own digest can be used at exactly the times from now until 24 hours after its stamp |
| `TagValidation.StaleAnswerIff` | `crates/layerhouse-server/src/mirror/mod.rs:1023-1052` | Some continuation answers 24 hours or more after the HEAD if and only if the validation is still usable and was stamped later than the HEAD |
| `TagValidation.AgeIsBounded` | `crates/layerhouse-server/src/mirror/mod.rs:79-87` | The age of the HEAD behind an answer is below 24 hours plus the time from HEAD to stamp |
| `TagValidation.HeadMayBeOlder` | `crates/layerhouse-server/src/mirror/mod.rs:1023-1052` | For every delay a run serves the tag that long after its only HEAD |
| `LogStore.RunRefines` | `crates/layerhouse-server/src/raft/log_store.rs:233-352` | Every legal run of append, truncate, purge, save-vote and seed-vote, with a crash before any commit, leaves a disk that represents the specified sequence log |
| `LogStore.StepRefines` | `crates/layerhouse-server/src/raft/log_store.rs:233-334` | One transaction refines one step of the sequence log; the rows stay one gap-free interval after the last purged entry |
| `LogStore.AppendRefines` | `crates/layerhouse-server/src/raft/log_store.rs:233-251` | Appending extends the sequence |
| `LogStore.PurgeRefines` | `crates/layerhouse-server/src/raft/log_store.rs:278-308` | Purging drops a prefix of the sequence, possibly all of it, and records the last purged entry |
| `LogStore.SeedKeepsMaximum` | `crates/layerhouse-server/src/raft/log_store.rs:328-334` | Seeding leaves one of the two votes and lowers neither: no lower term, in the same term no lower node, for the same leader no commitment lost |
| `LogStore.AtLeastIff` | `crates/layerhouse-server/src/raft/log_store.rs:328-334` | The order on votes, field by field |
| `LogStore.VoteNeverFalls` | `crates/layerhouse-server/src/raft/log_store.rs:310-334` | Over every run with any seeds and crashes the vote on disk never falls, if no lower vote is saved |
| `LogStore.IndicesAfter` | `crates/layerhouse-server/src/raft/log_store.rs:233-308` | Index by index: append adds the indices of its entries, truncate leaves those below, purge those above, and what stays is the same |
| `LogStore.ConversionIsExactIff` | `crates/layerhouse-server/src/raft/log_store.rs:399-421` | The exact bounds for which the 64-bit conversion of a range selects the same indices as the range |
| `LogStore.ReadAgrees` | `crates/layerhouse-server/src/raft/log_store.rs:205-231` | A range read is the slice of the sequence that lies in the range |
| `LogStore.LogStateAgrees` | `crates/layerhouse-server/src/raft/log_store.rs:169-203` | The reported last log id is the last entry's, or else the last purged one |
| `LogStore.RedbLogStore.constructor` | `crates/layerhouse-server/src/raft/log_store.rs:361-371` | A new store represents the empty log |
| `LogStore.RedbLogStore.AppendSync` | `crates/layerhouse-server/src/raft/log_store.rs:233-251` | Commits all rows or changes nothing |
| `LogStore.RedbLogStore.TruncateSync` | `crates/layerhouse-server/src/raft/log_store.rs:253-276` | Commits the removal of every row from an index on, or changes nothing |
| `LogStore.RedbLogStore.PurgeSync` | `crates/layerhouse-server/src/raft/log_store.rs:278-308` | Commits the removal of every row up to an index together with the purge mark, or changes nothing |
| `LogStore.RedbLogStore.SaveVoteSync` | `crates/layerhouse-server/src/raft/log_store.rs:310-326` | Overwrites the vote or changes nothing |
| `LogStore.RedbLogStore.SeedVoteSync` | `crates/layerhouse-server/src/raft/log_store.rs:328-334` | Ends with the specified seed when it succeeds and with the old disk when it does not; the stored vote is never lowered and on success not below the offered one; it succeeds exactly when the write commits or none is needed |
| `LogStore.RedbLogStore.GetLogStateSync` | `crates/layerhouse-server/src/raft/log_store.rs:169-203` | Returns the purge mark and the log id of the greatest row |
| `LogStore.RedbLogStore.GetEntriesSync` | `crates/layerhouse-server/src/raft/log_store.rs:205-231` | Returns exactly the rows of the half-open range in increasing order |
| `LogStore.RedbLogStore.TryGetLogEntries` | `crates/layerhouse-server/src/raft/log_store.rs:399-421` | Returns the slice of the converted range; these are the entries within the bounds whenever the conversion is exact and indices stay below u64::MAX |
| `Transfer.TransferSingleBlob` | `crates/layerhouse-ctl/src/mirror.rs:212-306` | For every pattern of pieces and failures the transfer ends, having made exactly the calls the protocol prescribes, each gone as the world says: HEAD, POST, GETs that continue at the byte reached with nothing received left unsent, PATCHes of 5 MiB and shorter ones only right after a broken or finished stream, fewer than 5 MiB waiting at every read, and PUT when all bytes are sent. Ranges are consecutive, of at most 5 MiB and those of the log, the destination always holds a prefix of the source, success means all of it; the pauses are 200 ms doubled with every error in a row; it fails if and only if the last call failed or was the sixth stream error in a row |
| `Transfer.CallsAreDetermined` | `crates/layerhouse-ctl/src/mirror.rs:212-306` | World and size alone decide the calls made, and with them how a transfer ends |
| `Transfer.EveryCallIsPlaced` | `crates/layerhouse-ctl/src/mirror.rs:229-306` | Where each call stands in terms of the bytes read and sent before it |
| `Transfer.LogAddsUp` | `crates/layerhouse-ctl/src/mirror.rs:229-306` | Progress, errors in a row, pauses and pieces are sums over the calls made |
| `Transfer.RangesAreShort` | `crates/layerhouse-ctl/src/mirror.rs:244-251` | No range written is longer than 5 MiB |
| `Transfer.UntroubledSucceeds` | `crates/layerhouse-ctl/src/mirror.rs:212-306` | If no call fails and no stream breaks, an absent blob is transferred |
| `Transfer.SmoothNeverBreaks` | `crates/layerhouse-ctl/src/mirror.rs:233-300` | For blobs of every size there is such a world |
| `Transfer.FailureIsLast` | `crates/layerhouse-ctl/src/registry.rs:715-722` | A failing call, a PATCH in particular, is the last call made |
| `Transfer.SendBlob` | `crates/layerhouse-ctl/src/mirror.rs:233-300` | The outer loop sends the whole blob or stops on its last call; the lexicographic measure ends it |
| `Transfer.ReadStream` | `crates/layerhouse-ctl/src/mirror.rs:234-299` | Reading one stream keeps destination, buffer and log in step; a reopening without progress uses up a retry; a clean end means the whole blob was sent; it gives up exactly on a failing PATCH or the sixth stream error in a row |
| `Transfer.BreakOff` | `crates/layerhouse-ctl/src/mirror.rs:253-286` | After a stream error the buffer is flushed before the resume, unless it was the sixth in a row |
| `Transfer.TakePiece` | `crates/layerhouse-ctl/src/mirror.rs:240-252` | A piece goes to the end of the buffer and resets the retries |
| `Transfer.SendFullChunks` | `crates/layerhouse-ctl/src/mirror.rs:244-251` | Full chunks leave the buffer for the destination without loss or reordering; it fails exactly on its own last PATCH |
| `Transfer.Flush` | `crates/layerhouse-ctl/src/mirror.rs:269-295` | What is buffered is sent in one PATCH, and it fails exactly when that does |
| `Transfer.PatchKeepsStep` | `crates/layerhouse-ctl/src/registry.rs:685-740` | After a PATCH the destination holds the next prefix and the buffer the next slice |
| `Transfer.ConsecutiveRanges` | `crates/layerhouse-ctl/src/registry.rs:685-740` | The ranges are non-empty, start at 0 and each starts right after the one before |
| `Transfer.Backoff` | `crates/layerhouse-ctl/src/mirror.rs:279-282` | The pause before the n-th resume in a row: 200, 400, 800, 1600, 3200 ms |
| `Manifest.StoredSizeFromDescriptors` | `crates/layerhouse-server/src/oci/manifest.rs:81-93` | The result is the sum over distinct digests of the largest declared size, modulo 2^64 |
| `Manifest.MergeByDigest` | `crates/layerhouse-server/src/oci/manifest.rs:85-91` | The map holds exactly the digests that occur, each with its largest size |
| `Manifest.MaxSizeIsMaximum` | `crates/layerhouse-server/src/oci/manifest.rs:85-91` | The size kept for a digest is the maximum of those declared |
| `Manifest.StoredSizeDependsOnSet` | `crates/layerhouse-server/src/oci/manifest.rs:81-93` | Permuting or repeating descriptors does not change the stored size |
| `Manifest.StoredSizeAtMostPlainSum` | `crates/layerhouse-server/src/oci/manifest.rs:81-93` | The stored size never exceeds the plain sum |
| `Manifest.SizedAreReferenced` | `crates/layerhouse-server/src/oci/manifest.rs:21-75` | The digests of the sized descriptors are a subsequence of the referenced digests |
| `Manifest.ExtractFrom` | `crates/layerhouse-server/src/oci/manifest.rs:21-75` | Both extractors return the descriptors of config, layers and blobs, in that order |
| `Manifest.ChildrenOfIndex` | `crates/layerhouse-server/src/mirror/client.rs:917-934` | The children of an index are the digest texts of those items of its manifests array that are objects with a digest string and a 64-bit size: all of them, in item order, with repetitions |
| `Manifest.ChildIff` | `crates/layerhouse-server/src/mirror/client.rs:917-934` | A text is a child exactly when such an item names it |
| `Manifest.ReferencedIff` | `crates/layerhouse-server/src/oci/manifest.rs:21-47` | A digest is referenced exactly when the config, a layer or a blob of the document has it |
| `Manifest.SizedIff` | `crates/layerhouse-server/src/oci/manifest.rs:49-75` | A blob of some size is accounted for exactly when the config, a layer or a blob describes it so |
| `Manifest.BlobTextsIff` | `crates/layerhouse-server/src/oci/manifest.rs:21-47` | The digest texts found in a body are those its JSON names, none when it does not parse |
| `Digests.ParsePrint` | `crates/layerhouse-server/src/oci/digest.rs:15-58` | A text parses to a digest exactly when the digest is valid and prints to that text |
| `Digests.AcceptedIff` | `crates/layerhouse-server/src/oci/digest.rs:15-31` | Accepted are exactly sha256: with 64 and sha512: with 128 hexadecimal digits of either case |
| `Digests.S3KeyRoundTrip` | `crates/layerhouse-server/src/gc.rs:274-282` | The collector reads the digest text back from the object key of every valid digest |
| `Digests.S3KeyForm` | `crates/layerhouse-server/src/oci/digest.rs:48-52` | A blob is stored under blobs, its algorithm, its first two digits and all its digits |
| `Digests.BlobKeyIff` | `crates/layerhouse-server/src/gc.rs:274-282` | The keys the collector takes for blobs are exactly those of that form, with any shard the digits start with |
| `Digests.S3KeyInjective` | `crates/layerhouse-server/src/oci/digest.rs:48-52` | Distinct digests never share an object key |
| `Gc.RunGcSweep` | `crates/layerhouse-server/src/gc.rs:194-268` | scanned = skipped_referenced + skipped_young + candidates; keys deleted are a prefix of the candidates cut at a batch boundary, empty on dry run, with no batch after the last key or after leadership is lost; deletions and errors are the sums over the answers, and deleted + errors = candidates exactly when no answer reports more errors than it had keys; an error is returned exactly when the last batch request failed; skipped_young counts the unreferenced objects without a time or within the grace period |
| `Gc.DeleteInBatches` | `crates/layerhouse-server/src/gc.rs:255-264` | The batch loop hands over a prefix of the keys, one whole batch at a time while leading and as long as keys are left, adds up the answers, and fails exactly on its last request |
| `Gc.CollectUnreferenced` | `crates/layerhouse-server/src/gc.rs:220-238` | The first pass keeps exactly the old unreferenced objects, counts the young unreferenced ones and every other one as referenced |
| `Gc.Retain` | `crates/layerhouse-server/src/gc.rs:240-246` | The second snapshot removes exactly the objects referenced by then |
| `Gc.ListBlobObjects` | `crates/layerhouse-server/src/gc.rs:57-95` | Objects are the listed keys that parse as blob keys, each with its digest and its time unless that is absent or negative |
| `Gc.CandidatesMeaning` | `crates/layerhouse-server/src/gc.rs:220-245` | An object is a candidate exactly when its known time plus the grace period is not after now and its count is zero in both snapshots |
| `Gc.SweepSpares` | `crates/layerhouse-server/src/gc.rs:194-282` | In every interleaving no key of a valid digest is deleted if its count was positive in either snapshot or its object was young |
| `Gc.LiveBlobsSurvive` | `crates/layerhouse-server/src/gc.rs:194-282` | Blobs of any manifest stored at either snapshot survive, because counters are exact in every state of the metadata |
| `Gc.DeletedIff` | `crates/layerhouse-server/src/gc.rs:215-264` | A sweep that is not cut short deletes a blob's object if and only if it is old and no manifest stored at either snapshot references it |
| `Gc.LateManifestLosesBlob` | `crates/layerhouse-server/src/gc.rs:240-264` | A manifest stored after the second snapshot can therefore lose its blob |
| `RefCounts.PositiveIffReferenced` | `crates/layerhouse-server/src/raft/state_machine.rs:1203-1205` | A counter is positive exactly when a stored manifest references the blob |
| `RefCounts.CountersFit` | `crates/layerhouse-server/src/raft/state_machine.rs:1185-1189` | No counter exceeds the number of stored manifests |
| `RefCounts.IncrementBlobRefs` | `crates/layerhouse-server/src/raft/state_machine.rs:1185-1189` | Adds one to each referenced blob and to no other |
| `RefCounts.DecrementBlobRefs` | `crates/layerhouse-server/src/raft/state_machine.rs:1191-1200` | Takes one from each referenced blob and drops counters that reach zero |
| `RefCounts.ReplaceRow` | `crates/layerhouse-server/src/raft/state_machine.rs:239-248` | Storing a manifest, new or over an old one, keeps every counter exact |
| `RefCounts.RemoveRows` | `crates/layerhouse-server/src/raft/state_machine.rs:347-368` | Removing manifests keeps every counter exact |
| `RefCounts.DecrementAll` | `crates/layerhouse-server/src/raft/state_machine.rs:366-368` | Uncounting the removed manifests, in any order, makes the counters exact again |
| `RefCounts.RowIsPending` | `crates/layerhouse-server/src/raft/state_machine.rs:325-336` | Dropping a repository leaves exactly its manifests to uncount |
| `RefCounts.RebuildBlobRefCounts` | `crates/layerhouse-server/src/raft/state_machine.rs:1174-1183` | Counting from scratch gives exact counters |
| `StateMachine.Data.constructor` | `crates/layerhouse-server/src/raft/state_machine.rs:110-115` | The empty state satisfies all invariants |
| `StateMachine.Data.PutManifest` | `crates/layerhouse-server/src/raft/state_machine.rs:182-264` | Accepted exactly in the expected epoch and, when asked, on an absent tag; then stores the row and moves the tag; the entry references the declared digests, or those its JSON names when none is declared, and each of them has a positive counter; all invariants hold |
| `StateMachine.Data.DeleteManifests` | `crates/layerhouse-server/src/raft/state_machine.rs:347-391` | Removes the digests and every tag that names them; no tag dangles |
| `StateMachine.Data.DeleteTag` | `crates/layerhouse-server/src/raft/state_machine.rs:297-324` | Removes the tag only if it still names the digest |
| `StateMachine.Data.DeleteRepositoryContent` | `crates/layerhouse-server/src/raft/state_machine.rs:325-346` | Removes all manifests and tags of one repository and uncounts their blobs |
| `StateMachine.Data.PutRepository` | `crates/layerhouse-server/src/raft/state_machine.rs:592-600` | Adds the repository only in the expected epoch |
| `StateMachine.Data.DeleteRepository` | `crates/layerhouse-server/src/raft/state_machine.rs:601-609` | Removes the repository only in the expected epoch |
| `StateMachine.Data.NormalizeRestored` | `crates/layerhouse-server/src/raft/state_machine.rs:1142-1172` | After a restore entries without references get those of their bodies, every blob such a body names has a positive counter, and all invariants hold, whatever the counters were |
| `StateMachine.FillIn` | `crates/layerhouse-server/src/raft/state_machine.rs:1144-1151` | The loop fills in exactly the entries without references |
| `StateMachine.ClaimHandle` | `crates/layerhouse-server/src/raft/state_machine.rs:695-743` | The tables after a claim: one generation more for that handle alone, tombstone removed |
| `StateMachine.Data.Claim` | `crates/layerhouse-server/src/raft/state_machine.rs:687-744` | Succeeds exactly for a valid free handle (a released one only by override); content never changes epoch |
| `StateMachine.Data.Release` | `crates/layerhouse-server/src/raft/state_machine.rs:745-814` | Refused exactly for a handle that is not live, that somebody else owns, or under which some name still has content; afterwards nothing stored is under the handle and its grants are gone |
| `StateMachine.Data.PutGrant` | `crates/layerhouse-server/src/raft/state_machine.rs:815-850` | Stored exactly for a live namespace and a well-formed grant: a group, a user, or the public for pull alone |
| `StateMachine.Data.DeleteGrant` | `crates/layerhouse-server/src/raft/state_machine.rs:851-894` | Removes one grant of a live namespace and nothing else |
| `StateMachine.PutEntry` | `crates/layerhouse-server/src/raft/state_machine.rs:239-262` | Counters stay exact and tags keep resolving when a manifest is stored |
| `StateMachine.RemoveManifests` | `crates/layerhouse-server/src/raft/state_machine.rs:347-391` | Counters stay exact and tags keep resolving when manifests are removed |
| `StateMachine.DropRepository` | `crates/layerhouse-server/src/raft/state_machine.rs:325-346` | Counters stay exact and tags keep resolving when a repository is dropped |
| `StateMachine.EntryRefsIff` | `crates/layerhouse-server/src/raft/state_machine.rs:212-222` | The references of an entry, stated on the declared texts and the JSON body |
| `StateMachine.ExpectedIff` | `crates/layerhouse-server/src/raft/state_machine.rs:938-970` | A write passes exactly under a personal name or in the very generation its handle is in now |
| `StateMachine.ValidHandleIff` | `crates/layerhouse-server/src/store/metadata/handle.rs:36-71` | A valid handle has 3 to 39 characters and consists of words of lower-case letters and digits joined by single hyphens |
| `StateMachine.WriteStaysCurrent` | `crates/layerhouse-server/src/raft/state_machine.rs:938-970` | A write that passes is content of the current epoch, the one it was authorized in |
| `StateMachine.PutChanges` | `crates/layerhouse-server/src/raft/state_machine.rs:239-262` | Row by row: storing changes one row and, for a reference that is a tag, that tag |
| `StateMachine.RemovalChanges` | `crates/layerhouse-server/src/raft/state_machine.rs:347-391` | Row by row: removal takes the given rows and exactly the tags that name them |
| `StateMachine.FoundIff` | `crates/layerhouse-server/src/raft/state_machine.rs:1218-1225` | A manifest is found exactly under its digest or under a tag that names its digest |
| `StateMachine.TagLookupSucceeds` | `crates/layerhouse-server/src/raft/state_machine.rs:1218-1225` | Every tag leads to a stored manifest |
| `StateMachine.ReleaseStaysCurrent` | `crates/layerhouse-server/src/raft/state_machine.rs:745-814` | Releasing an empty handle leaves all content in its epoch and none under the handle |
| `Scheduler.Store.ReconcileJobs` | `crates/layerhouse-server/src/mirror/scheduler.rs:111-202` | One pass leaves the reconciled store and writes nothing exactly when nothing differs |
| `Scheduler.Store.PutWanted` | `crates/layerhouse-server/src/mirror/scheduler.rs:125-188` | The three loops put what the snapshot asks for, the last write of an id counting |
| `Scheduler.Store.DeleteStale` | `crates/layerhouse-server/src/mirror/scheduler.rs:190-199` | Deletes exactly the stale jobs of the snapshot |
| `Scheduler.WantedAreStored` | `crates/layerhouse-server/src/mirror/scheduler.rs:111-202` | Every job the configuration asks for is stored with its fields, unless it is running |
| `Scheduler.RecurringAreWanted` | `crates/layerhouse-server/src/mirror/scheduler.rs:111-202` | Every recurring job left is one the configuration asks for, unless it was running |
| `Scheduler.WantedIsPresentIff` | `crates/layerhouse-server/src/mirror/scheduler.rs:111-202` | A wanted job is missing after a pass exactly when the snapshot held a stale job under its id |
| `Scheduler.OthersAreUntouched` | `crates/layerhouse-server/src/mirror/scheduler.rs:61-82` | Running and one-shot jobs are untouched and no job is postponed |
| `Scheduler.SecondPassWritesNothing` | `crates/layerhouse-server/src/mirror/scheduler.rs:111-202` | With nothing running, a second pass at any time writes nothing |
| `Scheduler.WantsAreDistinct` | `crates/layerhouse-server/src/mirror/scheduler.rs:41-59` | Jobs of different kinds never share an id |
| `Scheduler.ConfiguredAreStored` | `crates/layerhouse-server/src/mirror/scheduler.rs:41-188` | After a pass every rule and cache with a schedule and every warm image has a job under its own id with its image, tags and interval, unless that job is running |
| `Scheduler.RecurringAreConfigured` | `crates/layerhouse-server/src/mirror/scheduler.rs:190-199` | A recurring job that was not running is left only where a rule, a cache or a warm image of the configuration asks for it |
| `Scheduler.PastIsKept` | `crates/layerhouse-server/src/mirror/scheduler.rs:61-82` | A new job is idle and due at once; an old one keeps status, claim, last run and last error and is at most moved up to now |
| `Principal.EscapeLocalId` | `crates/layerhouse-server/src/auth/principal.rs:256-269` | The loop computes the percent encoding |
| `Principal.UnescapeLocalId` | `crates/layerhouse-server/src/auth/principal.rs:271-298` | The loop decodes, rejecting truncated or non-hexadecimal escapes and bytes that are not UTF-8 |
| `Principal.DecodeEscaped` | `crates/layerhouse-server/src/auth/principal.rs:256-307` | Decoding undoes encoding for every byte string |
| `Principal.EscapedIsPlain` | `crates/layerhouse-server/src/auth/principal.rs:256-269` | An encoded id holds only unreserved characters and '%', never ':' |
| `Principal.EscapedByte` | `crates/layerhouse-server/src/auth/principal.rs:256-269` | Letters, digits and the four marks stand for themselves, every other byte is '%' and two upper-case hexadecimal digits |
| `Principal.IdForm` | `crates/layerhouse-server/src/auth/principal.rs:131-144` | An id is provider, ':user:' or ':group:', and the encoded local id |
| `Principal.ParseIff` | `crates/layerhouse-server/src/auth/principal.rs:146-157` | The texts that parse, and to what: provider, kind and any encoding of a text that is not empty, with white space around the whole and the provider |
| `Principal.ProviderIff` | `crates/layerhouse-server/src/auth/principal.rs:46-76` | A provider has 1 to 64 lower-case letters, digits, '_' and '-' and starts with a letter |
| `Principal.TrimParts` | `crates/layerhouse-server/src/auth/principal.rs:146-149` | Trimming takes white space off both ends and leaves none there |
| `Principal.ParseUndoesNew` | `crates/layerhouse-server/src/auth/principal.rs:131-175` | `parse` undoes `new` and the accessors recover provider, kind and local id |
| `Principal.NewIsInjective` | `crates/layerhouse-server/src/auth/principal.rs:131-144` | Equal ids mean equal normalised provider, kind and local id |
| `Principal.ParseIsNormalForm` | `crates/layerhouse-server/src/auth/principal.rs:146-157` | Every parse result parses to itself |
| `Principal.SameProviderEquality` | `crates/layerhouse-server/src/auth/principal.rs:131-175` | An id built with a principal's own provider equals the principal exactly when kind and local id do |
| `Principal.TextIsCanonical` | `crates/layerhouse-server/src/auth/principal.rs:131-175` | Valid parts print to a canonical id whose accessors give them back |
| `Principal.CanonicalIsText` | `crates/layerhouse-server/src/auth/principal.rs:146-175` | Every canonical id is the text of its parts, so decisions may be stated on parts |
| `Principal.NewIsAtProvider` | `crates/layerhouse-server/src/auth/principal.rs:131-144` | `new` at a known provider fails exactly for an empty local id |
| `Authorization.AuthorizeMeansDirectRule` | `crates/layerhouse-server/src/auth/cedar_authorizer.rs:565-822` | Synthesized policies plus guards allow a repository action exactly when the direct rule does: own personal namespace, namespace owner, or user or group grant at or above the action in the current epoch, never another user's personal namespace; it fails exactly for an owner with an empty subject |
| `Authorization.AllowedAreGranted` | `crates/layerhouse-server/src/auth/permissions.rs:120-147` | What a user may do on a repository of a claimed handle, as sets of actions: everything as owner, otherwise what the grants that name the user or a group of the user give, a pull grant pull, a create grant pull and create, and so on up to delete, and an admin grant nothing of these |
| `Authorization.PolicySetsMeaning` | `crates/layerhouse-server/src/auth/cedar_authorizer.rs:565-606` | With policy sets an action outside the guards is allowed exactly by ownership, a grant or a permit that applies, when no forbid does |
| `Authorization.LapsedEpochIsDenied` | `crates/layerhouse-server/src/auth/cedar_authorizer.rs:607-647` | In an epoch that is not the current one nothing is granted |
| `Authorization.UnclaimedIsReadOnly` | `crates/layerhouse-server/src/auth/cedar_authorizer.rs:574-578` | Under a handle nobody has claimed nothing can be written, whatever the policy sets permit |
| `Authorization.SynthesisMeaning` | `crates/layerhouse-server/src/auth/cedar_authorizer.rs:607-730` | Cedar allows the compiled policies exactly for owners and grantees of the current epoch |
| `Authorization.GuardsMeaning` | `crates/layerhouse-server/src/auth/cedar_authorizer.rs:574-585` | Around any policies with that meaning the guards give the direct rule; the unclaimed-write guard denies nothing it would allow |
| `Authorization.PolicyForRequest` | `crates/layerhouse-server/src/auth/cedar_authorizer.rs:607-647` | The policy text is the owner's permits, then each grant's, then the policy sets |
| `Authorization.AppendNamespaceOwnerPolicies` | `crates/layerhouse-server/src/auth/cedar_authorizer.rs:687-704` | Appends the owner's permits for the whole ladder, nothing for an organisation |
| `Authorization.AppendNamespaceGrantPolicies` | `crates/layerhouse-server/src/auth/cedar_authorizer.rs:706-730` | Appends a grant's permits; public grants give none |
| `Authorization.AppendPermitsForActions` | `crates/layerhouse-server/src/auth/cedar_authorizer.rs:756-766` | Appends one permit for each implied action |
| `Authorization.ImpliedMeaning` | `crates/layerhouse-server/src/auth/cedar_authorizer.rs:788-797` | The implied actions are exactly those the ladder covers |
| `Authorization.OwnerMeaning` | `crates/layerhouse-server/src/auth/cedar_authorizer.rs:687-704` | An owner permit applies exactly to the user with the owner's subject at the actor's own provider |
| `Authorization.GrantsMeaning` | `crates/layerhouse-server/src/auth/cedar_authorizer.rs:706-730` | Some grant permit applies exactly when some grant covers actor and action |
| `Authorization.Authorize` | `crates/layerhouse-server/src/auth/cedar_authorizer.rs:493-504` | Computes the decision the theorems are about |
| `Authorization.DirectRuleIsDownwardClosed` | `crates/layerhouse-server/src/auth/permissions.rs:120-147` | Whoever may do an action may do every lower one |
| `Authorization.AllowedIsDownwardClosed` | `crates/layerhouse-server/src/auth/cedar_authorizer.rs:506-532` | The same for the decisions of the authorizer without policy sets |
| `Authorization.MaxGrantableAction` | `crates/layerhouse-server/src/auth/cedar_authorizer.rs:506-552` | Returns the highest allowed action, None when none is allowed, whatever policy sets there are; without any, for a user on a claimed handle, delete for the owner and otherwise the highest action its grants give; fails exactly when synthesis does |
| `Authorization.HighestIsExact` | `crates/layerhouse-server/src/auth/cedar_authorizer.rs:506-532` | Without policy sets the allowed actions are exactly those up to the result |
| `Authorization.PersonalNamespaceIsPrivate` | `crates/layerhouse-server/src/auth/permissions.rs:157-176` | Whatever grants and policy sets exist, a personal namespace admits its own user and nobody else, and nobody while a policy set does not parse |
| `Authorization.ReadsWellFormed` | `crates/layerhouse-server/src/raft/state_machine.rs:903-932` | Grants read from any valid state of the metadata are well-formed, as the direct rule assumes |
| `Authorization.EpochIdsAreDistinct` | `crates/layerhouse-server/src/store/metadata/types.rs:325-327` | The entity ids of different ownership epochs differ |
| `Challenge.ParserRecoversChallenge` | `crates/layerhouse-server/src/error.rs:187-210` | For every realm, service and scope without a double quote the client recovers exactly the realm and service rendered, and reports an error when no realm was |
| `Challenge.ParseBearerChallenge` | `crates/layerhouse-ctl/src/registry.rs:162-196` | The loop ends on every text and computes the parse; `mirror/client.rs` holds the same code |
| `Challenge.Render` | `crates/layerhouse-server/src/error.rs:194-203` | The pushes build the rendered challenge |
| `Challenge.RenderedForm` | `crates/layerhouse-server/src/error.rs:194-203` | The header spelled out for every choice of parameters |
| `Challenge.ReadsUnquoted` | `crates/layerhouse-server/src/mirror/client.rs:184-206` | A value without quotes is read up to the next comma or the end |
| `Challenge.FirstField` | `crates/layerhouse-server/src/mirror/client.rs:184-206` | What remains after a parameter is strictly shorter |
| `ChallengeQuotes.RecoveredIff` | `crates/layerhouse-server/src/error.rs:194-203` | For every realm, service and scope: the challenge is recovered if and only if the parameters read after the first quote inside a value set realm and service back to what was rendered |
| `ChallengeQuotes.NoRealmIff` | `crates/layerhouse-server/src/error.rs:194-203` | Without a realm the clients report an error if and only if no realm is read after the first quote inside a value |
| `ChallengeQuotes.ReadsCut` | `crates/layerhouse-server/src/mirror/client.rs:178-212` | The parameters read are those up to the first quote inside a value, followed by what the text after it says |
| `ChallengeQuotes.RealmRecoveredIff` | `crates/layerhouse-server/src/error.rs:195-203` | With service and scope free of quotes, the challenge is recovered if and only if the realm holds no double quote |
| `ChallengeQuotes.ServiceRecoveredIff` | `crates/layerhouse-server/src/error.rs:195-203` | With realm and scope free of quotes, the challenge is recovered if and only if the service holds no double quote |
| `ChallengeQuotes.ScopeRecoveredIff` | `crates/layerhouse-server/src/error.rs:195-203` | A quote in the scope does no harm if and only if the parameters read after it repeat realm and service or leave them alone |
| `ChallengeQuotes.RealmIsCut` | `crates/layerhouse-server/src/error.rs:195-197` | A realm ends at its first quote and what follows is read as further parameters |
| `ChallengeQuotes.ServiceIsCut` | `crates/layerhouse-server/src/error.rs:198-200` | The same for the service |
| `ChallengeQuotes.ScopeIsCut` | `crates/layerhouse-server/src/error.rs:201-203` | The same for the scope |
| `ChallengeQuotes.LaterRealmWins` | `crates/layerhouse-ctl/src/registry.rs:168-189` | A realm parameter read after such a quote replaces the realm, whichever value held the quote |
| `ChallengeQuotes.CutValueIsLost` | `crates/layerhouse-server/src/mirror/client.rs:184-206` | Nothing read after a cut value is that value again |
| `ChallengeQuotes.AssembledMeaning` | `crates/layerhouse-server/src/mirror/client.rs:199-211` | The last realm and the last service count |

## Left out

- StateMachine.Data.NormalizeRestored: does not model filling in missing sizes and dates of old manifests.
- StateMachine.Data.PutManifest: does not model content type, subject, annotations, sizes and dates of an entry; references are a set, as the program sorts and removes duplicates.
- RefCounts.IncrementBlobRefs: does not model overflow of a 64-bit counter, which `RefCounts.CountersFit` puts beyond 2^64 stored manifests.
- Transfer.TransferSingleBlob: does not model a destination that acknowledges part of a chunk, a source that ignores Range or sends empty pieces, or a declared size other than the blob's; these are promises of the registries.
- MirrorPush.Remote.Push: takes the local store as unchanged meanwhile and the manifests below the pushed one as acyclic, since the recursion has no visited set and would not end on a cycle.
- TagValidation.FastPathIsValidated: does not model changes of the proxy-cache configuration, which drop validations as well, nor a clock that goes back.
- MirrorWalk.Repository.StoreManifestRecursive: takes the body served for a sha256 text as hashing to it, which the code does not check, and no other writer as changing the repository meanwhile; a concurrent deletion can remove a child between its put and its parent's.
- Authorization.PolicySetsMeaning: does not cover the scoped tokens (personal access and OCI bearer), which restrict the decision further.
- SingleFlight.OneLeaderPerKey: does not model cancellation of a leader.
- Scheduler.SecondPassWritesNothing: takes the store as quiet; the interval of a schedule text is a parameter, and no claim is made about the spacing of runs.
- HTTP, TLS, S3, redb and tokio; S3 pagination; a challenge header that is dropped for holding control characters.
- Cedar's text syntax, schema language and string quoting: policies are values, a request outside the schema is denied.
- JWT, OIDC, sessions, cookies and personal access tokens as data.
- Raft consensus, membership, snapshots and their upload.
- Mirror configuration, job, token, policy and Helm requests of the state machine, and the audit trails: rows written and read back.
- Job execution, claiming and recovery in the scheduler; eventual wake-up of waiters.
- Listing, paging and summaries of the metadata; dashboard, configuration files, connectors: settled by reading one function.
