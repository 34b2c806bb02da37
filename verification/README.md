# A verified model of the DNSid SDK for Go

This project models the parts of the SDK on which trust rests and proves what they promise.

* **Checkpoint continuity.** A verifier of a transparency log keeps a trusted checkpoint and replaces it only by
  one that extends it. `Merkle` defines the tree hash of section 2.1 of RFC 6962, `HashTiles` the verification of
  consistency from untrusted hash tiles, `TileBytes` the bytes of a tile, `CheckpointStore` the evidence and the compare-and-swap loop, and
  `CheckpointProtocol` any number of verifiers interleaved on one store, and `CheckpointProgress` what they accept. The only assumption about hashing is
  local: the node inputs hashed in a run (`seen`) do not collide.
* **Lifecycle and migration.** `Snapshot` replays a domain's events up to a time, and `LifecycleRules` says event by
  event what it accepts. `MigrationPath` bounds chains of
  logs, `PriorEvidence` cuts an imported history at its proof boundaries, and `MigrationChain` shows that what
  one log's client produces is what the next one's consumes. `LogEvents` and `Numerals` are shared.
* **Verified identities.** `VerifiedCache` is the cache with its shared invalidation flags, `Coalescing` the state
  machine of shared verification work, one step for each lock section, `SharedWork` what its
  callers get, `LatePublication` the exact condition under which a dropped call can publish late, and `IdentityManagement` the object whose methods are those steps.
* **Canonical encodings.** `CanonicalJson` and `EventEntry` are the JCS encoder (sections 3.2.2.2 and 3.2.3 of
  RFC 8785) and the signed bytes of log entries, `JsonReader` a reader of JSON by RFC 8259 that gives the texts their
  meaning; `TagText` and `TxtRecord` the TXT tag lists, their parser and
  their signing form. `Unicode` and `Ordering` hold UTF-8, UTF-16 and the sorting of names.
* **Two stateful parts.** `KeyStore` is the file-backed key store, `DnsStream` the deframing of DNS over TCP
  (section 4.2.2 of RFC 1035).

The modules follow the form of the source: objects that change in place are classes whose methods are proved equal
to a function of the old state, loops are loops with invariants, and what the source promises is proved about those
functions, for all inputs, runs and reachable states.

Two promises hold only under a condition, which is stated exactly, and one check alone promises less than the client
that uses it:

* `MigrationChain`: a stream of a single event whose signed cutoff is a later copy of that event produces evidence
  that the next hop refuses, because its only reference is overwritten by the cutoff while `HistoryStart` is not
  (`CopiedEventIsRefused`). Chains are accepted exactly if no stream is like that.
* `LatePublication`: when the last waiter of a registered call leaves, its acquisition floor is no longer raised. If
  its worker then already holds new evidence that it is about to publish and that can still be stored later, some
  continuation stores it after a newer publication (`HazardCanGoBack`, and `DroppedCallStoresOlder` from an empty
  manager). In every run without such a departure each entry is the latest ever published (`ReachableWorlds`).
* `MigrationPath`: the check of an imported history takes an empty `lastLog` for "no migration yet", so by itself it
  lets a migration to the empty log hide a gap (`EmptyTargetHidesAGap`, `AcceptedPathIsSimple`). The gap is local to
  this check: the client also replays the same history (log/c2sptlog/signatures.go:298-301), which refuses such a
  migration, and what passes both is a simple path (`ReplayedPathIsSimple`).

Where the code and its documentation differ the model follows the code: the comment on `SnapshotAt` (log/log.go:430-437)
says that events for other domains are ignored and that a migration may follow a terminal state, while the code refuses
both.

## Model

| member | source | states |
|---|---|---|
| `Merkle.SplitIsUnique` | log/c2sptlog/hash_tiles.go:159-162 | the split found by doubling is the only power of two below n that is at least half of it |
| `Merkle.FindSplit` | log/c2sptlog/checkpoint_store.go:394-397 | the doubling loop ends at the largest power of two smaller than the number of entries |
| `Merkle.HashTileRoot` | log/c2sptlog/hash_tiles.go:155-164 | hashing a nonempty run of nodes gives their RFC 6962 tree hash |
| `Merkle.MerkleRoot` | log/c2sptlog/checkpoint_store.go:385-406 | the root of raw entries is the RFC 6962 tree hash of their leaf hashes, the empty tree included |
| `Merkle.RootBindsLeaves` | log/c2sptlog/hash_tiles.go:155-164 | two runs of the same length with the same root are equal, unless a hashed node input collides |
| `Merkle.RootOfGroups` | log/c2sptlog/hash_tiles.go:130-153 | the root of a run is the root of the roots of its groups of 256, the last one possibly partial, and hashes no new node inputs |
| `Merkle.SmallTrees` | log/c2sptlog/checkpoint_store.go:385-406 | the trees of up to three leaves and the tree of seven leaves drawn in section 2.1.3 of RFC 6962 |
| `HashTiles.ParentIsInRange` | log/c2sptlog/hash_tiles.go:166-187 | a tile off the right edge is full, its parent tile exists and is wide enough for the index read from it, and fewer nodes are available one level up |
| `HashTiles.DigitIsInRange` | log/c2sptlog/hash_tiles.go:132-153 | the tile that a nonzero base-256 digit selects exists and has at least that many nodes, so no index or width is out of bounds |
| `HashTiles.AvailableIsShift` | log/c2sptlog/hash_tiles.go:170 | the nodes available at a level are the size shifted right by eight bits a level |
| `TileBytes.DigestsArePacked` | log/c2sptlog/hash_tiles.go:101-104 | decoding a tile keeps all of its bytes in order, 32 to a hash |
| `TileBytes.ServedIsSent` | log/c2sptlog/hash_tiles.go:84-104 | what is accepted for a tile is exactly what was sent for it, byte for byte: the tile itself, or the front of the full tile where it is not found |
| `TileBytes.SendingIsHonest` | log/c2sptlog/hash_tiles.go:76-107 | a server that sends the 32-byte nodes of the tree delivers correct tiles |
| `TileBytes.DecideFromHonestBytes` | log/c2sptlog/hash_tiles.go:47-74 | over such a server the verdict is acceptance for the true prefix root and inconsistency for any other |
| `HashTiles.CheckpointTiles.FetchTile` | log/c2sptlog/hash_tiles.go:76-107 | delivers exactly the tile's width from the cache, the partial tile or the front of the full tile, or fails, as invalid for a body of the wrong length, and caches nothing |
| `HashTiles.CheckpointTiles.FoldRoot` | log/c2sptlog/hash_tiles.go:130-153 | the loop over digits computes the fold, uses exactly the tiles of the nonzero digits and never reads out of range |
| `HashTiles.CheckpointTiles.Authenticate` | log/c2sptlog/hash_tiles.go:166-187 | ends, and succeeds exactly if the chain of hashes from the tile reaches the candidate's right edge |
| `HashTiles.CheckpointTiles.AuthenticateAll` | log/c2sptlog/hash_tiles.go:63-69 | the verdict on the used tiles does not depend on the iteration order of the map, nor on whether tiles added meanwhile are visited |
| `HashTiles.VerifyTileConsistency` | log/c2sptlog/hash_tiles.go:47-74 | accepts exactly if every used tile authenticates and they fold to the trusted root, and reports a consistency failure exactly if they authenticate and fold to another |
| `HashTiles.FoldRefinesRoot` | log/c2sptlog/hash_tiles.go:130-153 | over honest tiles the fold at every size from 1 to the tree size is the RFC 6962 root of that many leaves |
| `HashTiles.FoldOfCorrectTiles` | log/c2sptlog/hash_tiles.go:130-153 | the same at every level of the tree, with the right-hand remainder folded in |
| `HashTiles.EdgeTilesAreCorrect` | log/c2sptlog/hash_tiles.go:51-58 | if arbitrary tiles fold to the candidate's root, every tile of the right edge is the true one |
| `HashTiles.AuthenticTileIsCorrect` | log/c2sptlog/hash_tiles.go:166-187 | a tile of arbitrary contents whose hashes chain up to the right edge is the true one |
| `HashTiles.AuthenticatedPrefixIsTrue` | log/c2sptlog/hash_tiles.go:47-74 | tile soundness: whatever the server sent, authenticated tiles fold at the old size to the root of the first that many leaves behind the candidate |
| `HashTiles.HonestServerDecides` | log/c2sptlog/hash_tiles.go:47-74 | an honest server is accepted exactly for the true prefix root and otherwise proves inconsistency |
| `CheckpointStore.ExtendsTransitive` | log/c2sptlog/checkpoint_store.go:325-345 | consistency of checkpoints composes |
| `CheckpointStore.ScanProvesExtension` | log/c2sptlog/checkpoint_store.go:372-383 | an accepted complete scan proves that the candidate extends the trusted checkpoint |
| `CheckpointStore.TilesProveExtension` | log/c2sptlog/checkpoint_store.go:325-345 | so do accepted tiles of arbitrary contents |
| `CheckpointStore.RefutationProvesFork` | log/c2sptlog/hash_tiles.go:70-72 | a reported inconsistency is real: no log behind the candidate has the trusted root at the trusted size |
| `CheckpointStore.EvidenceProvesExtension` | log/c2sptlog/checkpoint_store.go:325-359 | whatever evidence is accepted, every log behind the candidate starts with a log behind the trusted checkpoint |
| `CheckpointStore.JustifiedExtends` | log/c2sptlog/checkpoint_store.go:287-305 | what the retry loop accepts extends what it loaded |
| `CheckpointStore.VerifyScanRoots` | log/c2sptlog/checkpoint_store.go:372-383 | accepts exactly a scan of the right length with both roots, and reports inconsistency exactly if only the prefix root differs |
| `CheckpointStore.VerifyConsistency` | log/c2sptlog/checkpoint_store.go:325-359 | accepts an empty trusted tree, or what the offered source proves |
| `CheckpointStore.MemoryStore.Load` | log/c2sptlog/checkpoint_store.go:155-175 | the stored checkpoint or none; an empty origin is an error |
| `CheckpointStore.MemoryStore.CompareAndSwap` | log/c2sptlog/checkpoint_store.go:200-240 | publishes the candidate exactly if the stored state is the expected one and both are valid, and changes no other origin |
| `CheckpointStore.MemoryStore.Advance` | log/c2sptlog/checkpoint_store.go:260-323 | the retry loop ends with at most size + 1 failed swaps, whatever valid checkpoints of larger trees other verifiers publish meanwhile, for any origins; it succeeds exactly if what it last loaded is absent, the same tree, or a smaller one from which the evidence leads to the candidate; then the candidate's size and root are stored, and otherwise, and for all other origins, the store holds only what others put there |
| `CheckpointProgress.AdvanceUndisturbed` | log/c2sptlog/checkpoint_store.go:260-323 | an undisturbed verifier publishes every well-formed first checkpoint, accepts the same tree again, and publishes a larger one exactly if the log shown, as a complete scan or by honest tiles, had the stored root |
| `CheckpointProtocol.StepKeepsInv` | log/c2sptlog/checkpoint_store.go:260-323 | every load, check, swap (also one whose answer is lost) and cancellation keeps the protocol invariant, and the store only moves to larger trees that extend what they replace |
| `CheckpointProtocol.RunKeepsInv` | log/c2sptlog/checkpoint_store.go:206-323 | so does every interleaving of any number of verifiers |
| `CheckpointProgress.FirstCheckpointIsAccepted` | log/c2sptlog/checkpoint_store.go:286-321 | from any state a verifier that runs without a rival gets the first checkpoint of an origin accepted and stored |
| `CheckpointProgress.LargerCheckpointIsDecided` | log/c2sptlog/checkpoint_store.go:292-321 | and a larger one accepted and stored exactly if the log shown had the stored root, and rejected as inconsistent otherwise |
| `CheckpointProgress.SameTreeIsAccepted` | log/c2sptlog/checkpoint_store.go:295-299 | the stored tree again is accepted without a swap, another root at its size is a conflict |
| `CheckpointProgress.StoredCheckpointsAreWellFormed` | log/c2sptlog/checkpoint_store.go:412-420 | whatever is stored in a run has its origin, a 32-byte root, an int64 size, a witnessed time in the years 1 to 9999 and the empty root for the empty tree |
| `CheckpointProtocol.AcceptedCheckpointsAreConsistent` | log/c2sptlog/checkpoint_store.go:206-323 | all checkpoints any verifier ever accepted for an origin are pairwise consistent and consistent with the stored one |
| `CheckpointProtocol.OneLogBehindAll` | log/c2sptlog/checkpoint_store.go:206-323 | any log behind the stored checkpoint has every accepted root at the accepted size |
| `CheckpointProtocol.FailedSwapMeansGrowth` | log/c2sptlog/checkpoint_store.go:309-322 | in any run, with any hashes and evidence, a failed swap means that the stored size grew, or a first checkpoint appeared, since the load |
| `CheckpointProtocol.RunsAreInterference` | log/c2sptlog/checkpoint_store.go:260-323 | whatever other verifiers do meanwhile is an interference that the retry loop allows for: valid checkpoints, the same or of larger trees |
| `CheckpointProtocol.RetriesAreBounded` | log/c2sptlog/checkpoint_store.go:265-323 | a verifier with a candidate of size n sees at most n + 1 failed swaps in any run, with any hashes and evidence |
| `Snapshot.SnapshotAt` | log/log.go:438-512 | the loop over events with its boundary flag computes the snapshot |
| `Snapshot.SnapshotCharacterized` | log/log.go:438-512 | a snapshot succeeds exactly if the events up to the time are a nonempty prefix of one domain whose lifecycle is valid, and is the state after that prefix |
| `Snapshot.SnapshotsAreMonotone` | log/log.go:438-512 | for t1 <= t2 successful snapshots are nested prefixes, a terminal state at t1 fixes state and events at t2, and the key at t2 follows from the one at t1 by rotations that each name their predecessor |
| `Snapshot.EarlierFailures` | log/log.go:438-512 | if the snapshot at t2 succeeds, the one at an earlier t1 fails only as empty or non-prefix |
| `Snapshot.KeyFollowsRotations` | log/log.go:475-490 | along any valid history the active key moves only by rotations of the current key |
| `Snapshot.NothingFollowsTerminal` | log/log.go:458-460 | no event is accepted after revocation or retirement |
| `LifecycleRules.LifecycleIsByTheRules` | log/log.go:455-512 | a history has a lifecycle exactly if each of its events is permitted after those before it; the snapshot has its state from the last event, its key, thumbprint and binding time from the last issuance or rotation, and its governance from the first event |
| `LifecycleRules.SnapshotIsByTheRules` | log/log.go:438-512 | a permitted history up to a time has such a snapshot |
| `LifecycleRules.SnapshotObeysTheRules` | log/log.go:438-512 | and nothing else has one |
| `LifecycleRules.CaseIsIgnoredInEveryPlace` | log/log.go:445-447 | domain names are compared letter by letter up to ASCII case |
| `MigrationPath.ValidateMigrationResources` | log/c2sptlog/client.go:302-347 | the loop over the history accepts exactly if the event, depth and byte limits hold and every move passes its check |
| `MigrationPath.AcceptedPathIsSimple` | log/c2sptlog/client.go:302-347 | an accepted path is within the depth limit, and is a contiguous path of distinct logs exactly if no move resumes after an empty target |
| `MigrationPath.SimplePathIsAccepted` | log/c2sptlog/client.go:302-347 | every simple path within the limits is accepted |
| `MigrationPath.EmptyTargetHidesAGap` | log/c2sptlog/client.go:315-334 | an accepted history that is not contiguous, because a migration has an empty new log |
| `MigrationPath.ReplayedPathIsSimple` | log/c2sptlog/signatures.go:272-301 | a history that passes this check and the replay at its latest time is a contiguous path of distinct logs within the depth limit |
| `MigrationPath.NestIsSimplePath` | log/c2sptlog/client.go:263-296 | nested migration contexts form a contiguous path of distinct logs no longer than the outermost depth limit |
| `MigrationPath.DefaultLimits` | log/c2sptlog/client.go:240-252 | zero stands for a depth of 8, 10000 events and 8 MiB, other limits for themselves |
| `PriorEvidence.ValidatePriorEvidence` | log/c2sptlog/client.go:785-835 | accepts exactly evidence whose boundaries match the history, with no index out of bounds, and returns the items without nesting |
| `PriorEvidence.AcceptedEvidencePartitions` | log/c2sptlog/client.go:785-835 | accepted evidence cuts the history into consecutive nonempty segments, one for each distinct log, bounded by the references of their first and last events, with every item complete and active |
| `PriorEvidence.PartitionIsUnique` | log/c2sptlog/client.go:799-825 | there is only one such partition, at the migration events |
| `PriorEvidence.PartitionIsAccepted` | log/c2sptlog/client.go:785-835 | conversely, complete evidence of distinct logs that partitions a history ending at the signed cutoff is accepted |
| `PriorEvidence.FinalEventRefIsInjective` | log/c2sptlog/reference.go:242-246 | references of one log determine the entry index |
| `PriorEvidence.FinalEventRefReads` | log/c2sptlog/reference.go:242-246 | a reference is the log, an at-sign and the index in decimal without leading zeros |
| `MigrationChain.SelectPrefix` | log/c2sptlog/migration.go:50-76 | the imported prefix holds exactly the entries up to the cutoff, in order, and an occurrence at the cutoff, read by itself if the history omits it |
| `MigrationChain.UpToKeepsExactly` | log/c2sptlog/migration.go:53-63 | the selected entries stand at exactly the positions with an index up to the cutoff, each once and in order |
| `MigrationChain.UpToIsPrefix` | log/c2sptlog/migration.go:53-63 | of a history in the order of its indexes the beginning is selected |
| `MigrationChain.RebuildHistoryThrough` | log/c2sptlog/migration.go:97-126 | refuses terminal streams, bad imported evidence and results over the limits on events and bytes; otherwise builds the stitched history, its references with the last one replaced by the cutoff, and the evidence on top of the imported one |
| `MigrationChain.NextHopAccepts` | log/c2sptlog/migration.go:93-113 | what one hop builds is accepted at the next one exactly if the stream has two events or its cutoff is the first occurrence |
| `MigrationChain.CopiedEventIsRefused` | log/c2sptlog/migration.go:108-112 | a well-formed stream of one event, cut off at a later copy of it, whose evidence is refused |
| `MigrationChain.ChainsAgree` | log/c2sptlog/client.go:785-835 | for chains of any length, the last client gets a result exactly if every earlier cutoff is like that, its evidence names the logs of the chain in order, and the next migration accepts it exactly if the last cutoff is too |
| `MigrationChain.HistoryEnd` | log/c2sptlog/client.go:755-771 | all positions are in range and the end is the reference of the snapshot's last event |
| `MigrationChain.HistoryBounds` | log/c2sptlog/client.go:735-772 | a boundary is reported exactly for an active identity with accepted prior evidence, and names the first event of the stitched history and the last event of the snapshot |
| `VerifiedCache.IdentityCache.Find` | cache.go:552-590 | a hit is a copy of the stored entry, an expired entry is told from an absent one |
| `VerifiedCache.IdentityCache.FindOrReap` | cache.go:568-584 | after the lock gap an entry refreshed meanwhile is a hit, and otherwise the expired entry goes and its flag is set |
| `VerifiedCache.IdentityCache.Put` | cache.go:597-638 | the whole new cache: stale and older evidence changes nothing, unstorable evidence removes a manager's entry, other evidence replaces the entry or displaces one of a full cache, setting the flag of what goes |
| `VerifiedCache.IdentityCache.Evict` | cache.go:646-657 | removes the entry and sets its flag |
| `VerifiedCache.StepIsFenced` | cache.go:552-657 | every step keeps set flags set, keeps or sets the token of every entry, attaches a set token nowhere new and keeps the cache within 1024 entries |
| `VerifiedCache.PutRemovesOnly` | cache.go:608-637 | a put removes an entry only to make room or for a manager's unstorable evidence of the same domain, and never puts older evidence in the place of newer |
| `VerifiedCache.PutStores` | cache.go:621-637 | storable evidence that is neither stale nor older is stored as it is; a copy keeps its flag, unset, and new evidence gets a new one; the only flags set are those of a replaced entry with another flag and of the entry displaced from a full cache |
| `VerifiedCache.PutOfUnstorable` | cache.go:612-620 | evidence that is unbounded, expired or without a TTL is never stored; a manager's own removes its entry and sets that flag alone |
| `VerifiedCache.PutIsRefused` | cache.go:598-611 | evidence that is stale, older or without a domain changes nothing |
| `VerifiedCache.RefreshesTakeEffect` | cache.go:597-638 | any number of successive refreshes of one entry all take effect and set no flag |
| `VerifiedCache.LiveFlagsOverRuns` | cache.go:552-657 | as long as copies go back to the key they came from, the flag of every live entry is unset and its own |
| `VerifiedCache.ReachableCaches` | cache.go:552-657 | in every reachable cache there are at most 1024 entries, all with tokens, and every token ever issued is attached to an entry or set |
| `VerifiedCache.StaleSnapshotsAreRefused` | cache.go:597-607 | the fence: a snapshot of an entry that has expired, been replaced, evicted or displaced changes nothing in any later put |
| `VerifiedCache.LiveSnapshotsHaveTheirEntry` | cache.go:597-607 | a snapshot that is not refused finds the entry it was taken from still in place |
| `Coalescing.StepKeepsInv` | identity_manager.go:1315-1384 | every lock section keeps the invariant: registered calls are unfinished and attended, and started after, or have a floor above, everything published for their domain; snapshots stay fenced |
| `Coalescing.RegisteredCallPublishesLatest` | identity_manager.go:1340-1354 | new evidence of a registered call is at least as recent as everything published before, also by publications that only deleted the entry |
| `Coalescing.StepsDoNotRegress` | identity_manager.go:1329-1361 | no step, whether of a registered call, of a copy of a cached entry or of another namespace, stores older evidence than was published |
| `Coalescing.RegressExactly` | identity_manager.go:1329-1361 | the one step that can go back: a call out of the registry publishes something older, and the cache takes it |
| `LatePublication.LateCallsWereDropped` | identity_manager.go:1329-1382 | in every reachable world such a call was cancelled by its last waiter after its worker had passed the cancellation check |
| `LatePublication.EntriesStayLatest` | identity_manager.go:1315-1384 | over every run in which no last waiter leaves a registered call whose worker holds new, publishable evidence that can still be stored later, each entry of the manager holds exactly the latest acquisition ever published |
| `LatePublication.ReachableWorlds` | identity_manager.go:1315-1384 | the invariant holds in every world reachable from an empty manager and cache, and so does the previous statement |
| `LatePublication.HazardCanGoBack` | identity_manager.go:1369-1383 | the other half: after every such departure some continuation publishes newer evidence and then stores the older |
| `LatePublication.DroppedCallStoresOlder` | identity_manager.go:1329-1382 | a run in which a call dropped by its last waiter stores older evidence |
| `Coalescing.DiscardedCallsNeverStore` | identity_manager.go:1578-1593 | a call registered at an eviction or invalidation never stores anything however late it finishes, and an invalidated one never succeeds |
| `Coalescing.DroppedInTimeNeverStores` | identity_manager.go:1330-1334 | a call dropped before its worker is past the cancellation check never stores anything and never succeeds |
| `Coalescing.OvertakenCallsNeverStore` | identity_manager.go:1346-1352 | once a lookup or refresh publishes, calls of the domain that started earlier never store |
| `SharedWork.TwoJoinsShareOneCall` | identity_manager.go:1323-1363 | two callers of the same work share one call, and it goes on when one of them leaves |
| `SharedWork.WaitersAreCounted` | identity_manager.go:1363-1375 | the waiters of a call are those who joined it and have not left |
| `SharedWork.WorkIsDelivered` | identity_manager.go:1337-1359 | every waiter gets what the worker holds, unless the call was invalidated |
| `SharedWork.WorkIsStored` | identity_manager.go:1340-1354 | evidence that may be stored and that no one has overtaken becomes the entry of its domain, with an unset flag |
| `SharedWork.OnlyTheseChangeACall` | identity_manager.go:1341-1380 | a call is superseded only by a discard of its domain or by a later-started lookup or refresh that publishes, its floor rises only to what is published for its domain, only its last waiter cancels it, and only its worker gives it a result |
| `IdentityManagement.IdentityManager.Join` | identity_manager.go:1319-1364 | joins the registered call of the work or registers a new one |
| `IdentityManagement.IdentityManager.Overtake` | identity_manager.go:1341-1352 | the two loops raise the floors and supersede exactly the registered calls of the domain, in any order |
| `IdentityManagement.IdentityManager.Finish` | identity_manager.go:1336-1360 | the worker's last section: verdict, publication, cache insertion and removal from the registry |
| `IdentityManagement.IdentityManager.Leave` | identity_manager.go:1373-1381 | a waiter leaves; the last one drops and cancels the call |
| `IdentityManagement.IdentityManager.Discard` | identity_manager.go:1676-1688 | removes the entry and marks and removes exactly the registered calls of the domain |
| `Unicode.EncodeIsInjective` | log/c2sptlog/json.go:224-240 | text is recovered from its code units in a prefix code, as UTF-8 and UTF-16 are |
| `Unicode.UnitsAreUtf16` | log/c2sptlog/json.go:230-231 | a character is one 16-bit unit or a high and a low surrogate that spell it |
| `Ordering.Compare` | log/c2sptlog/json.go:230-237 | the comparison loop is lexicographic order |
| `Ordering.LessIsLexicographic` | log/c2sptlog/json.go:232-237 | the first different unit decides, and a prefix comes first |
| `Ordering.EnumerationIsUnique` | log/c2sptlog/json.go:224-240 | there is only one sorted enumeration of a set of names |
| `Ordering.SortKeys` | log/c2sptlog/json.go:224-240 | the sorted names do not depend on the iteration order of the map |
| `CanonicalJson.Buffer.WriteString` | log/c2sptlog/json.go:96-129 | appends exactly the quoted string |
| `CanonicalJson.Buffer.WriteValue` | log/c2sptlog/json.go:27-94 | appends exactly the canonical text of the value |
| `CanonicalJson.EscapeReads` | log/c2sptlog/json.go:102-126 | what is written for a character reads, by RFC 8259, as the character |
| `CanonicalJson.EscapeIsShortest` | log/c2sptlog/json.go:102-126 | and it is the shortest text that does, the only one with lower-case digits |
| `CanonicalJson.TextReads` | log/c2sptlog/json.go:27-129 | a reader of RFC 8259 that knows nothing of the writer reads every value from its canonical text |
| `CanonicalJson.CanonicalExample` | log/c2sptlog/json.go:75-89 | an object whose member order differs between UTF-16 units and code points, written without spaces |
| `CanonicalJson.ReadsBack` | log/c2sptlog/json.go:27-129 | a value nested to any depth can be read back from its text in front of anything that ends a value |
| `CanonicalJson.TextIsInjective` | log/c2sptlog/json.go:27-129 | equal canonical texts are texts of equal values |
| `EventEntry.PayloadFromEntry` | log/c2sptlog/event.go:192-214 | accepts exactly a nonempty entry within the size limit that is the canonical form of what it decodes to |
| `EventEntry.CanonicalEntriesAreAccepted` | log/c2sptlog/event.go:192-214 | every entry of at most 65535 bytes that is canonical and has well-shaped signatures is accepted |
| `EventEntry.AcceptedEntriesAreCanonical` | log/c2sptlog/event.go:192-214 | and nothing else is |
| `EventEntry.CanonicalFromEntry` | log/c2sptlog/event.go:129-141 | the signed bytes are the canonical bytes of the payload without its signatures |
| `EventEntry.SignedBytesBindPayload` | log/c2sptlog/event.go:129-141 | two accepted entries have equal signed bytes exactly if their payloads agree on every member except the signatures, whatever decoder read them |
| `EventEntry.PayloadIsDetermined` | log/c2sptlog/event.go:192-214 | an accepted entry has one payload, whatever decoder read it |
| `EventEntry.EventIDsIdentifyPayloads` | log/c2sptlog/event.go:727-733 | where the hash does not collide, event identifiers are equal exactly if the payloads agree except for the signatures |
| `TagText.SplitOfJoin` | identity_record.go:316-327 | parts without the separator are recovered from their join |
| `TagText.ElementRead` | identity_record.go:568-596 | a piece reads as a tag exactly if it is the tag's text, or that text after one space and not first |
| `TagText.RenderingReadsBack` | identity_record.go:564-598 | every way of writing valid distinct tags, with optional spaces and a trailing semicolon, reads back as the tags in order |
| `TagText.ReadTextWasWritten` | identity_record.go:564-598 | every text that is read is one of those ways |
| `TxtRecord.CollectTags` | identity_record.go:219-266 | the tags are the known fields that are set or were parsed, empty ones included, and the extension tags |
| `TxtRecord.TagsOfParsed` | identity_record.go:636-660 | a parsed record has exactly the tags it was parsed from |
| `TxtRecord.ParseTXTRecord` | identity_record.go:559-661 | the parser accepts exactly readable text that starts with the version and has the required tags, a signature and an allowed key age |
| `TxtRecord.TextIsAcceptedExactly` | identity_record.go:559-634 | a text that writes valid tags is accepted exactly if a supported version comes first, the five required tags and the signature are there and the key age is empty or allowed |
| `TxtRecord.ParsedFieldsAreTags` | identity_record.go:636-660 | each field of a parsed record is the value of its wire tag, empty if there is none |
| `TxtRecord.WrittenFieldsAreTags` | identity_record.go:219-266 | each field of a record is written under its wire tag |
| `TxtRecord.MarshalTXT` | identity_record.go:298-306 | the wire form is the version followed by the other tags in order, for complete records of valid syntax only |
| `TxtRecord.MarshalsExactly` | identity_record.go:298-306 | exactly records of a supported version with the required fields, a signature and valid syntax are marshalled |
| `TxtRecord.FormsAreAscending` | identity_record.go:316-351 | both forms are in ascending byte order of the names, the wire form after the version |
| `TxtRecord.MarshalRoundTrip` | identity_record.go:298-325 | parsing what was marshalled succeeds exactly if the key age is empty or allowed, and gives the same tags, unknown and empty ones included |
| `TxtRecord.OrderAndStyleDoNotMatter` | identity_record.go:559-661 | the order of tags, spaces and a trailing semicolon do not change the parsed record nor its signing bytes |
| `TxtRecord.CanonicalText` | identity_record.go:286-293 | the signing form is all tags but the signature, in order of their names for the supported profiles and version first for other records |
| `TxtRecord.SigningBytesBindTags` | identity_record.go:286-293 | for accepted texts, signing bytes are equal exactly if the tags are, the signature apart |
| `TxtRecord.UnsignedIsFixpoint` | identity_record.go:442-557 | the unsigned parser accepts only fixpoints of re-serialization without a signature |
| `TxtRecord.UnsignedAcceptsCanonical` | identity_record.go:463-557 | and it accepts all of them, giving back their tags |
| `TxtRecord.SigningBytesParseBack` | identity_record.go:286-293 | the signing bytes of an accepted record parse back to its tags without the signature |
| `KeyStore.LoadFile` | keyprovider.go:109-138 | reads both file shapes, refuses a repeated kid, and yields one active key and an order that lists every key once |
| `KeyStore.LoadsExactly` | keyprovider.go:109-132 | a file is accepted exactly if no kid occurs twice in it |
| `KeyStore.LoadMeans` | keyprovider.go:109-132 | the parts of a file become the active key, the retained keys and the pending ones, in order |
| `KeyStore.FileHolds` | keyprovider.go:393-421 | a written file holds the active key and exactly the keys of each state in its parts |
| `KeyStore.LoadOfFile` | keyprovider.go:393-431 | a file written from memory loads to the same active key, retained list and pending list |
| `KeyStore.LoadedFilesAreSound` | keyprovider.go:241-262 | whatever file is accepted, exactly one entry is active and every key is listed once |
| `KeyStore.AttemptKeepsInv` | keyprovider.go:618-733 | generation, activation and removal keep that |
| `KeyStore.EffectOnLists` | keyprovider.go:618-733 | a generated key becomes pending, an activated key leaves its list and the previous active key is retained, a removed key leaves its list, and nothing else changes |
| `KeyStore.OrderAfter` | keyprovider.go:618-733 | a generated key comes last, a removed one leaves its place, and nothing else moves |
| `KeyStore.ListsFollowOrder` | keyprovider.go:547-561 | the lists follow the order of insertion |
| `KeyStore.RefusedExactly` | keyprovider.go:618-733 | what is refused: a kid that exists, an unknown one, and the removal of a key in another state |
| `KeyStore.OutcomesMean` | keyprovider.go:643-650 | a failed write leaves memory and file as they were; after any other the operation stands in both |
| `KeyStore.RunsAreCrashConsistent` | keyprovider.go:618-733 | after any operations with any failures before or after publication, reloading the visible file gives the active key, retained list and pending list in memory |
| `KeyStore.LocalKeyProvider.BuildFile` | keyprovider.go:393-421 | the loop over the order puts the entries into the three parts of the file |
| `KeyStore.LocalKeyProvider.GenerateKey` | keyprovider.go:618-651 | adds a pending key and the file follows, or restores the previous state exactly; the reply tells which, and whether the write is durable |
| `KeyStore.LocalKeyProvider.Activate` | keyprovider.go:659-689 | makes the key active and retains the previous one, or restores the previous state exactly; an active key is persisted again; the reply tells which, and whether the write is durable |
| `KeyStore.LocalKeyProvider.Supersede` | keyprovider.go:693-701 | removes retained keys only; the reply tells what became of the write |
| `KeyStore.LocalKeyProvider.Purge` | keyprovider.go:706-733 | removes a key that is not active, or restores keys and order exactly; the reply tells which, and whether the write is durable |
| `KeyStore.LocalKeyProvider.ListKeyIds` | keyprovider.go:547-561 | the active kid, then the retained ones in insertion order |
| `DnsStream.StreamConn.Read` | dns_ttl.go:114-128 | after any read, what was observed and what is pending are the complete frames and the incomplete tail of all bytes received |
| `DnsStream.LengthIsBigEndian` | dns_ttl.go:120 | the length of a message stands before it in two bytes, the most significant first |
| `DnsStream.DeframingIsUnique` | dns_ttl.go:114-128 | a stream has only one decomposition into complete frames and an incomplete tail |
| `DnsStream.ReadBothWays` | dns_ttl.go:114-128 | two connections that read the same bytes, split into reads in any two ways, observe the same messages and keep the same tail |
| `DnsStream.ReceiveAll` | dns_ttl.go:114-128 | messages sent with their lengths, in any chunks, are observed exactly, with nothing pending |

## Left out

- Cryptography: hashes are functions of their inputs, thumbprints and key material are opaque, signatures are not modelled.
- The explicit-proof branch of checkpoint verification: the external RFC 6962 proof verifier is taken to be sound (`EvidenceWithin`).
- Lifecycle signature replay of a log stream, scan sources, policies and reference syntax: a verified stream is taken to start with an issuance or, with imported history, a migration into its log, and to hold no other migration (`WellFormed`).
- The witness quorum, freshness and store errors of checkpoint advancement, and administrative re-baselining of the store, which breaks monotonicity on purpose.
- Cancellation of tile fetches, HTTP statuses beyond found, not found and failed, and the 64-bit shift of tile levels above 7, which the tile sizes never reach.
- HashTiles.VerifyTileConsistency: the server is one function of the requested path, because no path is requested twice in one verification.
- MigrationChain.RebuildHistoryThrough: takes the encoded size of a result as a function, and leaves out the occurrence proof that the result carries.
- MigrationChain.ChainsAgree: speaks of results within the limits on events and bytes.
- MigrationPath.ValidateMigrationResources: takes the encoded size as a number.
- Snapshot.SnapshotAt: domain names are compared by ASCII case, and keys by their thumbprints.
- VerifiedCache.IdentityCache.Put: entries are values with numbered tokens in place of shared flags, so deep copies and aliasing of an entry's other fields are not captured.
- IdentityManagement.IdentityManager.Finish: calls are values in a list, identified by position, in place of shared references; contexts and channels are the fields `cancelled` and `result`.
- Verification without a context, which runs the work by itself and stores nothing.
- Verification policies, status fetching and DNS evidence themselves: a worker returns new evidence acquired since its call started, or a copy of a cached entry.
- CanonicalJson.ReadsBack: a number written with a fraction or an exponent is given by that numeral; that the standard library prints distinct float64 values differently is taken as given.
- EventEntry.PayloadFromEntry: the JSON decoder, with its conversion of numbers to float64, is an arbitrary function, and the lifecycle fields of a payload are not interpreted.
- TxtRecord.MarshalRoundTrip: speaks of the tag map, since flags that contain commas are split differently when parsed.
- TxtRecord.CollectTags: a record that is absent altogether is not modelled.
- KeyStore.LocalKeyProvider.Supersede: its check and its removal are two lock sections in the source and one step here; the second section by itself is Purge.
- KeyStore.LocalKeyProvider.Activate: entries are values, so the change of state through a shared reference is a map update; stores without a file are not modelled.
- HTTP, DNS, TLS and registry clients, cloud key services, configuration, OIDC, request signatures, and the examples: plumbing around the modelled parts or grammars of outside libraries.
