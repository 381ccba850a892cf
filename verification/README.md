# Verified model of beacon-scale-infra

This project states in Dafny what the distributed parts of beacon-scale-infra rely on, and proves it: the
publication of index snapshots to an object store and their restore by concurrent readers, the incremental indexer
on top, distributed indexing with global document ids, the crawl protocol with its queue, claims and rate limiters,
and the caches of the search service. `dafny verify dfyconfig.toml` checks everything.

Where the program changes state in place, the model has a class with the same fields and methods, and each method is
tied to a function of the old state; what the program promises is then proved about these functions. Where several
processes interleave, each request is one step, and the statements are about every run. Times are integers; SHA-256
and URL hashes are functions that are assumed to be free of collisions only where a member says so.

## Modules

- **Snapshots** (`ObjectStore`, `Snapshot`, `SnapshotPublisher`, `SnapshotSafety`, `SnapshotRestore`,
  `SnapshotReaders`, `VersionCodec`). The publisher class records every request to the store in a log. A crash cuts the
  log anywhere; a reader makes its requests at any later positions; a publication that fails without a crash keeps what
  its process remembers. Names of files are never reused with other contents only where a lemma asks for it.
- **Incremental indexing** (`IndexUpdates`, `Indexer`, `OrderedDict`). `SegmentedIndex` belongs to another package:
  its documents are a map, `add_documents` updates it, `delete_urls` removes keys and `maybe_merge` keeps it. What it
  leaves on disk is a parameter, from which its documents are read again: a function of the manifest and its files.
- **Queue and crawl** (`MessageQueue`, `CrawlGraph`, `CrawlWorker`, `CrawlCluster`, `CrawlOrders`). One worker is the
  imperative program on the queue class; any number of workers are a machine whose steps are single requests. What a
  visit to a URL comes to is a fixed web.
- **Rate limiters** (`RedisRateLimiter`, `MemoryRateLimiter`). The clients of Redis are state machines over single
  commands with version counters for WATCH, and may die at any point. Whether a client's own write after WATCH aborts
  its transaction is left open, and the results hold either way.
- **Batch indexing** (`Bisect`, `DocIdRanges`, `InvertedIndex`, `IndexMerge`, `CorpusLines`, `CorpusCatalog`,
  `IndexPipeline`, `SnippetResolver`). `IndexBuilder` belongs to another package: a document's id is its position,
  postings ascend, a document frequency is a number of postings, and statistics are taken in one pass over the
  documents. The average length is kept as the pair of sum and count.
- **Extraction** (`ExtractWorker`, `ExtractUpdates`, `ExtractTeam`, `CorpusHandover`, `ExtractedCorpus`, `Decimal`). Reading and
  extracting a page is a parameter. Several workers on one store take turns; what they sent, in whatever order, is what
  the indexing pipeline starts from.
- **Caches** (`CacheStore`, `ClusterView`, `ShardCluster`, `SearchCache`). Shard replicas start, announce themselves,
  restart and leave between any two requests of a search; which build an answer came from nobody can see.
- **Link graph** (`LinkGraph`), and what several modules share (`Collections`, `Lex`, `Wrappers`).

## Where the program does less than its documentation says

- `src/beacon_scale_infra/incremental/snapshot.py:192-195` promises a complete restore or an explicit error. A segment
  whose files are all deleted before it is listed lists as empty, and nothing is raised: two further publications of
  one process, or one after a restart, can do that (`NoGraceForTwoGenerations`, `NoGraceAfterRestart`), and so can one
  after a publication that failed behind its commit (`GraceAfterInterruptionIff`). Readers whose requests land anywhere
  during a publication all end with a complete copy or an error exactly if it keeps all files of their snapshot or
  deletes a tombstone file first (`ReadersDuringPublicationAreServedIff`; over whole runs
  `ReadersDuringRunAreServedIff`).
- `src/beacon_scale_infra/crawl/rate_limiter.py:18-23` says that the delay gate lets at most one request start per
  delay. It spaces passes, not grants (`TwoGrantsAtOnce`): grants are apart by the delay less the time that a client
  takes from the gate to its lease, and no closer bound holds (`GrantsAreSpaced`, `LatenessIsLost`,
  `OneRequestPerDelayIff`); in the long run grants keep the rate (`GrantsKeepTheRate`). The semaphore bounds the
  holders of unexpired leases exactly if no clock is ahead (`HoldersAreBoundedIff`): otherwise there can be any number
  of them (`AnySkewLetsAnyNumberIn`).
- Several crawl workers can end without a URL that lies within the maximum depth (`TwoWorkersCanMissAPage`). No
  number of them can exactly if every order in which the web can be crawled covers it (`EveryRunIsCompleteIff`), for
  which it is enough that pages reached early have no way as long as the maximum depth (`NoDetoursMeansComplete`).
- `src/beacon_scale_infra/console/routes/search.py:125-128` says that a cached entry is what the shards would answer
  now. The number of shards is compared, not their ids, and a shard may fail to answer (`HitMatchesFanOutIff`); a
  replica may restart on another build between its announcement and its answer (`KeptAnswersAreOfTheVersionIff`).
- `src/beacon_scale_infra/extract/partitioning.py:14-17` says that parts are never overwritten. A worker that starts
  again under its old name counts from 0 again. The pipeline notices exactly if a part with documents is left whose
  number was not used again (`RestartIsAcceptedIff`); otherwise all documents of the earlier run are lost silently
  (`AcceptedRestartLosesEverything`). Names with a slash can intrude on one another
  (`DocumentKeyLiesInPartitionIff`), which the pipeline notices (`MismatchFiresIff`), and the order of keys breaks at
  the millionth part (`KeyOrderIsWriteOrderIff`).

## Model

| member | source | states |
|---|---|---|
| SnapshotPublisher.SnapshotPublisher.RemoteFiles | src/beacon_scale_infra/incremental/snapshot.py:114-120 | the first call takes the listing of the store; later calls return the remembered set, whatever the store holds |
| SnapshotPublisher.SnapshotPublisher.UploadMissing | src/beacon_scale_infra/incremental/snapshot.py:133-142 | requests exactly the puts for names the store does not hold, and the remembered set grows by all names |
| SnapshotPublisher.SnapshotPublisher.HashFiles | src/beacon_scale_infra/incremental/snapshot.py:144-146 | a hash is taken at most once per process and name; a remembered one is reused |
| SnapshotPublisher.SnapshotPublisher.CollectGarbage | src/beacon_scale_infra/incremental/snapshot.py:169-173 | deletes, in ascending order, exactly what the store holds beyond the names to keep |
| SnapshotPublisher.SnapshotPublisher.CleanUpPhase | src/beacon_scale_infra/incremental/snapshot.py:169-177 | keeps the new files, those of the publication before and the three fixed objects; forgets the hashes of the rest |
| SnapshotPublisher.SnapshotPublisher.Publish | src/beacon_scale_infra/incremental/snapshot.py:122-178 | succeeds exactly if the local manifest can be read and its segment directories exist; then the request log grows by the legal sequence uploads, manifest, pointer, marker, deletions, and the version is that of the local files as long as remembered hashes are theirs; the store then holds this manifest, a pointer to it and a marker with this version, all files of the manifest and what is kept of the publication before; a refused call requests nothing |
| SnapshotPublisher.SnapshotPublisher.PublishBefore | src/beacon_scale_infra/incremental/snapshot.py:147-161 | a reader polling the manifest during a publication sees the old snapshot or the new one, and the new one last |
| SnapshotPublisher.MissingIsDifference | src/beacon_scale_infra/incremental/snapshot.py:130-142 | skipping what is there uploads exactly the sorted difference of the two sets of names |
| SnapshotPublisher.ReadersFindOldOrNew | src/beacon_scale_infra/incremental/snapshot.py:133-161 | the manifest is the old one before its put and the new one ever after: the commit is one request |
| Snapshot.NamesOfPublication | src/beacon_scale_infra/incremental/snapshot.py:133-173 | a publication uploads exactly what its manifest references and the store lacks, never a fixed object, and deletes exactly what is neither referenced, nor kept for grace, nor a fixed object |
| Snapshot.StoreShape | src/beacon_scale_infra/incremental/snapshot.py:133-178 | what the store holds after any number of the requests of one publication: file by file, and manifest, pointer and marker, each as it was before its put and from then on with its exact contents |
| Snapshot.AllRequestsPublish | src/beacon_scale_infra/incremental/snapshot.py:133-174 | after its last request the store holds the manifest, the pointer with its hash and version, the marker with the version, the referenced files, those kept for grace, and nothing else |
| SnapshotSafety.EventKeepsComplete | src/beacon_scale_infra/incremental/snapshot.py:114-178 | no prefix of one publication, complete, given up after an error or cut off by a crash, leaves the published manifest with a missing file |
| SnapshotSafety.EveryStoreIsComplete | src/beacon_scale_infra/incremental/snapshot.py:107-178 | in every state of every run with errors, crashes and restarts anywhere, the published manifest is in the store together with every file it references |
| SnapshotSafety.NothingElseSurvives | src/beacon_scale_infra/incremental/snapshot.py:169-174 | after a completed publication the store holds its files, what it keeps of the publication before, and nothing else |
| SnapshotSafety.PublishedIsLocalIff | src/beacon_scale_infra/incremental/snapshot.py:133-142 | since a name already there is never uploaded again, what is published is the local copy exactly if those names held the same bytes |
| SnapshotSafety.SurvivesPublicationIff | src/beacon_scale_infra/incremental/snapshot.py:169-174 | files of an earlier snapshot outlive a publication exactly if it references them or they belong to the one before it |
| SnapshotSafety.GraceAfterInterruptionIff | src/beacon_scale_infra/incremental/snapshot.py:147-174 | a publication that raises or dies after its commit has no grace: its files outlive the next one exactly if that references them, or, after an error, the last success did |
| SnapshotSafety.GraceKeepsFiles | src/beacon_scale_infra/incremental/snapshot.py:169-174 | within one process all files of snapshot k stay, with their bytes, until publication k+2 starts deleting |
| SnapshotRestore.ListSegments | src/beacon_scale_infra/incremental/snapshot.py:216-221 | lists each segment in whatever state the store is in then |
| SnapshotRestore.FetchFiles | src/beacon_scale_infra/incremental/snapshot.py:222-232 | succeeds exactly if every wanted file is still there when it is asked for, and then returns those bytes |
| SnapshotRestore.RestoreSnapshot | src/beacon_scale_infra/incremental/snapshot.py:181-235 | lists all segments before it fetches any file; with the writer moving on between any two requests, nothing is published exactly without a manifest, and all files listed are restored exactly if the directory is empty, the manifest is the expected one and every file was there when asked for; anything else is refused |
| SnapshotRestore.DownloadInGraceIsExact | src/beacon_scale_infra/incremental/snapshot.py:189-235 | a restore that read manifest k and ends before publication k+2 deletes anything is an exact copy of snapshot k under every interleaving |
| SnapshotRestore.PointerRestoreIsConsistent | src/beacon_scale_infra/vertical/bundle.py:80-100 | a reader that demands the hash from the pointer is refused or holds exactly the manifest and files its version was computed from |
| SnapshotReaders.EveryReaderIsServedIff | src/beacon_scale_infra/incremental/snapshot.py:189-235 | in any history in which files of a snapshot do not come back: all its readers, whose requests land anywhere one after the other, end with a complete copy or an error exactly if no store of the history lacks some of its files but none of its tombstone files |
| SnapshotReaders.ReadersDuringPublicationAreServedIff | src/beacon_scale_infra/incremental/snapshot.py:169-235 | for readers that overlap a publication anywhere: exactly if it keeps all files of their snapshot, or the least name among those it deletes, the first to go, is that of a tombstone file |
| SnapshotReaders.ReadersDuringEventAreServedIff | src/beacon_scale_infra/incremental/snapshot.py:122-235 | the same for a publication that is cut off or fails after any of its requests, about what it has deleted by then |
| SnapshotReaders.ReadersDuringRunAreServedIff | src/beacon_scale_infra/incremental/snapshot.py:107-235 | the same over any run of publications, failures and restarts: exactly if the first file of the snapshot to be deleted, should there be one, is a tombstone file |
| SnapshotReaders.CompleteAfterPublicationIff | src/beacon_scale_infra/incremental/snapshot.py:192-235 | for readers that come when a publication is over: exactly if it keeps all files of the snapshot or drops some tombstone file of it |
| SnapshotRestore.NoGraceAfterRestart | src/beacon_scale_infra/incremental/snapshot.py:107 | one publication of a restarted writer can already leave a reader with an empty copy and no error |
| SnapshotRestore.NoGraceForTwoGenerations | src/beacon_scale_infra/incremental/snapshot.py:192-221 | two publications of one process can do so too, although the documentation promises an explicit error |
| VersionCodec.ComputeVersion | src/beacon_scale_infra/incremental/snapshot.py:71-80 | feeding the digest name by name hashes the encoding of the manifest and the sorted names with their hashes |
| VersionCodec.DecodableIffClean | src/beacon_scale_infra/incremental/snapshot.py:76-79 | the bytes that are hashed can be read back exactly if neither manifest nor names nor hashes hold a NUL |
| VersionCodec.NulCollides | src/beacon_scale_infra/incremental/snapshot.py:78 | with a NUL in a manifest two different snapshots feed the digest the same bytes |
| VersionCodec.VersionIsContent | src/beacon_scale_infra/incremental/snapshot.py:71-80 | equal versions mean the same manifest and the same hash for every file |
| IndexUpdates.PayloadRoundTrip | src/beacon_scale_infra/incremental/models.py:33-67 | a payload reads back as the update it was made of, and as nothing if that update is not valid |
| IndexUpdates.OnlyWrittenIsRead | src/beacon_scale_infra/incremental/models.py:33-67 | a payload is read as an update exactly if it is what writing that update gives and the update is valid |
| IndexUpdates.CoalesceUpdates | src/beacon_scale_infra/incremental/indexer.py:55-64 | popping and reinserting leaves the latest update of each URL, split into documents and deletions in order of arrival |
| IndexUpdates.CoalescedIsLastPerUrl | src/beacon_scale_infra/incremental/indexer.py:55-64 | the batch holds for every URL its last update and no other |
| IndexUpdates.BatchIsOneByOne | src/beacon_scale_infra/incremental/indexer.py:165-186 | all documents and then all deletions of a coalesced batch give the live map of applying the updates one by one |
| IndexUpdates.AnyCutIsTheStream | src/beacon_scale_infra/incremental/indexer.py:132-186 | however the stream is cut into batches, the live map is that of the whole stream |
| IndexUpdates.ReplayIsHarmlessIff | src/beacon_scale_infra/incremental/indexer.py:150-186 | applying updates again changes nothing exactly if the last of them for each URL is what is live |
| IndexUpdates.ReplayOfASuffix | src/beacon_scale_infra/incremental/indexer.py:132-198 | re-applying any suffix of what was applied, cut in any way, leaves the live map unchanged |
| IndexUpdates.StaleReplayResurrects | src/beacon_scale_infra/incremental/indexer.py:150-186 | re-applying an older part can bring a deleted document back |
| Indexer.IncrementalIndexer.ApplyMessages | src/beacon_scale_infra/incremental/indexer.py:150-198 | for every URL the last valid message about it decides whether it is live and with which document, a URL without one is as before, and exactly the messages of the batch are acknowledged, valid or not; each request is a moment of its own; readers find the old documents and then the new ones if the local copy shows them and names are fresh |
| Indexer.UpdatesFollowLastWords | src/beacon_scale_infra/incremental/indexer.py:55-64 | reading the messages in order and applying what they ask for leaves each URL as its last valid message says |
| Indexer.IncrementalIndexer.ApplyCoalescedBatch | src/beacon_scale_infra/incremental/indexer.py:165-198 | documents, index, publication, removals and acknowledgements happen in this order, each a moment that others may observe |
| Indexer.IncrementalIndexer.PublishIndex | src/beacon_scale_infra/incremental/indexer.py:190-192 | its moments are what readers find after each request; these are the documents of the old snapshot and then of the local index, and the latter at the end, if the local copy shows them and names are fresh |
| Indexer.IncrementalIndexer.DropDocuments | src/beacon_scale_infra/incremental/indexer.py:193-196 | removes a document only if its URL is not live in the index any more |
| Indexer.EveryMomentIsCovered | src/beacon_scale_infra/incremental/indexer.py:166-198 | at no moment of a batch is a URL live, locally or in the published snapshot, without its document in the store |
| Indexer.EveryReachableMomentIsCovered | src/beacon_scale_infra/incremental/indexer.py:90-198 | nor over any number of batches with crashes between any two steps and restarts from the local copy or the published snapshot, if names of files are not used again for other bytes; what readers find is derived from the store |
| Indexer.EveryMomentFromTheFirstIsCovered | src/beacon_scale_infra/incremental/indexer.py:90-198 | in particular over all that ever happens from an empty store on |
| Indexer.ReadersFindOldOrNewDocuments | src/beacon_scale_infra/incremental/indexer.py:190-192 | as long as no file name is used again for other bytes, readers find the documents of the old snapshot before the manifest is replaced and those of the new one from then on |
| Indexer.LifeKeepsConsistent | src/beacon_scale_infra/incremental/indexer.py:90-198 | after a batch that is cut anywhere and a restart from the local copy or from the store, what readers find is again what the store says |
| Indexer.AckedIsPublished | src/beacon_scale_infra/incremental/indexer.py:190-198 | a message is acknowledged only after the last request of the publication, when deleted documents are gone, and if names are fresh readers then find the whole batch |
| Indexer.DoneIsFaithful | src/beacon_scale_infra/incremental/indexer.py:166-196 | once a batch is done, the store holds for every live URL exactly the document that is indexed, none that it deleted, and otherwise what it held before |
| Indexer.WithoutStoreDocumentsStand | src/beacon_scale_infra/incremental/indexer.py:166-198 | without a document store configured no document is ever written or removed |
| MessageQueue.InMemoryMessageQueue.EnsureGroup | src/beacon_scale_infra/queue/memory.py:50-52 | creates the group at the beginning of the stream, and leaves one that exists alone |
| MessageQueue.InMemoryMessageQueue.Publish | src/beacon_scale_infra/queue/memory.py:54-61 | appends one entry under the next number |
| MessageQueue.InMemoryMessageQueue.Consume | src/beacon_scale_infra/queue/memory.py:92-106 | hands out the entries next to the cursor, as many as asked for or all that are left, moves the cursor past them and marks them pending; an unknown group is an error |
| MessageQueue.InMemoryMessageQueue.Ack | src/beacon_scale_infra/queue/memory.py:108-116 | takes one message off the pending ones of its group, and is void for what is not there |
| MessageQueue.GroupReceivesThePublishedPrefix | src/beacon_scale_infra/queue/memory.py:50-116 | for any interleaving a group has received the published prefix up to its cursor, each message once and in order, and pending is delivered minus acknowledged |
| MessageQueue.GroupsDoNotInterfere | src/beacon_scale_infra/queue/memory.py:50-116 | dropping all calls that concern other groups and streams changes nothing that a group received or holds pending |
| CrawlWorker.InMemorySharedDeduplicator.TryClaim | src/beacon_scale_infra/crawl/dedup.py:55-61 | one test and set: won exactly by the first caller |
| CrawlWorker.CrawlWorker.ProcessJob | src/beacon_scale_infra/crawl/worker.py:170-245 | a job is dropped if claimed; otherwise it is claimed and, if fetched, leaves one page and its links one level deeper at the end of the queue |
| CrawlWorker.CrawlWorker.ProcessBatch | src/beacon_scale_infra/crawl/worker.py:139-144 | a batch is processed oldest first, up to the page cap |
| CrawlWorker.CrawlWorker.Poll | src/beacon_scale_infra/crawl/worker.py:116-144 | a poll comes back empty only if no job is left, and otherwise claims a URL or uses up work |
| CrawlWorker.CrawlWorker.Run | src/beacon_scale_infra/crawl/worker.py:107-146 | a single worker terminates, having claimed exactly the URLs within the maximum depth or crawled as many pages as its cap allows, and never more; in any case each claim is at its distance, and whatever is nearer than a claimed URL is claimed |
| CrawlWorker.ProcessIsLayered | src/beacon_scale_infra/crawl/worker.py:170-222 | claims never get deeper than what waits, and what waits spans two levels |
| CrawlWorker.ProcessIsClosed | src/beacon_scale_infra/crawl/worker.py:170-245 | seeds and links of claimed pages stay claimed or waiting at no greater depth |
| CrawlWorker.EmptyWorkIsExact | src/beacon_scale_infra/crawl/worker.py:107-222 | with no work left, exactly the URLs within the maximum depth are claimed, at their distances |
| CrawlWorker.ClaimsAreNearestFirst | src/beacon_scale_infra/crawl/worker.py:107-222 | at every moment claims are at their distances, and nothing nearer than a claimed URL is left out |
| CrawlCluster.StepKeepsClaims | src/beacon_scale_infra/crawl/worker.py:170-174 | only the worker that claimed a URL fetches it, and once |
| CrawlCluster.StepIsSound | src/beacon_scale_infra/crawl/worker.py:170-245 | every depth stored anywhere is the length of a real link path and at most the maximum |
| CrawlCluster.StepLosesNothing | src/beacon_scale_infra/crawl/worker.py:139-245 | a URL that was published is claimed, queued, or in the hands of a worker |
| CrawlCluster.EveryReachableClusterIsGood | src/beacon_scale_infra/crawl/worker.py:107-245 | in every reachable state of any number of workers: one fetch and at most one page per URL, real depths, nothing lost |
| CrawlCluster.StepMakesProgress | src/beacon_scale_infra/crawl/worker.py:107-245 | every request uses up an unclaimed URL, or work, or patience |
| CrawlCluster.EveryRunEnds | src/beacon_scale_infra/crawl/worker.py:107-146 | whatever the scheduler does, all workers stop, in a state with all of these properties |
| CrawlCluster.StopsWhenIdleLongEnough | src/beacon_scale_infra/crawl/worker.py:116-131 | in every run a worker has stopped exactly if it has polled an empty queue so many times in a row as it is configured to |
| CrawlCluster.AtTheEndLinksAreClaimed | src/beacon_scale_infra/crawl/worker.py:139-245 | at the end the queue is empty, and seeds and links of pages below the maximum depth are claimed |
| CrawlCluster.CompleteIffNothingCutShort | src/beacon_scale_infra/crawl/worker.py:219-222 | of a run that has ended: it claimed every URL within the maximum depth exactly if no page was stored at the maximum depth although a shorter way leads to it, with a link that nobody claimed |
| CrawlCluster.TwoWorkersCanMissAPage | src/beacon_scale_infra/crawl/worker.py:139-222 | two workers can end with a URL at distance 2 unclaimed under a maximum depth of 2 |
| CrawlOrders.EveryRunIsACrawl | src/beacon_scale_infra/crawl/worker.py:107-245 | a run that has ended amounts to a crawl order, in which each page is a seed or linked one level above, and has claimed exactly what that order claims |
| CrawlOrders.EveryCrawlCanHappen | src/beacon_scale_infra/crawl/worker.py:107-245 | every crawl order of the web, from any seeds and with any batch size, is what some run of enough workers comes to, page by page |
| CrawlOrders.EveryRunIsCompleteIff | src/beacon_scale_infra/crawl/worker.py:139-222 | any number of workers always claim every URL within the maximum depth exactly if every crawl order of the web does |
| CrawlOrders.NoDetoursMeansComplete | src/beacon_scale_infra/crawl/worker.py:219-222 | nothing is missed if no URL with links that can be reached early can also be reached by a way as long as the maximum depth |
| RedisRateLimiter.LeasesNeverExceedCapacity | src/beacon_scale_infra/crawl/rate_limiter.py:183-205 | for all interleavings of the commands, deaths, retries with a stale reading and clocks whatever, the lease set never exceeds the capacity |
| RedisRateLimiter.HoldersNeverExceedCapacity | src/beacon_scale_infra/crawl/rate_limiter.py:183-211 | clients whose lease runs for longer than the clock skew never exceed the capacity; with one shared clock, all holders of unexpired leases |
| RedisRateLimiter.ReleaseFreesOnlyItsOwn | src/beacon_scale_infra/crawl/rate_limiter.py:207-211 | giving back a lease, expired or not, takes that one away and no other |
| RedisRateLimiter.AttemptAloneSucceedsIff | src/beacon_scale_infra/crawl/rate_limiter.py:183-205 | an attempt nobody disturbs needs at most one retry and succeeds exactly if, by its own clock, a lease is free |
| RedisRateLimiter.EveryRunKeepsGate | src/beacon_scale_infra/crawl/rate_limiter.py:168-181 | passes through the gate are spaced by the delay each asked for, and every grant used up a pass |
| RedisRateLimiter.GrantsKeepTheRate | src/beacon_scale_infra/crawl/rate_limiter.py:161-181 | so grants number at most one per delay of elapsed time, plus one |
| RedisRateLimiter.AnySkewLetsAnyNumberIn | src/beacon_scale_infra/crawl/rate_limiter.py:183-205 | with clocks apart by any amount, for every capacity any number of clients can hold unexpired leases at the same time |
| RedisRateLimiter.HoldersAreBoundedIff | src/beacon_scale_infra/crawl/rate_limiter.py:24-33 | in all runs with clocks ahead by at most so much, holders of unexpired leases stay within the capacity, or within any bound, exactly if that is zero |
| RedisRateLimiter.GrantsAreSpaced | src/beacon_scale_infra/crawl/rate_limiter.py:161-205 | if each client has its lease at most so much later than its pass through the gate, grants are apart by the delay less that lateness |
| RedisRateLimiter.LatenessIsLost | src/beacon_scale_infra/crawl/rate_limiter.py:161-205 | the bound is reached for every lateness up to the delay |
| RedisRateLimiter.OneRequestPerDelayIff | src/beacon_scale_infra/crawl/rate_limiter.py:18-23 | requests of a domain start at most one per delay in every run exactly if clients are never late |
| RedisRateLimiter.TwoGrantsAtOnce | src/beacon_scale_infra/crawl/rate_limiter.py:18-23 | with a lateness of one delay two grants happen at the same instant, although the gate is documented to let one request start per delay |
| MemoryRateLimiter.InMemoryCoordinatedRateLimiter.ExpireStaleLeases | src/beacon_scale_infra/crawl/rate_limiter.py:119-123 | deletes exactly the leases that have run out |
| MemoryRateLimiter.InMemoryCoordinatedRateLimiter.TryAcquire | src/beacon_scale_infra/crawl/rate_limiter.py:106-116 | grants exactly if the delay has passed and fewer unexpired leases than the capacity are left |
| MemoryRateLimiter.InMemoryCoordinatedRateLimiter.Acquire | src/beacon_scale_infra/crawl/rate_limiter.py:100-117 | refuses a negative delay, and without one takes the default; otherwise, whatever other tasks do between its readings of the clock, it is let through at the first reading at which it may go then, and at none before |
| MemoryRateLimiter.AloneIsWaited | src/beacon_scale_infra/crawl/rate_limiter.py:104-117 | a task that nobody disturbs ends in the state that waiting reading by reading comes to |
| MemoryRateLimiter.InMemoryCoordinatedRateLimiter.Release | src/beacon_scale_infra/crawl/rate_limiter.py:125-128 | takes the token away from its domain and nothing else |
| MemoryRateLimiter.EveryRunIsGood | src/beacon_scale_infra/crawl/rate_limiter.py:100-128 | spacing, fresh tokens, listed live grants and the capacity hold in every run under a monotone clock |
| MemoryRateLimiter.GrantsKeepTheirDelay | src/beacon_scale_infra/crawl/rate_limiter.py:107-113 | each grant comes at least its delay after every earlier grant of the domain |
| MemoryRateLimiter.LiveGrantsNeverExceedCapacity | src/beacon_scale_infra/crawl/rate_limiter.py:110-116 | grants that have neither run out nor been given back never exceed the capacity |
| MemoryRateLimiter.GrantedIff | src/beacon_scale_infra/crawl/rate_limiter.py:106-116 | in every run a task is let through exactly if its delay has passed since all earlier grants of the domain and fewer of them than the capacity have neither run out nor been given back |
| MemoryRateLimiter.ReleaseFreesOnlyItsOwn | src/beacon_scale_infra/crawl/rate_limiter.py:125-128 | a token that is unknown, has run out or belongs to another domain frees nothing |
| MemoryRateLimiter.DomainsDoNotInterfere | src/beacon_scale_infra/crawl/rate_limiter.py:104-117 | waiting for one domain changes nothing for another |
| MemoryRateLimiter.WaitsNoLongerThanNeeded | src/beacon_scale_infra/crawl/rate_limiter.py:105-117 | an undisturbed task is let through at the first reading at which it may go |
| Bisect.BisectRight | src/beacon_scale_infra/index/doc_id_ranges.py:79 | the insertion point after everything not greater, by halving |
| Bisect.InsertionPointIsTheOnlyCandidate | src/beacon_scale_infra/index/doc_id_ranges.py:78-82 | among ranges that do not overlap the one before the insertion point is the only one that can hold the position |
| Bisect.InsertionPointFindsTheRange | src/beacon_scale_infra/index/doc_id_ranges.py:78-82 | and without gaps it does so exactly for the positions below the total |
| DocIdRanges.ComputeDocIdRanges | src/beacon_scale_infra/index/doc_id_ranges.py:85-105 | one pass over the partitions by ascending key gives each its range after those before it, in the order of keys |
| DocIdRanges.RangesAreDense | src/beacon_scale_infra/index/doc_id_ranges.py:9-11 | the ranges follow one another without gap or overlap, from 0 to the number of documents |
| DocIdRanges.OneRangeEach | src/beacon_scale_infra/index/doc_id_ranges.py:94-103 | one range of the right size for every partition with documents, none for any other |
| DocIdRanges.PartitionFor | src/beacon_scale_infra/index/doc_id_ranges.py:75-82 | for any ascending ranges the last one that does not start after the id decides; without overlap that is the range of the id, and without gaps every id below the total has one and any other is an error |
| InvertedIndex.RemapIsBuildFrom | src/beacon_scale_infra/index/partition_indexer.py:55-105 | shifting the ids of a build gives the build with ids counted from the offset; only a negative offset is refused |
| InvertedIndex.PostingsCountedBothWays | src/beacon_scale_infra/index/merge.py:102-103 | postings added up term by term are as many as documents contribute one by one |
| InvertedIndex.LengthsCountedBothWays | src/beacon_scale_infra/index/merge.py:104-106 | lengths added up record by record are the length of all documents |
| InvertedIndex.PostingsAscend | src/beacon_scale_infra/index/partition_indexer.py:86-90 | postings of a build ascend strictly and stay within its ids |
| InvertedIndex.PostingsAreOccurrences | src/beacon_scale_infra/index/partition_indexer.py:86-90 | a term has one posting for every document in which it occurs, with frequency and positions, and no other |
| IndexMerge.EnsureStrictlyIncreasingRanges | src/beacon_scale_infra/index/merge.py:34-45 | accepts exactly the lists in which every id of an earlier index is below every id of a later one |
| IndexMerge.UnionDocuments | src/beacon_scale_infra/index/merge.py:62-71 | the union of the documents, refused exactly if some id occurs twice |
| IndexMerge.MergeLists | src/beacon_scale_infra/index/merge.py:63-84 | for every term the concatenation of its postings in the order of the indexes, with their number |
| IndexMerge.ComputeStats | src/beacon_scale_infra/index/merge.py:93-114 | sums over the merged dictionaries, in whatever order they are taken |
| IndexMerge.MergePartitionIndexes | src/beacon_scale_infra/index/merge.py:48-90 | fails exactly on lists out of order, and otherwise is the merge of all parts |
| IndexMerge.IncreasingMeetsNoIdTwice | src/beacon_scale_infra/index/merge.py:67-70 | after the range check the check for duplicate ids cannot fire |
| IndexMerge.MergedPostingsAscend | src/beacon_scale_infra/index/merge.py:11-21 | after the range check concatenation keeps every posting list strictly ascending |
| IndexMerge.MapReduceIsOneBuild | src/beacon_scale_infra/index/merge.py:48-114 | building each partition, shifting and merging gives exactly the index of one build over all documents: records, postings, frequencies and statistics |
| CorpusLines.TerminatingAddsNoLine | src/beacon_scale_infra/index/corpus_catalog.py:187-188 | the inserted line feed adds no line, also after a carriage return |
| CorpusLines.LinesEndAtBreaks | src/beacon_scale_infra/index/corpus_catalog.py:217 | a line goes up to a line feed, a carriage return or both, which belong to no line |
| CorpusLines.StripTakesSpaceOnly | src/beacon_scale_infra/index/corpus_catalog.py:218-220 | stripping takes white space away at both ends and nothing else |
| CorpusLines.DocumentLinesAppend | src/beacon_scale_infra/index/corpus_catalog.py:185-189 | documents of a concatenation of terminated parts are those of the parts, one part after the other |
| CorpusLines.UnterminatedPartsRunTogether | src/beacon_scale_infra/index/corpus_catalog.py:187-188 | without the line feed two documents become one |
| CorpusCatalog.ScanPartLines | src/beacon_scale_infra/index/corpus_catalog.py:210-235 | fails exactly if some document line does not parse; counts the document lines and finds the latest time stamp |
| CorpusCatalog.LatestIsNewest | src/beacon_scale_infra/index/corpus_catalog.py:228-234 | no document is newer than the time stamp found, and some document bears it |
| CorpusCatalog.ListDocumentPartKeys | src/beacon_scale_infra/index/corpus_catalog.py:147-160 | exactly the keys of the partition's document parts, ascending |
| CorpusCatalog.MaterializePartitionWithParts | src/beacon_scale_infra/index/corpus_catalog.py:163-207 | fails exactly if a part cannot be read or parsed; otherwise the copy, the entries with consecutive ranges and the latest time stamp of all parts |
| CorpusCatalog.ContentHoldsTheRecords | src/beacon_scale_infra/index/corpus_catalog.py:184-188 | the copy ends with a line feed, and its documents are those of the parts in order |
| CorpusCatalog.DescribesOnePartition | src/beacon_scale_infra/index/pipeline.py:96-98 | adding the parts that are not empty keeps a catalog in which each part holds its stretch of all documents |
| CorpusCatalog.PartFor | src/beacon_scale_infra/index/corpus_catalog.py:102-109 | for any ascending parts the last one that does not start after the id decides; without overlap that is the part of the id, and without gaps every id below the total has one and any other has none |
| IndexPipeline.IndexPartition | src/beacon_scale_infra/index/pipeline.py:73-116 | succeeds exactly if the parts can be read and their count is the manifest's; the partial index is that of the copied documents from the start of the range |
| IndexPipeline.GatherPartitions | src/beacon_scale_infra/index/pipeline.py:70-116 | over all partitions corpus, catalog, time stamp and partial indexes stay in step |
| IndexPipeline.Run | src/beacon_scale_infra/index/pipeline.py:59-139 | succeeds exactly if every counted partition is good; then line n of the corpus, document n of the index, with its terms, and the catalog are of the same record, the index is one build over the corpus, and every part is listed under the partition that the catalog names |
| IndexPipeline.BuildIsOfTheRecords | src/beacon_scale_infra/index/partition_indexer.py:55-105 | an index built over the records has record n as document n, with the terms, frequencies and positions that analysing it gives, and nothing else |
| SnippetResolver.ParsePartDocuments | src/beacon_scale_infra/console/snippets.py:131-154 | one document per line that is not blank, or nothing if one does not parse |
| SnippetResolver.PartitionedSnippetResolver.DocumentsOfPart | src/beacon_scale_infra/console/snippets.py:104-128 | the documents of the file if cached or readable; the part asked for becomes the last to go, and only the oldest goes, when the bound is reached |
| SnippetResolver.PartitionedSnippetResolver.Resolve | src/beacon_scale_infra/console/snippets.py:77-102 | for any ascending catalog and every history of lookups: what the file of the last part that does not start after the id says, or nothing if that does not hold the id or is out of reach; without overlap that is the part of the id |
| SnippetResolver.CatalogIsExact | src/beacon_scale_infra/console/snippets.py:77-102 | with a catalog that describes the documents, that is the document at that position, and ids outside have no part |
| SnippetResolver.ResolvingAgreesWithTheCorpus | src/beacon_scale_infra/index/pipeline.py:103-107 | for what a run published, document n is line n of the corpus, and the resolver takes its catalog |
| ExtractWorker.BodyHoldsTheLines | src/beacon_scale_infra/extract/worker.py:183-189 | splitting a written part gives back the lines that went into it |
| ExtractWorker.KeyOrderIsWriteOrderIff | src/beacon_scale_infra/extract/partitioning.py:28-33 | keys of the first n parts sort in the order of writing exactly if n is at most a million |
| ExtractWorker.DocumentKeyLiesInPartitionIff | src/beacon_scale_infra/extract/partitioning.py:28-33 | a document part is listed under a worker exactly if it is its own, or the other name goes on after this one as the keys of document parts do |
| ExtractWorker.DiscardedKeyLiesInPartitionIff | src/beacon_scale_infra/extract/partitioning.py:36-41 | a part of discarded pages is listed among document parts of a worker exactly in the second case |
| ExtractWorker.OthersKeysStayOut | src/beacon_scale_infra/extract/partitioning.py:3-12 | no key of another worker lies in this worker's partition, unless its name intrudes like this |
| ExtractWorker.PlainNamesDoNotIntrude | src/beacon_scale_infra/extract/partitioning.py:3-12 | names without a slash never do |
| ExtractWorker.ExtractWorker.Flush | src/beacon_scale_infra/extract/worker.py:170-232 | sends nothing if nothing is buffered; otherwise, in this order, the document part, its index updates, the part of discarded pages under the same number and the manifest with the new totals, and the buffers are empty |
| ExtractWorker.ExtractWorker.ProcessJob | src/beacon_scale_infra/extract/worker.py:132-168 | the page joins its buffer, and what is sent is the flush that is due, if one is |
| ExtractWorker.ExtractWorker.ProcessBatch | src/beacon_scale_infra/extract/worker.py:115-121 | the messages of a batch are processed in order, all of them unless the page cap is reached |
| ExtractWorker.ExtractWorker.Run | src/beacon_scale_infra/extract/worker.py:83-124 | polls until so many polls in a row came back empty for the first time or the page cap is reached; all pages handed out until then have been processed in order, or a first part of them if the cap is reached, which is never exceeded; ends with a last flush, and what it sent is, in order, what these events send |
| ExtractWorker.ProducedLineByLine | src/beacon_scale_infra/extract/worker.py:132-168 | the documents produced are the lines of the extracted pages, in the order of the pages |
| ExtractWorker.PartsAndBufferAreWhatWasProduced | src/beacon_scale_infra/extract/worker.py:132-232 | after any events the document parts in order, followed by the buffer, are the documents produced so far, and parts and manifest are in step |
| ExtractWorker.RunsEndInStep | src/beacon_scale_infra/extract/worker.py:83-124 | after a run all documents are in parts, nothing else was written, and the manifest counts them |
| ExtractUpdates.UpdatesAreWhatWasWritten | src/beacon_scale_infra/extract/worker.py:195-203 | with a stream for index updates each document that is written is announced once, in the order of writing; without one nothing is |
| ExtractUpdates.EveryUpdateIsBacked | src/beacon_scale_infra/extract/worker.py:193-203 | wherever the worker is cut off, every update that it has published is of a document in a part that it has written |
| ExtractUpdates.BuffersAreFlushedInTime | src/beacon_scale_infra/extract/worker.py:132-168 | fewer pages are kept back than it takes to flush, and a page causes requests only when it completes that number |
| ExtractUpdates.DiscardsAreWhatWasDiscarded | src/beacon_scale_infra/extract/worker.py:205-219 | parts of discarded pages in order, followed by the buffer, are the pages discarded so far; each part was sent under its number, and the total counts them |
| ExtractUpdates.TotalsCountThePages | src/beacon_scale_infra/extract/worker.py:221-232 | after a run the manifest fragment counts exactly the documents produced, the pages discarded and the flushes |
| CorpusHandover.PartsAreListedInOrder | src/beacon_scale_infra/index/corpus_catalog.py:147-160 | listing a partition by key gives its parts in the order of writing |
| CorpusHandover.PartitionIsWhatWasProduced | src/beacon_scale_infra/index/corpus_catalog.py:163-207 | the documents the pipeline reads from a partition are those its worker produced, in order |
| CorpusHandover.InterleavingIsHarmless | src/beacon_scale_infra/extract/partitioning.py:3-12 | in any interleaving a worker's partition and manifest fragment are what it sent itself |
| CorpusHandover.EveryPartitionIsLeftBehind | src/beacon_scale_infra/extract/worker.py:83-232 | of any set of workers that have ended each that is not intruded upon leaves exactly its own parts, with all documents it produced, and a manifest fragment that counts them |
| ExtractedCorpus.DocumentKeyHasOneOwner | src/beacon_scale_infra/extract/partitioning.py:28-41 | nobody else ever writes to the key of a worker's document part, whatever its name |
| ExtractedCorpus.MismatchFiresIff | src/beacon_scale_infra/index/pipeline.py:89-95 | for any set of workers with any names, in any interleaving: the check of the manifest against a partition fires exactly if a worker whose name intrudes on its name has written a part |
| ExtractedCorpus.MismatchCannotFire | src/beacon_scale_infra/index/pipeline.py:89-95 | so with names without slashes it never does |
| ExtractTeam.ExtractTogether | src/beacon_scale_infra/extract/worker.py:83-124 | workers with distinct names that take turns on one store, in any order of turns, each process the pages of their own turns, up to their caps, and amount to such a set with its interleaving |
| ExtractedCorpus.IndexWhatWasExtracted | src/beacon_scale_infra/index/pipeline.py:59-139 | indexing what workers left succeeds exactly if no worker that produced documents is intruded upon; then, up to a million parts each, document n of the index is document n of all they produced |
| CorpusHandover.RestartIsAcceptedIff | src/beacon_scale_infra/extract/worker.py:79-82 | when a worker starts again under its name, the pipeline accepts its partition exactly if the numbers of all earlier parts with documents were used again |
| CorpusHandover.AcceptedRestartLosesEverything | src/beacon_scale_infra/extract/partitioning.py:14-17 | and what it then reads are the documents of the later run only: those of the earlier one are lost without an error |
| CorpusHandover.RestartWithoutDocumentsIsLeftOut | src/beacon_scale_infra/index/doc_id_ranges.py:94-103 | a later run that wrote only discarded pages takes the worker off the count, and its partition is not looked at |
| CacheStore.InMemoryCacheStore.Get | src/beacon_scale_infra/cache/memory.py:43-55 | only the last value set, before it expires; nothing only if it expired or as many other keys as the bound were used since |
| CacheStore.InMemoryCacheStore.Set | src/beacon_scale_infra/cache/memory.py:57-64 | the entry is the newest, expired ones go first when there is one too many, then the least recently used |
| CacheStore.InMemoryCacheStore.EvictIfNeeded | src/beacon_scale_infra/cache/memory.py:66-77 | brings the store back to its bound: beyond it all expired entries go, nothing else goes unless the store is then full, and only what has long been unused |
| CacheStore.UsingKeepsInv | src/beacon_scale_infra/cache/memory.py:50-64 | deleting and reinserting keeps the entries in the order of their last use |
| CacheStore.DroppingKeepsInv | src/beacon_scale_infra/cache/memory.py:66-77 | an entry that expired, or is the oldest of too many, may go |
| CacheStore.OldestIsLongUnused | src/beacon_scale_infra/cache/memory.py:75-77 | when the oldest goes, at least as many other keys as the bound were used since |
| CacheStore.FoundUnlessGone | src/beacon_scale_infra/cache/memory.py:43-77 | an unexpired entry is found as long as fewer other keys than the bound were used since |
| ClusterView.ChooseShardInstances | src/beacon_scale_infra/query/shard_discovery.py:72-85 | one replica per shard that has any, the one with the least service id, by shard; a replica without usable shard id is an error |
| ClusterView.ViewOfReplica | src/beacon_scale_infra/console/cluster_search.py:116-123 | what one replica adds: one of another version only to the mismatched shards, any other a target, and one that announces no version an unverified shard as well |
| ClusterView.ViewsJoin | src/beacon_scale_infra/console/cluster_search.py:112-128 | a view is made replica by replica, in the order in which they were chosen |
| ClusterView.Classify | src/beacon_scale_infra/console/cluster_search.py:112-128 | the view of the chosen replicas: each of another version is mismatched and left out, and every other is a target |
| ClusterView.TargetsAreDistinct | src/beacon_scale_infra/console/cluster_search.py:115-123 | no two targets serve the same shard |
| ShardCluster.Cluster.Discover | src/beacon_scale_infra/registry/local.py:52-63 | the listed replicas, each with the marker that the process at its address had when it announced itself |
| ShardCluster.ListedIff | src/beacon_scale_infra/registry/local.py:35-63 | a replica is listed exactly from its announcement until it leaves, with what it announced last |
| ShardCluster.Cluster.Ask | src/beacon_scale_infra/console/cluster_search.py:130-142 | an answer comes from the build of the process that has the address at that moment |
| ShardCluster.ServesAnotherIff | src/beacon_scale_infra/query/shard_replica_service.py:89-162 | the process at an announced address serves another build than the one asked for exactly if the last one to start there since the announcement did, or none started and the announcer never served it |
| SearchCache.ComposeShardStatuses | src/beacon_scale_infra/console/routes/search.py:59-88 | one status for every expected shard, an error for those not found or mismatched |
| SearchCache.KeptResponsesComeFromWholeCluster | src/beacon_scale_infra/console/routes/search.py:129-203 | a search that keeps its response has an answer from each expected shard and from no other, each by the only replica chosen for it, which announced this version |
| SearchCache.KeptResultsCoverAllShards | src/beacon_scale_infra/console/routes/search.py:147-177 | the results of a kept response are composed from one list of hits for each shard of the deployment, in their order, each as some process serving that shard found it |
| SearchCache.HitMatchesFanOutIff | src/beacon_scale_infra/console/routes/search.py:125-135 | a hit is the very response that asking the shards of the present view would give exactly if it was made for as many shards, the shards of the view are the expected ones, and every target answers |
| SearchCache.CompleteViewMayMissEveryShard | src/beacon_scale_infra/console/routes/search.py:129-135 | a view with the right number of shards can hold none of the expected ones |
| SearchCache.KeptAnswersAreOfTheVersionIff | src/beacon_scale_infra/console/cluster_search.py:106-142 | all answers in a kept response are from the build it is kept under exactly if no chosen replica started on another build between its announcement and its answer, or had announced a marker that was not that of its files |
| SearchCache.AnOtherBuildMayBeKept | src/beacon_scale_infra/console/cluster_search.py:106-142 | a run in which a replica restarts in between, and an answer of another build is kept |
| SearchCache.KeysAreInjective | src/beacon_scale_infra/console/cache.py:41-47 | keys are equal exactly if version, query digest and limit are |
| SearchCache.SearchResultCache.Set | src/beacon_scale_infra/console/cache.py:75-82 | degraded responses are not stored, and failures store nothing |
| SearchCache.SearchResultCache.Meanwhile | src/beacon_scale_infra/console/cache.py:49-82 | whatever starts, restarts or leaves in the cluster, every entry stays the response of a search of this run from a complete view of one version |
| SearchCache.SearchReplica.Begin | src/beacon_scale_infra/console/routes/search.py:123-135 | a hit exactly if the view is complete and cacheable, the cache is up and it has the key, and then the entry, which was kept under this version, query digest and limit by a search of a whole cluster; an unusable shard id is an error |
| SearchCache.SearchReplica.AskNext | src/beacon_scale_infra/console/cluster_search.py:130-142 | one request of the fan-out, with whatever process has the address by then |
| SearchCache.SearchReplica.Finish | src/beacon_scale_infra/console/routes/search.py:177-204 | the results are composed from the hits of every target, in their order; the status of each expected shard is that of its answer, or an error; degraded exactly if there is no target or some status is an error; stored exactly if a key was found and it is not degraded |
| LinkGraph.StepKeepsInv | src/beacon_scale_infra/pagerank/link_graph_materializer.py:90-114 | every key taken from the shared iterator is in one task's hands or has been handled once; file and counters agree with that |
| LinkGraph.OrderDoesNotMatter | src/beacon_scale_infra/pagerank/link_graph_materializer.py:88-117 | in any order the same keys give the same lines as a multiset and the same counts |
| LinkGraph.LinesAndCountsAreOfPages | src/beacon_scale_infra/pagerank/link_graph_materializer.py:90-117 | a line is written as often as there are pages with this URL and these links, and each counter counts the pages of its kind |
| LinkGraph.TheEndIsExact | src/beacon_scale_infra/pagerank/link_graph_materializer.py:88-123 | every key is handled exactly once, one line per good page, and the counters add up to the number of keys |
| LinkGraph.MaterializeLinkGraph | src/beacon_scale_infra/pagerank/link_graph_materializer.py:54-123 | all of this for every interleaving exactly if the bound is not negative or there are no keys: the file has the line of every good page, once for each, and the counters count pages; a negative bound reads nothing |

## Left out

- Object storage, Redis, Consul, HTTP, the command line and configuration checks: plumbing around the protocols.
- The inside of `SegmentedIndex`, `IndexBuilder`, `SearchCoordinator`, text extraction, scoring and reranking: other
  packages, replaced by the contracts above. An index builder is taken to split lines as the catalog does.
- JSON encoding and decoding: a parser from lines to documents is a parameter; a line that parses to something other
  than an object is not part of this model.
- Redelivery of messages: neither queue redelivers; replaying updates is shown to be harmless, not to happen.
- Crawl and extract workers that crash with messages in hand, which the program documents as lossy, and the rate
  limiter inside the crawl model: a visit takes no time there.
- Blocking waits of `consume` and workers configured never to stop: a poll is one step, and idle polls are counted. What the
  polls of an extract worker return is a parameter: a list of batches, after which they come back empty.
- The document store shares its bucket with the index: its prefix is taken to lie outside the index prefix, since the
  garbage collection of the publisher would otherwise delete documents.
- One URL normalisation per hash: URLs stand for their hashes in the deduplicator.
- `write_page` and the extract stream of the crawler, notices in log files, run statistics other than those named.
- Delays below one millisecond, for which the Redis limiter asks for an expiry of zero and fails.
- The two requests for the same part that overlap in the snippet resolver: lookups follow one another in the model, so
  that the order of eviction under overlap is not captured.
- Redis as a cache store, the registry of time-to-live values, response serialisation, bundle staging and pruning,
  index compression and the upload of the built index.
- CrawlCluster.CompleteIffNothingCutShort: the condition is about the pages a run ended with; `CrawlOrders` has the
  conditions on the web.
- RedisRateLimiter.HoldersNeverExceedCapacity: a client that works longer than its lease is not counted as a holder.
- SnapshotPublisher.SnapshotPublisher.Publish: of a local copy that lacks a file its manifest names, which
  `SegmentedIndex` does not leave behind, it says nothing; the publication that then fails half-way is an event of
  `SnapshotSafety`.
- Indexer.IncrementalIndexer.ApplyMessages: that the local copy shows exactly the updated documents and uses no file
  name again is the contract of `SegmentedIndex`; what readers find is tied to the batch under this condition only.
- A request to the store that takes effect although it raises: afterwards the remembered set of names would differ
  from the store's, which the model does not have.
- SearchCache.HitMatchesFanOutIff: ranking and snippets are a function of the answers; a result that is dropped because
  its snippet cannot be read for a while is not part of this model, nor are two searches with equal digests.
- ShardCluster.ServesAnotherIff: a replica keeps the shard it was started for; only builds change.
