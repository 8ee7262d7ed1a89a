# A model of the hybrid P2P CDN

This project models the parts of the system where operations meet: the tracker's
control plane and the daemons' gates, the tracker's store with its caches, the
download pipeline (peers first, HTTP as the fallback, verification last), the
seeder's reverse index, the request limiter and the persistent seeding list. It
proves what holds over every run of them, and where the code falls short of its
own promise it gives the run and the exact condition.

| file | part |
|---|---|
| `Gate.dfy` | the pause gate of a daemon: generations of channels |
| `ControlTypes.dfy`, `ControlProtocol.dfy`, `ControlPlane.dfy` | tracker commands, registrations and daemons, as a step relation over all interleavings and as sequential objects |
| `TrackerStore.dfy` | tables, two caches with time-to-live, the cleaner |
| `RateLimiter.dfy` | the fixed-window limiter |
| `Protocol.dfy`, `Chunker.dfy` | chunking and reassembly |
| `HttpFetch.dfy`, `WorkerPool.dfy`, `Downloader.dfy` | HTTP fetching, the parallel worker pool, the whole download |
| `Seeder.dfy`, `SeederInterleaving.dfy` | the seeder run sequentially, and with its two lock sections interleaved |
| `SeedingState.dfy` | the seeding list and its crash-safe save |
| `EndToEnd.dfy` | one file through seeder, tracker and downloader |
| `Wrappers.dfy` | option and result types |

`dafny verify dfyconfig.toml` checks everything.

## How to read it

Code that the program runs step by step under a lock is a class or a method
here, proved equal to a function of the old state; what the source promises is
then proved about that function over all runs. Where several goroutines share
state (`ControlProtocol`, `WorkerPool`, `SeederInterleaving`) every critical
section is an action, a schedule is a sequence of actions, and the theorems are
about every schedule; `ControlProtocol.UninterruptedCommand` and its neighbours tie the
actions back to the sequential objects.

For each part there is also a law that says the result in terms of inputs and
operations alone, independently of how a step is defined: what the gate, the tracker's state, the tables, the
query and the seeder are after any run (`GateFollowsOperations`,
`LastMessageDecidesState`, `FilesAreRegistrations`, `PeersAreAnnounces`,
`GetPeersListsAnnounces`, `SeederIsItsOperations`), when a chunk, a retry, a pool
and a load succeed (`DownloadChunk`, `RetrySucceedsIff`, `ErrorsAreGiveUps`,
`LoadSucceedsIff`), and that the whole does (`DownloadByHashSucceeds`,
`SeededFileArrives`, `SeededFileArrivesFromOrigin`).

SHA-256 is a function parameter. Where equal digests must mean equal bytes, the
lemma says so for the byte strings concerned (`NoCollision`). Responses, refused
and torn writes, read errors, timeouts and cancellations are parameters with
every value allowed, so each theorem holds for all of them. Clocks are integers:
seconds in the store, milliseconds in the limiter, where the tracker's stamp of a
request and its arrival at Redis are two numbers in any relation.

Results that differ from what the program or its documentation suggests:

- A resume or a bandwidth change can be lost for good: when a broadcast overtakes
  the replay of a registration (`OvertakenReplayWins`), or when a paused daemon
  reconnects (`ResumeIsLostOnReconnect`). A pause cannot (`NoLostPause`).
  `ConvergesExactly` says precisely when a daemon at rest agrees with the tracker.
- The repository's README says that a failed peer transfer is made good over
  HTTPS. A completed transfer with the wrong result is not: the failed
  verification ends the download without trying the origin. Per download, exactly
  if the peers complete and the parts that the chunk list names do not make up the
  file (`OriginIsSkippedIff`). As a condition on the metadata, the promise is kept
  exactly if two chunks are equal, so that the peers never complete, or the parts
  do make up the file (`FallbackPromiseIff`). The empty list breaks it
  (`NoChunkListNoFallback`), and so does a list with another file's chunk
  (`WrongChunkListNoFallback`).
- A response that breaks off before its announced length is accepted as a chunk.
  The file is then the origin exactly if every byte that no write delivered is
  zero (`RightIffMissingBytesAreZero`), and otherwise the result can be nil all
  the same: for every origin that is not all zeros there is a run that leaves
  nothing but zeros (`TruncationGoesUnnoticed`). A 200 with the whole file is
  accepted for every chunk, which is right exactly for a single chunk or a file
  that repeats itself (`WholeAnswersAreRightIff`). The final hash is what protects
  the user.
- A daemon announces its files one at a time, and each announce replaces the
  peer's whole set, so all are listed only if they are one
  (`OneByOneKeepsOnlyTheLast`).
- `reachable` keeps the value of the announce that created a peer's row
  (`ReachableIsFirstNatType`).
- Blocks are stored without being checked against their identifier, and a put cut
  short leaves a torn block there (`LoadKeepsStoreSoundIff`), which no later load
  repairs (`TornBlockIsNeverRepaired`).
- When files share a block, removing one takes the block out of the index for the
  others (`SharedBlockIsLost`); exactly then (`RemoveKeepsCoveredIff`).
- Overlapping add and remove of one file can leave stale or missing index entries
  (`StaleEntriesCanRemain`, `EntriesCanBeLost`), but never a wrong credit. For
  disjoint files the index is right exactly while, for each file, the last change
  to begin and the last to finish are of the same kind (`IndexIsRightIff`).
- The limit per clock minute can be exceeded by requests that reach Redis late:
  exactly if more than the limit came and one of them arrived two minutes or more
  after the first (`WindowLimitKeptIff`); one such request is enough for every
  limit (`LateRequestExceedsLimit`).
- The reconnect delay passes 30 seconds and is 32: exactly after five failed dials
  since the last connection, or six since the start (`WaitExceedsThirtyIff`,
  `WaitReachesThirtyTwo`).

## Model

| member | source | states |
|---|---|---|
| `GateModel.WaitReturnsIffGateWasOpen` | pkg/daemon/gate.go:20-49 | over every run of pauses and resumes, a waiter can return nil if and only if the gate was open at some moment between its call and its return; so a released waiter stays released after an immediate pause |
| `GateModel.GateFollowsOperations` | pkg/daemon/gate.go:14-49 | in every run from a new gate: paused exactly if the last operation was a pause; a waiter can pass exactly if the last operation before it was a resume, or there was none, or a resume came since |
| `GateModel.After` | pkg/daemon/gate.go:14-49 | after every run the gate is paused exactly if its current channel is open, and every superseded channel is closed |
| `GateModel.ChannelsOnlyClose` | pkg/daemon/gate.go:33-49 | no channel disappears and a closed one stays closed |
| `GateModel.Gate.constructor` | pkg/daemon/gate.go:14-18 | a new gate is open, with one closed channel |
| `GateModel.Gate.Pause` | pkg/daemon/gate.go:33-40 | pausing an open gate installs a fresh open channel, pausing a paused one changes nothing; superseded channels stay closed and all generations distinct |
| `GateModel.Gate.Resume` | pkg/daemon/gate.go:42-49 | resuming closes the current channel, and only an open one is ever closed |
| `GateModel.Gate.WaitChannel` | pkg/daemon/gate.go:20-23 | a waiter gets the channel of the current generation |
| `GateModel.Select` | pkg/daemon/gate.go:25-30 | nil only on a closed channel, the context error only if it is done, and blocked exactly if neither |
| `ControlTypes.MessageEffect` | pkg/tracker/control.go:92-129 | a message sets exactly the setting it is about, to the value it carries, in the tracker's state and in the daemon alike |
| `ControlTypes.LastMessageDecidesState` | pkg/tracker/control.go:92-129 | after any commands each field of the tracker's state is what the last command about it says |
| `ControlTypes.LastMessageDecidesDaemon` | pkg/daemon/tracker_ws.go:117-155 | after any messages each gate and the limit of a daemon are what the last message about it says |
| `ControlTypes.ReplayCoversState` | pkg/tracker/control.go:49-61 | the replay mentions a setting exactly if the state differs from what a fresh daemon does, once, and with the value read |
| `ControlTypes.ReplayRestores` | pkg/tracker/control.go:49-61 | a fresh daemon that has applied the replay of a state is as the state says, field by field |
| `ControlTypes.EveryBlockFitsTheBurst` | pkg/storage/ratelimited.go:62-78 | non-positive rates mean no limiter; otherwise the burst admits every block |
| `ControlProtocol.StepKeepsInv` | pkg/tracker/control.go:40-154 | every critical section of commands, registrations, disconnects and daemons keeps the protocol invariant |
| `ControlProtocol.ConvergesExactly` | pkg/tracker/control.go:40-154 | for a daemon in any condition before it connected: at rest a setting agrees with the tracker if and only if a command wrote last, or the replay wrote last and its value is still wanted, or nothing was written and the daemon had come with the default |
| `ControlProtocol.NoLostPause` | pkg/tracker/control.go:40-118 | in every interleaving, once the operator is idle and a live registered connection is drained, a paused tracker means a paused gate |
| `ControlProtocol.FreshDaemonConverges` | pkg/tracker/control.go:49-61 | a daemon that comes with a setting at its default agrees with the tracker on it unless a command changed it between the registration's state read and the replay send of that setting |
| `ControlProtocol.OvertakenReplayWins` | pkg/tracker/control.go:49-61 | the condition is needed: for every setting, every older value that differs from the default and every newer value there is a run in which a fresh daemon rests with the older one |
| `ControlProtocol.ResumeIsLostOnReconnect` | pkg/tracker/control.go:53-58 | a paused daemon that reconnects after a resume stays paused, without any overlap |
| `ControlProtocol.UninterruptedCommand` | pkg/tracker/control.go:131-154 | a command that nothing interrupts reaches every live connection in the map once and no other, in whatever order the map is walked |
| `ControlProtocol.UninterruptedRegistration` | pkg/tracker/control.go:40-62 | a registration that nothing interrupts sends the replay of the state and touches no other connection |
| `ControlPlaneModel.ControlPlane.Command` | pkg/tracker/control.go:92-129 | the new state; the message is written once to every connection in the map, and exactly it arrives on each that is still up |
| `ControlPlaneModel.ControlPlane.Broadcast` | pkg/tracker/control.go:131-154 | the broadcast loop writes the message once to each connection of the map; a failed write adds nothing |
| `ControlPlaneModel.ControlPlane.RegisterDaemon` | pkg/tracker/control.go:40-62 | the connection joins the map and the replay of the state is written to it in full; a connection that breaks gets a prefix |
| `ControlPlaneModel.ControlPlane.UnregisterDaemon` | pkg/tracker/control.go:64-73 | exactly this connection leaves the map |
| `ControlPlaneModel.DaemonServer.ApplyCommand` | pkg/daemon/tracker_ws.go:117-155 | gates and limiter change as the message says, through the gate objects |
| `ControlPlaneModel.DaemonServer.ReadLoop` | pkg/daemon/tracker_ws.go:93-115 | the loop applies the commands in order and skips everything else |
| `ControlPlaneModel.LastFrameDecides` | pkg/daemon/tracker_ws.go:93-155 | after any frames a daemon's gates are what the last frame about each says, whatever else was on the wire |
| `ControlPlaneModel.Reconnect` | pkg/daemon/tracker_ws.go:39-90 | the waits of the loop: one second at the start and after a lost connection; after a failed dial twice the wait before unless that was 30 seconds or more |
| `ControlPlaneModel.WaitsAreBounded` | pkg/daemon/tracker_ws.go:60-62 | between 1 and 32 seconds |
| `ControlPlaneModel.WaitExceedsThirtyIff` | pkg/daemon/tracker_ws.go:60-62 | the wait passes 30 seconds if and only if five dials failed since the last connection or six since the start, and is 32 seconds then |
| `ControlPlaneModel.WaitReachesThirtyTwo` | pkg/daemon/tracker_ws.go:60-62 | a run with a lost connection and one without that reach it |
| `TrackerStore.GetPeersIsFreshEnough` | pkg/tracker/store.go:295-331 | in every run, cached or not: nobody the query would list is hidden; every peer listed has a row and was seen less than six minutes ago; dropping withdrawn and aged records leaves exactly the query; the list is ordered |
| `TrackerStore.GetFileIsLookup` | pkg/tracker/store.go:197-227 | in every run GetFile, cached or not, is the table lookup |
| `TrackerStore.RegisteredIsFound` | pkg/tracker/store.go:156-195 | registering then asking returns what was registered whatever was cached; the creation time survives a second registration; other files are unaffected |
| `TrackerStore.FilesAreRegistrations` | pkg/tracker/store.go:156-195 | in every run a file has a row exactly if it was registered, and the row says what its last registration said |
| `TrackerStore.AnnounceIsAtomic` | pkg/tracker/store.go:229-293 | success exactly if every hash is registered; then the peer's rows are exactly the announced hashes, it is listed for each, and no other peer is touched; otherwise nothing changes |
| `TrackerStore.PeersAreAnnounces` | pkg/tracker/store.go:229-346 | in every run a peer has a row exactly if it announced itself successfully and no cleaner ran more than ten minutes later; its row and file rows are those of its last successful announce, whatever was registered since |
| `TrackerStore.QueryIsRecentAnnounces` | pkg/tracker/store.go:305-313 | in every run the query lists a peer exactly if its last successful announce lists the file and is less than five minutes old, with what it announced |
| `TrackerStore.GetPeersListsAnnounces` | pkg/tracker/store.go:295-331 | in every run, cached or not: such a peer is listed with what it announced, and whoever is listed announced the file like that less than six minutes ago |
| `TrackerStore.AnswersFromOperations` | pkg/tracker/store.go:156-346 | in every run GetFile answers with the last registration, an announce succeeds exactly if every hash was registered, and the cleaner reports how many peers went |
| `TrackerStore.AlwaysReferential` | pkg/tracker/store.go:88-98 | both foreign keys hold in every reachable state, cascades included, and no row is dated in the future |
| `TrackerStore.CleanupKeepsAnswers` | pkg/tracker/store.go:333-346 | the cleaner removes exactly the peers not seen for ten minutes and changes no query answer |
| `TrackerStore.OneByOneKeepsOnlyTheLast` | pkg/client/tracker.go:88-93 | announcing files one at a time leaves only the last registered one listed; all registered ones are listed if and only if they are the same |
| `TrackerStore.ReachableFollowsNatTypeOnlyIf` | pkg/tracker/store.go:241-250 | after an announce `reachable` agrees with the NAT type if and only if the row was new or already said so |
| `TrackerStore.ReachableIsFirstNatType` | pkg/tracker/store.go:241-250 | in every run `reachable` is the NAT type of the announce that created the peer's present row, since which the row was never gone |
| `TrackerStore.Store.RegisterFile` | pkg/tracker/store.go:156-195 | the upsert and the cache deletion are the register step, and the peer tables are not touched |
| `TrackerStore.Store.GetFile` | pkg/tracker/store.go:197-227 | cache, table, cache fill are the lookup step |
| `TrackerStore.Store.AnnouncePeer` | pkg/tracker/store.go:229-293 | the transaction with its two loops is the atomic announce step |
| `TrackerStore.Store.GetPeers` | pkg/tracker/store.go:295-331 | cache, query, cache fill are the peers step |
| `TrackerStore.Store.CleanupStalePeers` | pkg/tracker/store.go:333-346 | the deletion with its cascade and count is the cleanup step |
| `TrackerStore.OrderByLastSeen` | pkg/tracker/store.go:305-313 | every row once, latest seen first |
| `EndToEnd.LookupGivesMetadata` | pkg/tracker/handler.go:135-177 | in any run of the store, registering a file and looking it up later gives back its metadata through the casts of handler and client |
| `RateLimiterModel.DecisionIsRank` | pkg/tracker/server.go:254-318 | while no request of the window comes two minutes after its first, a request passes exactly if limiting is off, Redis failed, or it is among the first N counted requests of its client in its clock minute |
| `RateLimiterModel.PromptIsOnTime` | pkg/tracker/server.go:278-279 | requests counted inside their minute or the next one never outlive the key, in any order |
| `RateLimiterModel.CounterIsExact` | pkg/tracker/server.go:264-279 | after every run, in whatever order and however late requests reach Redis, the counter is the number of requests counted since the one that created it, and expires two minutes after that one |
| `RateLimiterModel.DecisionIsRankInLife` | pkg/tracker/server.go:254-318 | on every request of every run: it passes exactly if limiting is off, Redis failed, or it is among the first N counted in the life of the counter it meets |
| `RateLimiterModel.WindowBound` | pkg/tracker/server.go:281-306 | in every run a client gets at least one and at most N requests of a clock minute through the counter for each life of its key |
| `RateLimiterModel.OnTimeWindow` | pkg/tracker/server.go:281-306 | while the key has one life: as many as came, up to N |
| `RateLimiterModel.WindowLimitKeptIff` | pkg/tracker/server.go:264-306 | for every run and limit: no more than N are admitted if and only if no more than N came or none of them reached Redis two minutes or more after the first |
| `RateLimiterModel.LateRequestExceedsLimit` | pkg/tracker/server.go:264-279 | for every limit N there is a run in which N + 1 requests stamped in one minute are admitted |
| `RateLimiterModel.SlidingBound` | pkg/tracker/server.go:254-318 | in every run, at most N for each life of the two counters that a half-open minute meets; at most 2N while those keys have one life each |
| `RateLimiterModel.SlidingBoundIsTight` | pkg/tracker/server.go:264-266 | for every N there is a run that admits 2N within two milliseconds |
| `RateLimiterModel.Limiter.Admit` | pkg/tracker/server.go:261-318 | the middleware's decision and counters are the handling step |
| `ChunkerModel.Chunker.constructor` | pkg/storage/chunker.go:22-33 | the size is clamped to the protocol's bounds and otherwise kept |
| `ChunkerModel.ChunkReader` | pkg/storage/chunker.go:51-102 | fails exactly if a read fails before the end; otherwise the metadata describe the file: each entry the bytes at its place, the whole covered, indices and count in 32 bits |
| `ChunkerModel.TilingShape` | pkg/storage/chunker.go:77-86 | offsets follow on, only the last chunk is short, none is empty, sizes add up to the file |
| `ChunkerModel.TilingNumbers` | pkg/client/downloader.go:380-382 | offsets are multiples of the chunk size and the count is the ceiling formula |
| `ChunkerModel.ReassembleFile` | pkg/storage/chunker.go:113-165 | succeeds exactly if uninterrupted, the disk holds out from creating to hashing, every chunk is delivered with its digest and its size, and the whole hash is right; the file is then what was delivered, in order |
| `ChunkerModel.RoundTrip` | pkg/storage/chunker.go:113-165 | with an honest reader every check passes and the file is the original |
| `ChunkerModel.AcceptedMeansOriginal` | pkg/storage/chunker.go:137-144 | with any reader, what the checks accept is the original, barring collisions with its pieces |
| `ChunkerModel.ReadChunkCutsPiece` | pkg/storage/chunker.go:179-197 | reading a described chunk gives exactly its piece |
| `HttpFetch.AcceptedIff` | pkg/client/fallback.go:300-314 | exactly which responses count as a chunk, truncated ones included |
| `HttpFetch.HonestAcceptance` | pkg/client/fallback.go:285-321 | from an origin that honours ranges, what is accepted is the requested slice, clipped at the end |
| `HttpFetch.DownloadChunk` | pkg/client/fallback.go:285-321 | ok exactly if the status is 200 or 206, the body fills the buffer, or ends after at least one byte, or breaks off, the offset fits an int64 and the disk takes it; the bytes are then at their place and no others change |
| `HttpFetch.RetrySucceedsIff` | pkg/client/fallback.go:251-283 | the retry loop succeeds exactly if one of the first three attempts is good and no pause before it is cancelled |
| `HttpFetch.DownloadChunkWithRetry` | pkg/client/fallback.go:251-283 | the loop is that, at most three attempts in order, cut short by success or cancellation |
| `HttpFetch.DownloadSingleConnection` | pkg/client/fallback.go:98-132 | ok exactly if the status is 200, the file can be created, some read is the clean end with only data before it, and neither a cancellation nor a refused write comes first; the file is then the whole body |
| `WorkerPool.SchedulesAreBounded` | pkg/client/fallback.go:181-237 | for any chunk count and size in 32 bits, no schedule is longer than the jobs, attempts and workers allow |
| `WorkerPool.NoWorkerBlocks` | pkg/client/fallback.go:173-200 | for any chunk count, in every reachable state every worker that has not returned can step; sending an error never blocks |
| `WorkerPool.NilIffAllDoneOnce` | pkg/client/fallback.go:163-248 | for any chunk count, the result is nil exactly if every job was taken and completed once, given a worker or nothing to do |
| `WorkerPool.ErrorsAreGiveUps` | pkg/client/fallback.go:181-248 | for any chunk count, a finished schedule has one error for each job that was given up: a cancellation, or a third attempt that is not good |
| `WorkerPool.NilMeansOriginBytes` | pkg/client/fallback.go:134-249 | for every schedule, retry outcome and disk error, with an origin that honours ranges, nil means the file is the origin |
| `WorkerPool.FullServiceSucceeds` | pkg/client/fallback.go:134-249 | when every answer is full, the disk takes it and nothing is cancelled, every schedule that ends does so without error and with the origin |
| `WorkerPool.FullServiceExists` | pkg/client/fallback.go:134-249 | for every chunk list and origin there is such a schedule |
| `WorkerPool.RightIffMissingBytesAreZero` | pkg/client/fallback.go:310-318 | when bodies break off anywhere, after every schedule and for any chunk list a byte is the origin's if a write delivered it and zero otherwise; so the file is the origin if and only if the undelivered bytes are zero in it |
| `WorkerPool.RightIffLastWritesAre` | pkg/client/fallback.go:285-321 | for any responses, chunk list and schedule: the file is the origin if and only if the last write at each place put its byte there, the rest is zero in it, and nothing was written beyond its end |
| `WorkerPool.RegionsPartition` | pkg/client/fallback.go:163-170 | each byte of the file belongs to the region of exactly one job |
| `WorkerPool.JobArithmeticIsExact` | pkg/client/fallback.go:167-168 | 64-bit offsets and range ends never wrap and stay below the int64 limit |
| `WorkerPool.ProgressIsExact` | pkg/client/fallback.go:204-205 | `downloaded` is the completed chunks times the chunk size and stays below Size + ChunkSize |
| `WorkerPool.TruncationGoesUnnoticed` | pkg/client/fallback.go:310-318 | for every chunk list and every origin that is not all zeros there is a run that ends with nil, every job done, and a file of zeros |
| `WorkerPool.WholeAnswersAreRightIff` | pkg/client/fallback.go:306-316 | with an origin that answers ranges with 200 and the whole file, a nil result is right if and only if there is at most one chunk or the file repeats itself chunk by chunk with the last one full |
| `WorkerPool.RetryLoopIsTheseSteps` | pkg/client/fallback.go:251-283 | the sequential retry loop is the same as the worker's steps in the relation |
| `DownloaderModel.PeersCompleteIff` | pkg/client/downloader.go:230-324 | for a non-empty request the receive loop completes exactly if every block arrives in time and no two chunks are equal; then every chunk has its block |
| `DownloaderModel.EqualChunksReachFallback` | pkg/client/downloader.go:313-324 | a file with two equal chunks always goes to the fallback |
| `DownloaderModel.ProgressIsMonotone` | pkg/client/downloader.go:291-295 | the byte counter never goes down or wraps, so the monitor's unsigned subtraction is safe |
| `DownloaderModel.LoopHoldsBlocks` | pkg/client/downloader.go:263-293 | while blocks arrive and some are missing, the loop holds exactly the blocks that the progress figures count |
| `DownloaderModel.EmptyRequestCompletesIff` | pkg/client/downloader.go:244-247 | without chunks to ask for, the loop completes exactly if the exchange closes its channel |
| `DownloaderModel.DownloadState.ReceiveBlocks` | pkg/client/downloader.go:240-324 | the loop is the receive function and keeps the progress figures |
| `DownloaderModel.DownloadState.DownloadP2P` | pkg/client/downloader.go:164-335 | succeeds exactly if peers are found, connected and complete and every block matches; the file is then the blocks in order |
| `DownloaderModel.ReassembleFile` | pkg/client/downloader.go:497-537 | succeeds exactly if every block is there and hashes to its chunk and the disk holds out |
| `DownloaderModel.DownloadParallel` | pkg/client/fallback.go:134-249 | the file is what the schedule of the pool leaves, starting from zeros |
| `DownloaderModel.DownloadState.DownloadHTTP` | pkg/client/downloader.go:337-393 | a refresh if the size is 0; an error without URL or answer to HEAD; a ranged download is done exactly if the pool's schedule ends without error, and the file is what it left; a plain one exactly as the copy ends; what the file held before is irrelevant |
| `DownloaderModel.DownloadState.DownloadFile` | pkg/client/downloader.go:82-162 | on every path, nil means the file hashes to the requested hash, which never changes; success, content, fallback flag and status are determined exactly |
| `DownloaderModel.VerifyDownload` | pkg/client/fallback.go:383-397 | passes exactly if the file exists, can be read and hashes to the metadata's hash |
| `DownloaderModel.Metadata.Refresh` | pkg/client/downloader.go:175-183 | size, chunk size, chunk count and chunks become the tracker's, the hash stays, the URL becomes the tracker's if it has one; without an answer nothing changes |
| `DownloaderModel.PeersYieldTheFile` | pkg/client/downloader.go:326-334 | a successful peer download of a described file is the file, and verification passes if the file can be read |
| `DownloaderModel.HonestFallbackYieldsTheFile` | pkg/client/downloader.go:111-161 | when the peers fail in any way and the HTTP attempt ends without error, an origin that honours ranges makes the download succeed with exactly the file, unless the final reading fails |
| `DownloaderModel.RangedFallbackSucceeds` | pkg/client/downloader.go:111-161 | when the peers fail, a ranged fallback with full service succeeds with exactly the file |
| `DownloaderModel.DownloadByHashSucceeds` | pkg/client/downloader.go:164-393 | a caller who knows only the hash, a tracker that describes the file in either attempt, peers that fail, and an origin with full service over ranges: the download is the file |
| `DownloaderModel.FullRangedService` | pkg/client/fallback.go:134-249 | such service exists for every described file |
| `DownloaderModel.HonestPlainGetYieldsTheFile` | pkg/client/downloader.go:111-161 | the same for an origin without range requests: if each read goes on where the one before ended and a clean end comes at the end of the origin, a plain GET that gets through yields the file |
| `DownloaderModel.OriginIsSkippedIff` | pkg/client/downloader.go:111-146 | whenever the origin would do, the download fails if and only if the peers delivered what they were asked for and the parts that the chunk list names do not make up the file |
| `DownloaderModel.FallbackPromiseIff` | pkg/client/downloader.go:111-146 | as a condition on the metadata in force after the tracker's answer, or without one: whenever the origin would do, for all peers and attempts, exchanges that deliver what was asked for and blocks that do not collide with their parts, the download succeeds, if and only if two chunks are equal or the parts that the chunk list names hash to the file's hash |
| `DownloaderModel.WrongChunkListNoFallback` | pkg/client/downloader.go:111-146 | a list with the chunk of another file, from the tracker or not, delivered as asked, ends the download without the origin |
| `DownloaderModel.NoChunkListNoFallback` | pkg/client/downloader.go:111-146 | without a chunk list the download fails after an empty peer success, without fallback |
| `DownloaderModel.UniquePeers` | pkg/client/downloader.go:418-432 | one entry per peer found, the first among those with the most addresses |
| `SeederModel.IndexIsAlwaysSound` | pkg/client/seeder.go:95-164 | after every run each index entry leads to a seeded file that contains the block |
| `SeederModel.AddKeepsExactIff` | pkg/client/seeder.go:121-125 | adding a file keeps the index exact if and only if it shares no block with a seeded file |
| `SeederModel.IndexIsExactForDisjointFiles` | pkg/client/seeder.go:95-164 | for disjoint files the index is exactly the union of their blocks, each leading to its file |
| `SeederModel.RemoveKeepsCoveredIff` | pkg/client/seeder.go:155-158 | removing a file keeps every block of every seeded file indexed if and only if it shares no block with another one |
| `SeederModel.IndexIsLastChange` | pkg/client/seeder.go:95-164 | after every run, blocks shared or not, a block is indexed if and only if the last change of a file that contains it was an add, and then it leads to that file |
| `SeederModel.CoveredIffAddedLast` | pkg/client/seeder.go:95-164 | after every run the blocks of all seeded files are indexed if and only if for each of them that last change was an add |
| `SeederModel.SharedBlockIsLost` | pkg/client/seeder.go:155-158 | two files with one block: removing one leaves the other seeded, its block unindexed and what it serves uncredited |
| `SeederModel.BytesAreConserved` | pkg/client/seeder.go:289-315 | bytes shown equal bytes credited less those carried away by removed files, in 64-bit arithmetic |
| `SeederModel.SeederIsItsOperations` | pkg/client/seeder.go:95-315 | after every run, from the operations alone: which files are seeded with which blocks, where each block leads, and the bytes and blocks served of each file since it was added, in 64-bit arithmetic |
| `SeederModel.LoadKeepsStoreSoundIff` | pkg/client/seeder.go:364-392 | for every file, store and fault, loading keeps "each block hashes to its key" exactly if every chunk that is put still has its digest when read again and a block torn by the disk has it too |
| `SeederModel.TornBlockIsNeverRepaired` | pkg/storage/filestore.go:63-112 | after a put cut short the load fails; the next load of the unchanged file succeeds and leaves the wrong block |
| `SeederModel.OneByteFileStaysTorn` | pkg/storage/filestore.go:63-112 | such a file, for every byte whose digest is not that of nothing |
| `SeederModel.LoadCompletesStore` | pkg/client/seeder.go:351-396 | for an unchanged file the store ends sound with every piece under its identifier, skipped blocks included |
| `SeederModel.LoadSucceedsIff` | pkg/client/seeder.go:364-396 | a load succeeds exactly if no lookup fails and every chunk that is new to the store can be read and put; others are not read |
| `SeederModel.BlockStore.LoadBlocks` | pkg/client/seeder.go:364-396 | the loop puts the missing blocks in order up to the first lookup, read or put that fails; a put that fails leaves nothing or a part of its block |
| `SeederModel.BlockStore.Put` | pkg/storage/filestore.go:63-85 | all of the block, or an error with nothing or a part of it under the identifier |
| `SeederModel.Seeder.AddFile` | pkg/client/seeder.go:95-142 | the two sections together are the add step |
| `SeederModel.Seeder.RemoveFile` | pkg/client/seeder.go:144-164 | the two sections together are the remove step |
| `SeederModel.Seeder.UpdateStats` | pkg/client/seeder.go:289-299 | credits a seeded file only |
| `SeederModel.Seeder.RecordBlockServed` | pkg/client/seeder.go:301-315 | credits the file the index names, bytes and blocks |
| `SeederModel.Seeder.GetStats` | pkg/client/seeder.go:195-212 | the loop returns the number of files and their 64-bit byte total |
| `SeederModel.Seeder.LoadFileFromDisk` | pkg/client/seeder.go:351-407 | describes the file in 512 KiB chunks with its count, numbers and the URL given, loads the store, then adds the file; an error while chunking touches nothing, one while loading leaves what the load left, and neither adds a file |
| `SeederInterleaving.CreditsAreRight` | pkg/client/seeder.go:289-315 | in every interleaving of the lock sections the counters of a seeded file change only by its update or by the end of a record of a block it contains, by exactly that size and one block, and no other file is touched |
| `SeederInterleaving.UninterruptedIsSequential` | pkg/client/seeder.go:95-164 | both lock sections of an operation without anything in between are the sequential operation |
| `SeederInterleaving.BytesAreConservedFreely` | pkg/client/seeder.go:144-315 | in every interleaving the bytes shown are the bytes credited less those carried away by removed files, in 64-bit arithmetic |
| `SeederInterleaving.IndexIsRightIff` | pkg/client/seeder.go:101-159 | for disjoint files, in every interleaving and at every moment: each entry leads to a seeded file with the block and each block of a seeded file is indexed, if and only if for each file with blocks the last change begun and the last finished are of the same kind |
| `SeederInterleaving.StaleEntriesCanRemain` | pkg/client/seeder.go:145-159 | a remove inside an add leaves the blocks of an unseeded file indexed |
| `SeederInterleaving.EntriesCanBeLost` | pkg/client/seeder.go:145-159 | an add inside a remove leaves a seeded file with no block indexed |
| `SeederInterleaving.SerialChangesKeepIndex` | pkg/client/seeder.go:101-159 | if changes of one file do not overlap, the index is sound at rest, and exact for disjoint files |
| `SeedingStateModel.AddIsMapUpdate` | pkg/daemon/seeding_state.go:104-117 | adding is map update on every list and keeps hashes distinct |
| `SeedingStateModel.RemoveIsMapRemoval` | pkg/daemon/seeding_state.go:119-132 | swap-removal from a duplicate-free list is map removal and keeps hashes distinct |
| `SeedingStateModel.RemoveForgetsIffUnique` | pkg/daemon/seeding_state.go:123-128 | on any loaded list a removed hash is gone exactly if at most one entry had it |
| `SeedingStateModel.UpdateIsMapUpdate` | pkg/daemon/seeding_state.go:168-181 | updating changes the two counters of that entry only |
| `SeedingStateModel.DiskHoldsLastSaved` | pkg/daemon/seeding_state.go:198-222 | after any run of saves the file loads as the last list saved |
| `SeedingStateModel.CrashLoadsOldOrNew` | pkg/daemon/seeding_state.go:211-219 | a crash at any step of a save leaves the old list, or the new one once the rename has happened |
| `SeedingStateModel.SessionSurvivesCrash` | pkg/daemon/seeding_state.go:104-222 | start on any readable disk, make any calls with any save outcomes, crash at any step: the next manager holds the list after the calls up to the last successful save, or up to the one being saved once its rename has happened; in terms of the map it stands for, if no hash was there twice |
| `SeedingStateModel.DistinctIffRepresents` | pkg/daemon/seeding_state.go:146-157 | a list stands for a map if and only if it holds no hash twice, and then for one map only |
| `SeedingStateModel.SeedingStateManager.constructor` | pkg/daemon/seeding_state.go:35-73 | a missing file is an empty list, otherwise the list loaded |
| `SeedingStateModel.SeedingStateManager.Save` | pkg/daemon/seeding_state.go:198-222 | the steps of a save and its failures |
| `SeedingStateModel.SeedingStateManager.AddSeeding` | pkg/daemon/seeding_state.go:104-117 | search, overwrite or append, save |
| `SeedingStateModel.SeedingStateManager.RemoveSeeding` | pkg/daemon/seeding_state.go:119-132 | search, swap-remove, save; an unknown hash changes nothing |
| `SeedingStateModel.SeedingStateManager.UpdateStats` | pkg/daemon/seeding_state.go:168-181 | search, overwrite the counters, save; an unknown hash changes nothing |
| `SeedingStateModel.SeedingStateManager.Clear` | pkg/daemon/seeding_state.go:190-196 | empties the list and saves it |
| `SeedingStateModel.SeedingStateManager.GetByHash` | pkg/daemon/seeding_state.go:146-157 | the first entry with the hash |
| `EndToEnd.TransferFromStore` | pkg/client/downloader.go:164-335 | a transfer of a described file from a store with its pieces succeeds if and only if every block arrives in time, no two chunks are equal and the disk holds out |
| `EndToEnd.DownloadFromStore` | pkg/client/downloader.go:82-162 | with the tracker's metadata such a transfer, if it completes, ends the download with the file |
| `EndToEnd.SeededFileArrives` | cmd/cli/commands.go:53-87 | with what the load returns and leaves: register, look up in any run of the tracker, download; the peers' transfer succeeds exactly when it completes, and the download is then the file that was loaded |
| `EndToEnd.SeededFileArrivesFromOrigin` | pkg/client/downloader.go:82-162 | and when it does not, for a caller who knows only the hash, full service from the registered URL makes the download that file |

## Left out

- libp2p, Bitswap, the DHT, NAT traversal and relays: the exchange is a list of events, and where it matters it delivers only blocks that were asked for.
- HTTP, JSON, websockets, SQL and Redis as such: responses, messages, tables and maps stand for them. A failed websocket write takes its connection down; a daemon may still read what had arrived.
- Collation of database keys: hashes and peer ids are compared exactly, as their lower-case hexadecimal and base58 forms are meant to be.
- Redis failures in the store: a lost cache deletion would break the cache claims. In the limiter a failing Redis admits the request, and such requests are not counted by the bounds; an Incr that fails after Redis executed it, and a failed Expire, are not modelled.
- A RegisterFile or an announce between the cache miss and the cache fill of another request: store operations are atomic steps here.
- The difference between the database's and Redis's clocks, and the one-second rounding of timestamps.
- Durability of rename: it is atomic and in order with the writes before it.
- Rates, tickers, logging, metrics, and the token bucket behind the limiter.
- Address-string helpers, configuration, command line, services and PID files.
- The store's statistics and relay queries, the seeder's other statistics getters and the list's membership test: they only read what other members here read.
- Two chunk lists for one file hash in the seeder's interleavings: there the identifiers are a function of the hash; the sequential model takes any list.
- PeersServed in the seeder: no code ever changes it.
- HttpFetch.DownloadSingleConnection: does not say what a failed copy leaves in the file, because the download then returns an error.
- SeedingStateModel.SeedingStateManager.Save: does not model the `LastUpdated` stamp and version field of the file.
