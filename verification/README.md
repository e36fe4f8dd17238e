# Model distribution, modelled and proved

The system distributes large model files to a cluster. A manifest cuts a file
into chunks and records a digest for each; a tracker collects heartbeats and
tells nodes which peers hold a chunk; nodes fetch chunks from each other, verify
them, store them and mark them in a bitmap. Scarce chunks are protected by an
erasure code, and a new version of a file is installed from a delta patch.

| file | what it models |
|---|---|
| `Bytes.dfy`, `Wrappers.dfy`, `Sequences.dfy` | bytes and big-endian integers, results, sequences |
| `Manifest.dfy`, `Bitmap.dfy`, `ChunkStore.dfy` | chunk arithmetic, digests, the bitmap and its bytes, chunk files on disk |
| `Fields.dfy`, `Gf256.dfy`, `Polynomials.dfy`, `ErasureCodes.dfy`, `ErasureCoder.dfy`, `TailStripes.dfy` | the field of 256 elements, interpolation, the code, the coder in place, tail stripes |
| `Delta.dfy`, `PatchApplicator.dfy` | delta patches as transformations of chunk stores |
| `StableSort.dfy`, `Scheduler.dfy` | stable sorting, peer selection, replica counts, rarity |
| `JobStates.dfy`, `Tracker.dfy` | a job as a value with its histories; the tracker's objects |
| `Wire.dfy` | chunk requests and replies, the chunk server, frames |
| `Node.dfy`, `Downloader.dfy` | what a node's bitmap claims; the download loop against any network |
| `NodeStep.dfy`, `Permits.dfy`, `Interleaving.dfy` | a node as a state machine, how many tasks it runs, and how they interleave |
| `Protocol.dfy`, `Directory.dfy`, `Seed.dfy` | the whole system as a step machine, the chunk files in each directory, the usual start |
| `ProtocolSafety.dfy`, `TrackerRuns.dfy`, `Clock.dfy`, `Exchange.dfy`, `Restart.dfy` | what holds in every run: of claims and files, of the tracker, of time, of progress, and of restarted nodes |

How the world is modelled:

- SHA-256 with hex encoding is an arbitrary function from bytes to strings.
  Where an equality of contents is concluded, it is under the hypothesis that no
  two of the strings compared share a digest.
- The network is adversarial: any bytes may come back from any peer, and any
  heartbeat ever sent may be delivered at any later time, any number of times or
  never. A write to disk may stop part-way. A node may join with any files on
  its disk and may crash.
- There is one disk for each directory. A process started anew on the directory
  of one that crashed has a new id, the old address and an empty bitmap, and
  takes over the disk; it can in turn be followed by another. What is said of
  the files of a former process is said of the files now in its directory, which
  its successors may rewrite.
- `Tracker::update_node` is one atomic step that updates the entry and then
  looks at all entries. (As written, it still holds the write guards while it
  iterates, src/tracker/mod.rs:246-265.)
- Time is a clock in milliseconds, used only for staleness.
- Every chunk file of a disk belongs to one version of a file id, because
  `chunk_path` carries no version.
- The bytes a reader returns per call, the order in which a map yields its
  entries, the files that cannot be removed or read, and the outcome of each
  fetch are parameters over which everything is quantified.

Automatic induction is switched off (`{:induction false}`) for the lemmas Dafny
would apply it to; their proofs are written out.

Where the code does less than its documentation or a first reading suggests,
the exact condition is proved:

- The chunk count is cast to 32 bits; the ranges tile the file if and only if
  the uncast count fits (`TilesIffCountFits`). 2^32 one-byte chunks do not
  (`TruncatedCountDoesNotTile`).
- `build_from_file` takes whatever one `read` returns as a chunk, and a
  buffered reader may return less than asked; its manifest is that of `build`
  if and only if no read is short (`StreamingAgrees`, `ShortReadBreaksStreaming`).
- `completion_ratio() >= 1.0` in single precision means completeness for n
  chunks if and only if the conversion tells n - 1 from n (`RatioGate`). It does
  so up to 2^24 chunks and not for 2^24 + 1 (`RatioGateWhenExact`,
  `RatioGateIsNotCompleteness`). The gate never hides a completion, because
  completeness is then checked exactly (`BeatCompletes`).
- An eviction leaves completion overdue if and only if the job is not complete,
  some entry is fresh and every fresh one is full (`OverdueAfterEviction`); a
  short history leads there (`EvictionCanLeaveCompletionUndeclared`). The next
  heartbeat of a full node declares it (`NextBeatDeclares`).
- A job is complete if and only if some completion was not followed by a
  cancellation (`CompleteIff`); so a completion overrides an earlier
  cancellation (`CompletionOverridesCancellation`).
- Since a restarted process has an empty bitmap and never looks at the files
  already there, a file that was once verified is verified at the end of a run
  if and only if the run does not leave it half written
  (`GoodUnlessLeftShort`).
- Updating a to b to c leaves the store that a to c leaves if and only if the
  disk held no stale file beyond a and c but inside b
  (`PatchesComposeOnStores`, `StaleFileSetsUpdatesApart`).
- `write_msg` checks no size; a message arrives if and only if it fits the cap
  the reader enforces (`FrameRoundTrip`, `LongMessageIsRefused`,
  `HugeMessageArrivesEmpty`).
- `DeltaPatch::verify_chunk` accepts exactly changed chunks, so it refuses those
  that `verify_unchanged` reports for re-fetching (`PatchVerification`,
  `KeptChunkIsRefused`).
- A node restarted on its old directory rewrites files the tracker still credits
  to the old id; the process at that address serves such a chunk at every moment
  if and only if no write of it is ever seen half done (`CreditAfterRestart`,
  `RestartCanTear`).
- A stripe whose chunks are all empty cannot be coded (`BuildEcStripes`).

## Model

| member | source | states |
|---|---|---|
| Protocol.StepKeeps | src/peer/downloader.rs:159-180 | Every step of the system (join, restart, local step, send, late or repeated delivery, eviction, cancellation, time) keeps the invariant, and processes' bitmaps only grow |
| Protocol.RunKeeps | src/peer/mod.rs:75-85 | The invariant holds after every run from a state that satisfies it, and every process and mark is still known |
| Protocol.NewProcess | src/peer/mod.rs:44-60 | A process that joins or is restarted runs at its address with the given concurrency and an empty bitmap, on the files that are there; all other processes stay as they are |
| ProtocolSafety.SentIff | src/peer/mod.rs:63-90 | What may arrive at the tracker, at any time and any number of times, is exactly what live processes have sent: each its id, rack, address, whole bitmap and 8000 Mbps |
| ProtocolSafety.LiveUntilCrash | src/peer/mod.rs:33-60 | A process that has not crashed keeps running in its directory, whatever else happens; one that has crashed does nothing more |
| NodeSteps.FileStep | src/peer/downloader.rs:175-177 | A chunk file changes only when a running write of that chunk is seen half done, which leaves it too short, or done, which leaves it verified |
| Directories.GoodUnlessLeftShort | src/peer/downloader.rs:172-177 | In any run, restarts included, a verified chunk file in a directory is verified at the end if and only if the last half-done write seen of it, if any, was followed by a whole one |
| Directories.AlwaysGoodUnlessShort | src/peer/downloader.rs:172-177 | It is verified at every moment of the run if and only if no write of it is ever seen half done |
| Directories.UnwrittenStays | src/peer/downloader.rs:172-177 | Without such a write its bytes do not change, whoever runs in the directory |
| ProtocolSafety.ClaimsAreTrue | src/tracker/mod.rs:246-257 | In every state of every run what the tracker holds of a process is part of what that process marked; each chunk it marked is verified in its directory while the process has that, and afterwards if and only if the file there has the promised length |
| ProtocolSafety.NamedPeersServe | src/tracker/mod.rs:277-295 | For every peer named by a query in any run, then and at every later time: the process at the address named serves the chunk, with a reply the downloader accepts, if and only if the file there has the promised length; so always while the named process has the directory; and, if it was served when named, if and only if the run since does not leave the file half written |
| ProtocolSafety.QueriesAreBest | src/tracker/mod.rs:277-295 | In every state of every run a query does not panic; it names min(top_n, n) peers, n being all other registered nodes known to hold the chunk, seeds included, and each of these is listed or outranked by every peer listed |
| ProtocolSafety.MarkedFilesStay | src/peer/downloader.rs:45-47 | In every continuation of any run the file of a marked chunk keeps its bytes as long as the process that marked it has the directory, and after that as long as no successor writes that chunk |
| ProtocolSafety.FinishedNodesHoldTheFile | src/peer/downloader.rs:32-38 | When a node's loop may end, its chunk files join to exactly the bytes the manifest was built from, absent a collision; the empty file included |
| ProtocolSafety.CompletionIsSoundAndNotMissed | src/tracker/mod.rs:259-271 | A step declares the job complete exactly when it delivers a heartbeat after which every registered bitmap is full; the registered nodes then hold the whole file, save a former process whose successor has cut a file short, and later keep it if and only if no chunk is left half written |
| TrackerRuns.CompleteIff | src/tracker/mod.rs:225-229 | After any run the status is complete if and only if some step of it delivered a heartbeat after which every registered bitmap was full, and no later step cancelled the job |
| TrackerRuns.CompletionOverridesCancellation | src/tracker/mod.rs:264-267 | A seed's first heartbeat completes a cancelled job |
| TrackerRuns.CompleteJobsDelivered | src/tracker/mod.rs:264-267 | If a run ends with the job complete, there is a step that declared it with no cancellation after; the nodes registered at any such step held the whole file then and, unless a successor leaves a chunk half written, hold it at the end |
| TrackerRuns.JobIsReplay | src/tracker/mod.rs:234-273 | The tracker's part of a run is the replay of the heartbeats delivered, evictions and cancellations |
| TrackerRuns.TrackerIsLastWriter | src/tracker/mod.rs:299-304 | In every run the tracker's entry of a node is its last delivered heartbeat not followed by an eviction that finds it stale |
| Clocks.NowIs | src/tracker/mod.rs:154-156 | The time of a run is that of its start plus all that has passed |
| Clocks.RegisteredIff | src/tracker/mod.rs:299-304 | In every run a node is registered exactly when some step heard of it, none since, and every sweep since came less than a second more than its timeout after; and then its entry says what that heartbeat said, and when it came |
| Clocks.SweepDrops | src/tracker/mod.rs:154-156 | A sweep drops a registered node exactly when at least 1000 * (timeout + 1) milliseconds have passed since it was last heard |
| TrackerRuns.PollingRelearns | src/tracker/mod.rs:206-208 | After any run a tracker that has lost its state and polls some live nodes in any order knows exactly these, each with its whole current bitmap |
| TrackerRuns.RestartRelearns | src/tracker/mod.rs:206-208 | In any run of a tracker that has lost its state: of each process whose last delivered heartbeat was sent since, it knows the whole bitmap as sent, which contains all the process had marked and was credited with before |
| Seeds.SeededStart | model-distribution-examples.rs:637-642 | One seed with the whole file on disk and a full bitmap is a legal initial state, so the results on runs apply to it |
| Restarts.CreditAfterRestart | src/peer/mod.rs:44-60 | After any run, a chunk credited to a crashed node that is restarted: the directory's process, at the address credited, serves the chunk at every later moment if and only if no write of it that keeps fewer bytes than its length is ever seen, and at the end if and only if the last such write was followed by a whole one |
| Restarts.RestartCanTear | src/peer/mod.rs:44-60 | From every legal start with a live seed of a nonempty file: the seed is credited with chunk 0, crashes, is restarted, and the chunk credited is no longer served from its address |
| NodeSteps.LocalStepKeeps | src/peer/downloader.rs:159-180 | Every step of a node, tasks interleaving freely, keeps: marks are backed by verified files, at most one task per chunk and only for unmarked chunks, at most `concurrency` tasks |
| NodeSteps.LocalStepProgress | src/peer/downloader.rs:179-180 | No step makes a chunk missing again, and each marking step is one chunk less to go |
| NodeSteps.NextTaskKeeps | src/peer/downloader.rs:45-50 | Starting the next task keeps the invariant; the chunk at the head of the round's list is never there already |
| NodeSteps.TaskLife | src/peer/downloader.rs:53-96 | A task starts only for the head of the queue, leaves fetching only with accepted bytes or by giving up, and once it holds bytes ends only by writing and marking them |
| Permits.StartTaskStarts | src/peer/downloader.rs:49-53 | While chunks wait, the task of the first one starts exactly when fewer than `concurrency` run |
| Permits.PermitsAreUsed | src/peer/downloader.rs:45-53 | From the start of a round, k tries to start a task leave exactly min(k, concurrency, missing) tasks running, those of the first missing chunks |
| NodeSteps.FetchIsSteps | src/peer/downloader.rs:132-193 | What one fetch does to disk, bitmap and task in the download loop is what its steps do: a refused reply dropped, or an accepted one held, its write seen half done any number of times, then failed, torn, or finished and marked |
| Interleavings.OwnStepsDecide | src/peer/downloader.rs:53-99 | Under any interleaving, the file, bit and task of a chunk depend only on the steps of its own task |
| Interleavings.TaskInAnyInterleaving | src/peer/downloader.rs:76-91 | Whatever other tasks do in between, and however often writes are seen half done, a chunk is marked exactly when one of its task's fetches wins, and then its file is verified |
| Interleavings.RoundFollowsFetches | src/peer/downloader.rs:45-99 | Given what becomes of each fetch: however the tasks of a round interleave, once none waits the bitmap is the one the download loop computes for these fetches, and every task is over |
| Interleavings.RoundInAnyInterleaving | src/peer/downloader.rs:45-99 | After any steps whatever since a round began, short of a crash or the next round, the bitmap is the one the download loop computes for a round in which a task wins exactly if its chunk is marked by then |
| Interleavings.LoopOrderExecutes | src/peer/downloader.rs:45-99 | Running the tasks one after another, as the download loop does here, is an execution of the round that RoundFollowsFetches covers, for every round |
| Nodes.SoundWrite | src/peer/downloader.rs:172-180 | Whatever happens to the write of an unmarked chunk, all marks stay true; after a full write of verified data the chunk may be marked |
| Nodes.SoundFullHoldsFile | src/peer/downloader.rs:36-36 | A node whose bitmap is full and true has chunk files that join to the original file |
| Downloaders.Downloader.DownloadChunk | src/peer/downloader.rs:132-193 | Succeeds exactly when the reply is accepted and the write succeeds; disk and bitmap change as the order verify, persist, mark allows, also when the write is torn |
| Downloaders.Downloader.RunTask | src/peer/downloader.rs:53-96 | A task marks its chunk exactly when some fetch of some attempt wins; at most 15 fetches, and all it is given if none wins; it pauses 0, 200 or 600 ms in all when its first, second or third attempt wins, and 1400 ms when none does |
| Downloaders.LongestTask | src/peer/downloader.rs:57-61 | Three attempts at five peers each are a task, of 15 fetches |
| Downloaders.Downloader.RunRound | src/peer/downloader.rs:33-99 | A round marks exactly the targets whose task wins, in at most 30 times `concurrency` fetches |
| Downloaders.Downloader.Run | src/peer/downloader.rs:28-107 | The loop ends exactly when the bitmap is full, and then the disk joins to the original file |
| Downloaders.RoundProgress | src/peer/downloader.rs:45-45 | A round removes as many chunks from the missing ones as it has winning tasks, and loses none |
| Downloaders.HonestPeerMakesProgress | src/peer/downloader.rs:76-91 | One peer that stores the chunk and answers, met by the task of one of the first `2 * concurrency` missing chunks, makes the round productive |
| Downloaders.ProductiveRoundsFinish | src/peer/downloader.rs:32-104 | There are at most as many productive rounds as missing chunks, and that many finish the download, whatever other rounds happen in between |
| Exchanges.HoldersAreNamed | src/tracker/scheduler.rs:18-26 | Asked for enough peers in any reachable state, the tracker names every other node it knows to hold the chunk |
| Exchanges.KnownHolderServes | src/peer/downloader.rs:76-91 | So a live node that is fetching a chunk can take it from any live node the tracker knows to hold it |
| Exchanges.ExchangeMarks | src/peer/downloader.rs:76-91 | In the whole system: a live node that is fetching a chunk, asks a live peer the tracker names for it and marks the reply has exactly one chunk less missing |
| Exchanges.ExchangesFinish | src/peer/downloader.rs:32-104 | From every reachable state there can be no more such exchanges than chunks the node misses, whatever the system does in between, and that many give it the whole file |
| Wire.AcceptedIff | src/peer/downloader.rs:151-173 | For any bytes from the network: they are accepted exactly when they begin with the encoding of data with the promised length and digest, and that data is what is taken |
| Wire.ServedIffStored | src/peer/chunk_server.rs:61-76 | The reply of a chunk server is accepted exactly when it stores the promised chunk, with the exact error otherwise |
| Wire.HandleChunkRequest | src/peer/chunk_server.rs:49-76 | Answers each complete request with the encoding of the file its index names, or the not-found status, and half a request with nothing |
| Wire.RequestRoundTrip | src/peer/downloader.rs:142-145 | The server reads back the job id and index that were sent |
| Wire.RequestLayout | src/peer/chunk_server.rs:14-16 | A request is four bytes of length, the job id and four bytes of index |
| Wire.ReplyLayout | src/peer/chunk_server.rs:18-21 | A reply is the four-byte status 0, eight bytes of length and the data, or the status 1 alone |
| Bytes.NumberSnoc | src/peer/downloader.rs:140-141 | Integers on the wire have the most significant byte first |
| Wire.RequestChunk | src/peer/downloader.rs:139-173 | Writes the request, and returns what acceptance makes of the reply, error cases included |
| Wire.WriteMsg | src/proto/mod.rs:25-34 | Writes one frame, or fails with nothing written when the message cannot be serialised |
| Wire.ReadMsg | src/proto/mod.rs:36-44 | Reads one frame, refuses one over the cap or that does not parse, and leaves the stream at the next one |
| Wire.FrameRoundTrip | src/proto/mod.rs:23-44 | A message arrives as sent if and only if it is at most 16 MiB |
| Wire.MessageRoundTrip | src/proto/mod.rs:25-44 | A message that fits the cap is read back as written, by any parser that undoes the serialiser |
| Wire.LongMessageIsRefused | src/proto/mod.rs:37-40 | A message one byte over the cap is written and then refused by the reader |
| Wire.HugeMessageArrivesEmpty | src/proto/mod.rs:27-30 | A message of 2^32 bytes is read as an empty one |
| JobStates.BeatCompletes | src/tracker/mod.rs:259-271 | A heartbeat declares completion exactly when after it all registered bitmaps are full; the floating-point gate hides no such moment |
| JobStates.NodesAreLastWriters | src/tracker/mod.rs:246-257 | After any history of heartbeats, evictions and cancellations the node map holds each node's last heartbeat not followed by its eviction, and nothing else |
| JobStates.ReplayKeeps | src/tracker/mod.rs:246-250 | Every entry's node id equals its map key after any history; manifest and policy do not change |
| JobStates.CompleteIsLastWord | src/tracker/mod.rs:225-229 | For any history: complete exactly when some completion was not followed by a cancellation |
| JobStates.RunningIsQuiet | src/tracker/mod.rs:36-41 | For any history: still running exactly when nothing completed or cancelled the job |
| JobStates.RestartRebuilds | src/tracker/mod.rs:246-257 | Replaying current heartbeats of every known node, at any times, in any order and with repetitions, into an empty tracker gives the same node map, but for the time each node was last seen, which is that of its last replayed heartbeat |
| JobStates.NextBeatDeclares | src/tracker/mod.rs:299-304 | An eviction that leaves only full nodes declares nothing; the next heartbeat declares completion exactly when it is full |
| JobStates.OverdueAfterEviction | src/tracker/mod.rs:299-304 | Exactly when an eviction leaves only full nodes without the job being complete |
| JobStates.EvictionCanLeaveCompletionUndeclared | src/tracker/mod.rs:299-304 | A history of two heartbeats and a sweep that leaves a job with one full node undeclared |
| JobStates.StaleIff | src/tracker/mod.rs:154-156 | A node is stale exactly when a whole second more than the timeout has passed since its last heartbeat |
| JobStates.PeersAreBest | src/tracker/mod.rs:277-295 | Under either policy and any map order, a query's answer lists min(top_n, n) distinct peers of the n other nodes that hold the chunk, best first by bandwidth or by rack then bandwidth; each such node is listed or comes after all listed; those named are described as in their last heartbeats |
| JobStates.MorePeersExtend | src/tracker/scheduler.rs:83-83 | Under either policy, and for the same map order, raising `top_n` only extends the answer |
| Trackers.Job.UpdateNode | src/tracker/mod.rs:246-271 | Turns the job into what a heartbeat makes of it |
| Trackers.Job.EvictStale | src/tracker/mod.rs:299-304 | Keeps exactly the entries that are not stale |
| Trackers.Job.CompletionRatio | src/tracker/mod.rs:68-75 | The share of full nodes; zero for no nodes, and one exactly when there are nodes and all are full |
| Trackers.Job.GetPeers | src/tracker/mod.rs:285-291 | Dispatches on the policy and returns a best choice of min(top_n, n) peers, n being the number of other nodes that hold the chunk |
| Trackers.Job.ReplicaCounts | src/tracker/mod.rs:78-88 | Counts holders per chunk; the counts sum to the nodes' completed counts |
| Trackers.Tracker.CreateJob | src/tracker/mod.rs:212-217 | Adds a running job without nodes and leaves the others as they were |
| Trackers.Tracker.CancelJob | src/tracker/mod.rs:225-229 | Cancels the one job named, or reports that there is none |
| Trackers.Tracker.DispatchHeartbeat | src/tracker/server.rs:82-100 | Updates the one job named and acknowledges with its status after the update; an unknown job changes nothing |
| Trackers.Tracker.EvictStaleNodes | src/tracker/mod.rs:299-304 | One pass evicts the stale nodes of every job and changes nothing else |
| Schedulers.RarityFirst | src/tracker/scheduler.rs:12-38 | Returns min(top_n, other holders) distinct other holders, fastest first, nobody left out being faster than anybody taken; and exactly the first `top_n` of the stable sort by bandwidth |
| Schedulers.TopologyAware | src/tracker/scheduler.rs:48-85 | Partitioning, sorting each part, joining and truncating returns the first `top_n` of one stable sort by rack, then bandwidth, which is a best choice |
| Schedulers.PartitionedSort | model-distribution-examples.rs:293-298 | For every list of candidates, sorting the two groups apart and joining them equals one stable sort by (same rack first, bandwidth descending) |
| Schedulers.SelectionIsBest | src/tracker/scheduler.rs:34-37 | A selection has min(top_n, other holders) distinct peers, all eligible and in order, and nobody left out outranks anybody taken |
| Schedulers.ReplicaCounts | src/tracker/mod.rs:78-88 | The nested counting loops compute the number of holders of each chunk |
| Schedulers.ReplicaConservation | src/tracker/mod.rs:78-88 | Counting by chunk and counting by node give the same total |
| Schedulers.RarityOrder | src/tracker/scheduler.rs:93-100 | Lists exactly the missing chunks, each with the number of nodes that hold it; no chunk comes before one that fewer nodes hold, and chunks as many nodes hold come as given; unknown chunks count zero |
| Schedulers.RarityOrderIsStable | src/tracker/scheduler.rs:98-98 | The ranking is a stable rearrangement of the missing chunks with ascending counts |
| Schedulers.ExcludingRequester | model-distribution-examples.rs:230-242 | Not counting the requester changes no count if and only if its tracked bitmap holds none of the missing chunks, and then the chunks come in the same order |
| StableSorts.SortIsStable | src/tracker/scheduler.rs:35-35 | Sorting gives an ordered rearrangement that keeps the order among equals |
| StableSorts.StableSortUnique | src/tracker/scheduler.rs:76-78 | Two stable sorts of the same list by the same order are equal |
| Manifests.TilesIffCountFits | src/manifest.rs:114-122 | The chunk ranges are nonempty, adjacent and cover the file exactly if and only if the chunk count fits 32 bits |
| Manifests.TruncatedCountDoesNotTile | src/manifest.rs:120-122 | 2^32 one-byte chunks are counted as none and tile nothing |
| Manifests.RangeFitsU64 | src/manifest.rs:114-118 | No range computation overflows 64 bits |
| Manifests.BuildHashesPieces | src/manifest.rs:33-41 | `build` hashes exactly the consecutive pieces of the data |
| Manifests.BuildIsManifestOf | src/manifest.rs:43-50 | `build` keeps the id, version, sizes and length it is given |
| Manifests.ExpectedLength | src/manifest.rs:87-89 | The range of a chunk is as long as its piece |
| Manifests.VerifiedJoin | src/manifest.rs:92-103 | Chunks that verify join to the file, absent a collision |
| Manifests.BuildFromFile | src/manifest.rs:55-84 | The streaming loop hashes what the reads return, in order |
| Manifests.StreamingAgrees | src/manifest.rs:71-74 | Streaming gives the manifest of `build` if and only if every read fills its buffer up to the end of the file |
| Manifests.ShortReadBreaksStreaming | src/manifest.rs:71-74 | One short read of a two-byte file gives other hashes than `build` |
| Bitmaps.MarkedEffect | src/manifest.rs:160-169 | Marking keeps the cached count, sets one bit, and removes at most that chunk from the missing ones |
| Bitmaps.CompleteIffNothingMissing | src/manifest.rs:175-177 | `is_complete` holds exactly when every chunk has a bit and nothing is missing |
| Bitmaps.AnyMarksRefineASet | src/manifest.rs:142-193 | After any sequence of marks the bitmap is a set: its size is cached, `missing` is the complement, complete means all |
| Bitmaps.RoundTrip | src/manifest.rs:152-198 | `from_bytes` of `as_bytes` gives the bitmap back for every chunk count |
| Bitmaps.EncodingLayout | src/manifest.rs:196-198 | Chunk i is bit i of the bytes, the most significant bit of each byte first |
| Bitmaps.DecodeRaw | src/manifest.rs:152-157 | Decoding ignores whatever the unused bits of the last byte hold |
| Bitmaps.DecodeShape | src/manifest.rs:152-157 | Decoded bytes are consistent, and cover all chunks exactly when there are enough of them |
| Bitmaps.RatioGate | src/manifest.rs:179-182 | For every n > 0: all bitmaps of n chunks that pass the single-precision gate are complete if and only if conversion tells n - 1 from n |
| Bitmaps.AsF32Monotone | src/manifest.rs:181-181 | Conversion of a count to single precision, rounding to nearest with ties to even, is monotone |
| Bitmaps.QuotientStaysBelowOne | src/manifest.rs:181-181 | The quotient of two converted counts, the first smaller, is at most 1 - 2^-24, so it does not round to one |
| Bitmaps.RatioGateWhenExact | src/manifest.rs:179-182 | Up to 2^24 chunks only complete bitmaps pass |
| Bitmaps.RatioGateIsNotCompleteness | src/manifest.rs:179-182 | A bitmap of 2^24 + 1 chunks that lacks only the last one passes |
| Bitmaps.ChunkBitmap.MarkComplete | src/manifest.rs:160-169 | Updates bits and count in place and reports whether the bit was new |
| Bitmaps.ChunkBitmap.IsComplete | src/manifest.rs:175-177 | The cached count decides whether all bits are set |
| Bitmaps.ChunkBitmap.Missing | src/manifest.rs:187-193 | Lists the clear bits in ascending order |
| ChunkStores.PathsDistinct | src/peer/downloader.rs:195-197 | Two chunks have the same path only if file id and index agree, also past six digits and for any file ids |
| ChunkStores.PathShape | src/peer/downloader.rs:195-197 | A path ends in the decimal index, zero-padded to six digits and longer only from a million on |
| ChunkStores.VerifiedDiskIsFile | src/peer/downloader.rs:172-177 | A disk whose chunks all verify joins to the file the manifest was built from |
| Gf256.Reduction | src/erasure.rs:10-17 | The product reduces x^8 to x^4 + x^3 + x^2 + 1 |
| Gf256.GfIsField | src/erasure.rs:10-17 | Bytes with the carry-less product modulo 0x11D and exclusive or form a field |
| Gf256.Associates | src/erasure.rs:10-17 | The shift-and-add product of bytes is associative |
| Polynomials.InterpolateRecovers | src/erasure.rs:16-16 | A polynomial with k coefficients is determined by its values at any k distinct points |
| ErasureCodes.AnyKSuffice | src/erasure.rs:16-16 | Over any field and any distinct points: any k of the n shards restore all n, data and parity |
| ErasureCoders.ErasureCoder.New | src/erasure.rs:24-28 | Exactly which shard counts are accepted |
| ErasureCoders.ErasureCoder.Encode | src/erasure.rs:35-46 | Given k+m nonempty slots of one size, writes the m parity slots in place; refuses any other count or shape and changes nothing |
| ErasureCoders.ErasureCoder.Reconstruct | src/erasure.rs:48-62 | Fills all missing ones of k+m slots in place, leaves present ones alone, and fails exactly on fewer than k present, another number of slots, or misshapen shards |
| ErasureCoders.ErasureCoder.AnyKRestore | src/erasure.rs:48-62 | A code word has k+m shards, and after losing any at most m of them reconstruction restores every one |
| ErasureCoders.ErasureCoder.SplitIntoShards | src/erasure.rs:64-81 | Exactly k equal shards of the least sufficient size, which join to the data followed by zeros |
| ErasureCoders.ErasureCoder.MergeShards | src/erasure.rs:83-94 | Joins the present ones of the first k slots and cuts to the length |
| ErasureCoders.ErasureCoder.SplitMerge | src/erasure.rs:64-94 | Merging undoes splitting |
| ErasureCoders.ErasureCoder.SplitEncodeLoseMerge | src/erasure.rs:38-94 | Splitting, encoding, losing any at most m of the k+m shards, reconstruction and merging give the data back |
| TailStripes.BuildEcStripes | src/erasure.rs:138-177 | One stripe of k+m shards per window of k chunks, padded to the longest and encoded; fails exactly for a bad configuration or a window of empty chunks |
| TailStripes.StripeShape | src/erasure.rs:146-168 | The data shards of a stripe are its chunks, each followed by zeros up to the longest, and zeros for the chunks a short window lacks |
| TailStripes.ReconstructStripe | src/erasure.rs:180-207 | Runs the coder on the listed shards and merges |
| TailStripes.StripeRecovery | src/erasure.rs:188-206 | For any list of indices, duplicates and strays included: recovery succeeds exactly when it names k distinct shards, and returns the padded chunks |
| TailStripes.ScarceChunkRecovered | src/erasure.rs:138-207 | Chunk j of every stripe of k+m shards comes back at offset j times the shard size, cut to its own length, after losing any at most m shards |
| DeltaPatches.Compute | src/delta.rs:35-67 | The loops classify every chunk index as kept, changed or deleted, and the patch names both versions |
| DeltaPatches.ChunksToFetch | src/delta.rs:70-74 | Lists the changed chunks in ascending order without repetition |
| DeltaPatches.PatchVerification | src/delta.rs:89-110 | The patch accepts exactly what the new manifest accepts for chunks that changed |
| DeltaPatches.KeptChunkIsRefused | src/delta.rs:92-96 | A chunk the patch keeps is refused whatever its bytes are |
| DeltaPatches.UpdateVerifies | src/delta.rs:166-199 | From any disk contents an update leaves a store that verifies against the new manifest |
| DeltaPatches.UpdateHeals | src/delta.rs:166-199 | That store joins to the new version's bytes, whatever chunk size the old version had |
| DeltaPatches.PatchesCompose | src/delta.rs:35-67 | What changes or is deleted from a to c changes or is deleted in one of the two steps |
| DeltaPatches.PatchesComposeOnStores | src/delta.rs:35-67 | Two updates and the direct one leave equal stores if and only if no stale file lies beyond the first and last version but inside the middle one |
| DeltaPatches.StaleFileSetsUpdatesApart | src/delta.rs:35-67 | From an empty version over a one-chunk version to an empty one: a stale file at index 0 is left by the direct update only |
| DeltaPatches.GenuineIsFetched | src/delta.rs:69-74 | Fetching the original chunks of any set of indices gives what the update results ask of a fetch |
| DeltaPatches.ChangedIsLeast | src/delta.rs:69-74 | Replacing a set of chunks can turn the old store into a verified new one if and only if the set contains all changed chunks |
| PatchApplicators.PatchApplicator.DeleteStaleChunks | src/delta.rs:166-177 | Removes the deleted chunks and counts the files removed; the first removal that fails stops it with exactly the earlier ones gone |
| PatchApplicators.PatchApplicator.VerifyUnaltered | src/delta.rs:181-199 | Reports, without repetition, exactly the kept chunks that are missing, unreadable or do not verify |
| PatchApplicators.ReportHeals | src/delta.rs:151-199 | Deleting, checking, and fetching the changed and reported chunks restores the new version from any disk |

## Left out

- Sockets, async tasks, timers and lock guards: steps are atomic and chosen by an adversary. The permits of the semaphore are modelled as a bound on running tasks.
- Downloaders.Downloader.RunRound: runs the tasks of a round one after another; that any interleaving of them ends with the same bitmap is Interleavings.RoundFollowsFetches, and Interleavings.RoundInAnyInterleaving for tasks that do anything.
- Downloaders.Downloader.Run: takes a finite sequence of rounds and returns false when it is used up, where the source would go on; the pause of 50 ms between rounds is not modelled.
- Schedulers.RarityFirst: node entries are values in the job's map; handles shared between threads (Arc, RwLock) are not modelled.
- Schedulers.RarityOrder: requires that the heartbeats' bitmaps cover every chunk; on a shorter one the source panics, and Bitmaps.DecodeShape says exactly when it is shorter.
- JobStates.PeersAreBest: requires, like Trackers.Job.GetPeers, that looking up the chunk in the entries' bitmaps does not panic; ProtocolSafety.QueriesAreBest shows that this holds in every run.
- Trackers.Job.CompletionRatio: the quotient is exact, where the source rounds it to single precision.
- Trackers.Tracker.CreateJob: takes the fresh UUID as a parameter.
- ErasureCoders.ErasureCoder.Encode: the Galois kernel is a library; the model states the code by interpolation, which determines the shards of a systematic code of this kind up to the choice of evaluation points, and not the library's tables and matrix inversions.
- TailStripes.ReconstructStripe: a stripe with fewer shards than k+m, where the source would panic on an index it lists, is excluded.
- Wire.ReadMsg: the JSON serialiser and parser are arbitrary functions.
- PatchApplicators.PatchApplicator.VerifyUnaltered: requires that the patch's indices exist in the manifest, where the source would panic.
- SHA-256 and hex encoding: an arbitrary function.
- `PeerNode::fetch_manifest`: the status body it parses lacks the manifest's fields; nodes are given the manifest.
- Several jobs or several running processes sharing a directory, and file ids that escape it.
- A node that loses or alters its own chunk files after marking them.
- Average completion and transfer-reduction percentages, snapshots, metrics, logging, command line, error texts.
- Features found only in the documents: standby trackers, gossip, resume, blacklisting, automatic activation of erasure coding.
