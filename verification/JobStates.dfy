/** A distribution job as a value: what a heartbeat, an eviction pass and a
  * cancellation do to it, and what its node map remembers of its history. */
module JobStates {
  import opened Bytes
  import opened Wrappers
  import opened Sequences
  import opened Bitmaps
  import opened StableSorts
  import opened Manifests
  import opened Schedulers

  datatype SchedulingPolicy = RarityFirstPolicy | TopologyAwarePolicy

  datatype JobStatus = Running | Complete | Cancelled

  datatype Heartbeat = Heartbeat(
    nodeId: string, rackId: string, peerAddr: string, bitmapBytes: Bytes, uploadBw: nat)

  /** `completions` counts the times the job was declared complete. */
  datatype JobState = JobState(
    manifest: Manifest, policy: SchedulingPolicy, status: JobStatus,
    nodes: map<string, NodeInfo>, completions: nat)

  function NewJob(manifest: Manifest, policy: SchedulingPolicy): JobState {
    JobState(manifest, policy, Running, map[], 0)
  }

  /** What the tracker records of a heartbeat received at time `now`. */
  function Record(hb: Heartbeat, chunkCount: nat, now: nat): NodeInfo {
    NodeInfo(hb.nodeId, hb.rackId, hb.peerAddr, Decode(hb.bitmapBytes, chunkCount), hb.uploadBw, now)
  }

  predicate AllFull(nodes: map<string, NodeInfo>) {
    forall id :: id in nodes ==> Full(nodes[id].bitmap)
  }

  /** An entry that is there keeps its node id and takes over the rest. */
  function Refreshed(j: JobState, hb: Heartbeat, now: nat): NodeInfo {
    var record := Record(hb, j.manifest.chunkCount, now);
    if hb.nodeId in j.nodes then record.(nodeId := j.nodes[hb.nodeId].nodeId) else record
  }

  /** A heartbeat: the node's entry is refreshed; when its ratio reaches one,
    * all entries are checked and the job may be declared complete. */
  function Beat(j: JobState, hb: Heartbeat, now: nat): JobState {
    var record := Refreshed(j, hb, now);
    var nodes := j.nodes[hb.nodeId := record];
    if RatioReachesOne(record.bitmap) && AllFull(nodes)
    then j.(nodes := nodes, status := Complete, completions := j.completions + 1)
    else j.(nodes := nodes)
  }

  /** Whole seconds since the last heartbeat exceed the timeout. */
  predicate IsStale(ns: NodeInfo, timeoutSecs: nat, now: nat) {
    ns.lastSeen <= now && (now - ns.lastSeen) / 1000 > timeoutSecs
  }

  /** A node heard of less than a second after the timeout is safe. */
  lemma StaleIff(ns: NodeInfo, timeoutSecs: nat, now: nat)
    ensures IsStale(ns, timeoutSecs, now) <==> ns.lastSeen + 1000 * (timeoutSecs + 1) <= now
  {
  }

  function Evicted(j: JobState, timeoutSecs: nat, now: nat): JobState {
    j.(nodes := map id | id in j.nodes && !IsStale(j.nodes[id], timeoutSecs, now) :: j.nodes[id])
  }

  function CancelledJob(j: JobState): JobState {
    j.(status := Cancelled)
  }

  /** Each map key is its entry's node id. */
  ghost predicate KeysMatch(nodes: map<string, NodeInfo>) {
    forall id :: id in nodes ==> nodes[id].nodeId == id
  }

  // ----- completion

  /** The ratio gate never hides a completion: a heartbeat completes the job
    * exactly when after it every registered bitmap is full. */
  lemma BeatCompletes(j: JobState, hb: Heartbeat, now: nat)
    ensures var after := Beat(j, hb, now);
      && (AllFull(after.nodes) ==> after.status == Complete && after.completions == j.completions + 1)
      && (!AllFull(after.nodes) ==> after.status == j.status && after.completions == j.completions)
  {
    var record := Refreshed(j, hb, now);
    DecodeShape(hb.bitmapBytes, j.manifest.chunkCount);
    if Full(record.bitmap) { FullReachesOne(record.bitmap); }
    assert Beat(j, hb, now).nodes[hb.nodeId] == record;
  }

  // ----- histories

  datatype Event =
    | BeatEvent(hb: Heartbeat, at: nat)
    | EvictEvent(timeoutSecs: nat, at: nat)
    | CancelEvent

  function Apply(j: JobState, e: Event): JobState {
    match e
    case BeatEvent(hb, at) => Beat(j, hb, at)
    case EvictEvent(timeoutSecs, at) => Evicted(j, timeoutSecs, at)
    case CancelEvent => CancelledJob(j)
  }

  function Replay(j: JobState, history: seq<Event>): JobState
    decreases |history|
  {
    if |history| == 0 then j
    else Apply(Replay(j, history[..|history| - 1]), history[|history| - 1])
  }

  function Lookup(nodes: map<string, NodeInfo>, id: string): Option<NodeInfo> {
    if id in nodes then Some(nodes[id]) else None
  }

  predicate BeatOf(e: Event, id: string) {
    e.BeatEvent? && e.hb.nodeId == id
  }

  /** What an event leaves of one node's entry. */
  lemma ApplyAt(j: JobState, e: Event, id: string)
    requires KeysMatch(j.nodes)
    ensures var was, is_ := Lookup(j.nodes, id), Lookup(Apply(j, e).nodes, id);
      is_ == if BeatOf(e, id) then Some(Record(e.hb, j.manifest.chunkCount, e.at))
             else if e.EvictEvent? && was.Some? && IsStale(was.value, e.timeoutSecs, e.at) then None
             else was
  {
  }

  lemma {:induction false} ReplayKeeps(j: JobState, history: seq<Event>)
    ensures KeysMatch(j.nodes) ==> KeysMatch(Replay(j, history).nodes)
    ensures Replay(j, history).manifest == j.manifest && Replay(j, history).policy == j.policy
    decreases |history|
  {
    if |history| > 0 {
      var before := Replay(j, history[..|history| - 1]);
      ReplayKeeps(j, history[..|history| - 1]);
      if KeysMatch(before.nodes) {
        forall id | id in Replay(j, history).nodes ensures Replay(j, history).nodes[id].nodeId == id {
          ApplyAt(before, history[|history| - 1], id);
        }
      }
    }
  }

  /** Event `k` is a heartbeat of `id`, and no later event is another one or an
    * eviction that found it stale. */
  ghost predicate LastWriter(history: seq<Event>, chunkCount: nat, id: string, k: nat) {
    && k < |history| && BeatOf(history[k], id)
    && forall m :: k < m < |history| ==>
         !BeatOf(history[m], id) && !EvictedBy(history[m], Written(history[k], chunkCount))
  }

  function Written(e: Event, chunkCount: nat): NodeInfo
    requires e.BeatEvent?
  {
    Record(e.hb, chunkCount, e.at)
  }

  predicate EvictedBy(e: Event, ns: NodeInfo) {
    e.EvictEvent? && IsStale(ns, e.timeoutSecs, e.at)
  }

  /** The node map is the last-writer view of the history. */
  lemma {:induction false} NodesAreLastWriters(j: JobState, history: seq<Event>, id: string)
    requires j.nodes == map[]
    ensures var entry := Lookup(Replay(j, history).nodes, id);
      && (entry.None? ==> forall k: nat :: !LastWriter(history, j.manifest.chunkCount, id, k))
      && (entry.Some? ==> exists k: nat :: LastWriter(history, j.manifest.chunkCount, id, k)
                                        && entry.value == Written(history[k], j.manifest.chunkCount))
    decreases |history|
  {
    if |history| > 0 {
      var n := j.manifest.chunkCount;
      var before, last := history[..|history| - 1], history[|history| - 1];
      NodesAreLastWriters(j, before, id);
      ReplayKeeps(j, before);
      ApplyAt(Replay(j, before), last, id);
      assert history == before + [last];
      forall k: nat ensures LastWriter(history, n, id, k) <==> WritesAfter(before, last, n, id, k) {
        LastWriterStep(before, last, n, id, k);
      }
      if BeatOf(last, id) {
        assert WritesAfter(before, last, n, id, |before|);
      } else if Lookup(Replay(j, before).nodes, id).Some? {
        var k: nat :| LastWriter(before, n, id, k)
                   && Lookup(Replay(j, before).nodes, id).value == Written(before[k], n);
        assert WritesAfter(before, last, n, id, k) <==> !EvictedBy(last, Written(before[k], n));
        LastWriterUnique(before, n, id, k);
      }
    }
  }

  /** The last writer once one more event has happened. */
  ghost predicate WritesAfter(before: seq<Event>, last: Event, n: nat, id: string, k: nat) {
    if BeatOf(last, id) then k == |before|
    else LastWriter(before, n, id, k) && !EvictedBy(last, Written(before[k], n))
  }

  lemma LastWriterStep(before: seq<Event>, last: Event, n: nat, id: string, k: nat)
    ensures LastWriter(before + [last], n, id, k) <==> WritesAfter(before, last, n, id, k)
  {
    var history := before + [last];
    assert history[|before|] == last;
    assert forall m :: 0 <= m < |before| ==> history[m] == before[m];
  }

  lemma LastWriterUnique(history: seq<Event>, n: nat, id: string, k: nat)
    requires LastWriter(history, n, id, k)
    ensures forall l: nat :: LastWriter(history, n, id, l) ==> l == k
  {
  }

  // ----- the status of a whole history

  /** Event `k` is a heartbeat after which every registered bitmap was full. */
  ghost predicate Completing(j: JobState, history: seq<Event>, k: nat) {
    k < |history| && history[k].BeatEvent? && AllFull(Replay(j, history[..k + 1]).nodes)
  }

  ghost predicate NoCancelAfter(history: seq<Event>, k: nat) {
    forall m :: k < m < |history| ==> !history[m].CancelEvent?
  }

  ghost predicate CompleteSince(j: JobState, history: seq<Event>, k: nat) {
    Completing(j, history, k) && NoCancelAfter(history, k)
  }

  ghost predicate Quiet(j: JobState, history: seq<Event>) {
    forall k: nat :: k < |history| ==> QuietAt(j, history, k)
  }

  lemma CompletingPrefix(j: JobState, history: seq<Event>, k: nat)
    requires k + 1 < |history|
    ensures Completing(j, history, k) <==> Completing(j, history[..|history| - 1], k)
  {
    assert history[..|history| - 1][..k + 1] == history[..k + 1];
  }

  /** How the last event decides. */
  lemma LastEvent(j: JobState, history: seq<Event>)
    requires |history| > 0
    ensures var before, last := history[..|history| - 1], history[|history| - 1];
      Replay(j, history).status ==
        if last.CancelEvent? then Cancelled
        else if Completing(j, history, |history| - 1) then Complete
        else Replay(j, before).status
  {
    var before, last := history[..|history| - 1], history[|history| - 1];
    assert history[..|history|] == history;
    if last.BeatEvent? {
      BeatCompletes(Replay(j, before), last.hb, last.at);
    }
  }

  /** Some heartbeat completed the job and no cancellation came later. */
  ghost predicate EverComplete(j: JobState, history: seq<Event>) {
    exists k: nat :: CompleteSince(j, history, k)
  }

  lemma CompleteSinceStep(j: JobState, history: seq<Event>, k: nat)
    requires k + 1 < |history|
    ensures CompleteSince(j, history, k) <==>
      CompleteSince(j, history[..|history| - 1], k) && !history[|history| - 1].CancelEvent?
  {
    CompletingPrefix(j, history, k);
  }

  lemma EverCompleteStep(j: JobState, history: seq<Event>)
    requires |history| > 0
    ensures var last := |history| - 1;
      EverComplete(j, history) <==>
        || Completing(j, history, last)
        || (EverComplete(j, history[..last]) && !history[last].CancelEvent?)
  {
    var last := |history| - 1;
    assert CompleteSince(j, history, last) <==> Completing(j, history, last);
    EverCompleteBefore(j, history);
    if k: nat :| CompleteSince(j, history[..last], k) {
      CompleteSinceStep(j, history, k);
    }
  }

  lemma EverCompleteBefore(j: JobState, history: seq<Event>)
    requires |history| > 0
    ensures var last := |history| - 1;
      EverComplete(j, history) && !Completing(j, history, last) ==>
        EverComplete(j, history[..last]) && !history[last].CancelEvent?
  {
    if k: nat :| k < |history| - 1 && CompleteSince(j, history, k) {
      CompleteSinceStep(j, history, k);
    }
  }

  /** The job is complete exactly when some heartbeat completed it and no
    * cancellation came later, whatever else happened; a completion also
    * overrides an earlier cancellation. */
  lemma {:induction false} CompleteIsLastWord(j: JobState, history: seq<Event>)
    requires j.status == Running
    ensures Replay(j, history).status == Complete <==> EverComplete(j, history)
    decreases |history|
  {
    if |history| > 0 {
      CompleteIsLastWord(j, history[..|history| - 1]);
      LastEvent(j, history);
      EverCompleteStep(j, history);
    }
  }

  ghost predicate QuietAt(j: JobState, history: seq<Event>, k: nat)
    requires k < |history|
  {
    !Completing(j, history, k) && !history[k].CancelEvent?
  }

  lemma QuietStep(j: JobState, history: seq<Event>)
    requires |history| > 0
    ensures var last := |history| - 1;
      Quiet(j, history) <==> Quiet(j, history[..last]) && QuietAt(j, history, last)
  {
    var before := history[..|history| - 1];
    forall k: nat | k < |before| ensures QuietAt(j, history, k) <==> QuietAt(j, before, k) {
      CompletingPrefix(j, history, k);
    }
  }

  /** The job is still running exactly when nothing completed or cancelled it. */
  lemma {:induction false} RunningIsQuiet(j: JobState, history: seq<Event>)
    requires j.status == Running
    ensures Replay(j, history).status == Running <==> Quiet(j, history)
    decreases |history|
  {
    if |history| > 0 {
      RunningIsQuiet(j, history[..|history| - 1]);
      LastEvent(j, history);
      QuietStep(j, history);
    }
  }

  // ----- what eviction can do to completion

  /** An eviction can leave only full bitmaps without the job being declared
    * complete; the next heartbeat of any full node declares it. */
  lemma NextBeatDeclares(j: JobState, timeoutSecs: nat, at: nat, hb: Heartbeat, now: nat)
    requires AllFull(Evicted(j, timeoutSecs, at).nodes)
    ensures Evicted(j, timeoutSecs, at).status == j.status
    ensures Beat(Evicted(j, timeoutSecs, at), hb, now).completions ==
      j.completions + if Full(Decode(hb.bitmapBytes, j.manifest.chunkCount)) then 1 else 0
  {
    var after := Beat(Evicted(j, timeoutSecs, at), hb, now);
    BeatCompletes(Evicted(j, timeoutSecs, at), hb, now);
    assert AllFull(after.nodes) <==> Full(after.nodes[hb.nodeId].bitmap);
  }

  /** Nodes are registered, all of them complete, and the job is not. */
  ghost predicate Overdue(j: JobState) {
    j.nodes != map[] && AllFull(j.nodes) && j.status != Complete
  }

  /** An eviction leaves completion overdue exactly when the job is not complete,
    * some entry is fresh, and every fresh one is full. */
  lemma OverdueAfterEviction(j: JobState, timeoutSecs: nat, at: nat)
    ensures Overdue(Evicted(j, timeoutSecs, at)) <==>
      && j.status != Complete
      && (exists id :: id in j.nodes && !IsStale(j.nodes[id], timeoutSecs, at))
      && (forall id :: id in j.nodes ==> Full(j.nodes[id].bitmap) || IsStale(j.nodes[id], timeoutSecs, at))
  {
    var after := Evicted(j, timeoutSecs, at);
    forall id | id in j.nodes
      ensures id in after.nodes <==> !IsStale(j.nodes[id], timeoutSecs, at)
      ensures id in after.nodes ==> after.nodes[id] == j.nodes[id]
    {
    }
    if after.nodes != map[] {
      var id :| id in after.nodes.Keys;
      assert id in j.nodes;
    }
  }

  lemma {:induction false} ReplaySnoc(j: JobState, history: seq<Event>, e: Event)
    ensures Replay(j, history + [e]) == Apply(Replay(j, history), e)
  {
    assert (history + [e])[..|history|] == history;
  }

  const ONE_CHUNK := Manifest("f", "1", 1, 1, 1, ["h"])
  const LATE := BeatEvent(Heartbeat("b", "r", "p", [ZERO], 0), 0)
  const DONE := BeatEvent(Heartbeat("a", "r", "p", [TopByte([true])], 0), 100_000)
  const SWEEP := EvictEvent(60, 100_000)

  lemma OneChunkBitmaps()
    ensures Decode(LATE.hb.bitmapBytes, 1) == Bitmap([false], 0, 1)
    ensures Decode(DONE.hb.bitmapBytes, 1) == Bitmap([true], 1, 1)
  {
    assert Unpack([ZERO])[..1] == [false];
    assert Unpack([TopByte([true])])[..1] == [true];
  }

  /** It happens: a node that lags falls silent, another one completes, and the
    * sweep drops the first. */
  lemma EvictionCanLeaveCompletionUndeclared()
    ensures Overdue(Replay(NewJob(ONE_CHUNK, RarityFirstPolicy), [LATE, DONE, SWEEP]))
  {
    var j := NewJob(ONE_CHUNK, RarityFirstPolicy);
    OneChunkBitmaps();
    ReplaySnoc(j, [], LATE);
    ReplaySnoc(j, [LATE], DONE);
    ReplaySnoc(j, [LATE, DONE], SWEEP);
    assert [] + [LATE] == [LATE] && [LATE] + [DONE] == [LATE, DONE];
    assert [LATE, DONE] + [SWEEP] == [LATE, DONE, SWEEP];
    var one, two := Replay(j, [LATE]), Replay(j, [LATE, DONE]);
    BeatCompletes(j, LATE.hb, LATE.at);
    BeatCompletes(one, DONE.hb, DONE.at);
    assert one.nodes["b"].bitmap == Bitmap([false], 0, 1);
    assert !AllFull(one.nodes);
    assert two.nodes["b"] == one.nodes["b"] && !AllFull(two.nodes);
    assert two.nodes["a"].bitmap == Bitmap([true], 1, 1);
    assert two.nodes.Keys == {"a", "b"};
    OverdueAfterEviction(two, 60, 100_000);
    assert !IsStale(two.nodes["a"], 60, 100_000) && IsStale(two.nodes["b"], 60, 100_000);
  }

  // ----- rebuilding the map

  ghost predicate Mentions(beats: seq<Event>, id: string) {
    exists t :: 0 <= t < |beats| && BeatOf(beats[t], id)
  }

  /** Every event is a heartbeat that carries what the map holds of its node,
    * whenever it is received. */
  ghost predicate Faithful(nodes: map<string, NodeInfo>, chunkCount: nat, beats: seq<Event>) {
    forall t :: 0 <= t < |beats| ==>
      && beats[t].BeatEvent? && beats[t].hb.nodeId in nodes
      && Written(beats[t], chunkCount) == nodes[beats[t].hb.nodeId].(lastSeen := beats[t].at)
  }

  /** Among heartbeats, one is the last of a node. */
  lemma {:induction false} LastMention(beats: seq<Event>, n: nat, id: string)
    requires Mentions(beats, id) && forall t :: 0 <= t < |beats| ==> beats[t].BeatEvent?
    ensures exists k: nat :: LastWriter(beats, n, id, k)
    decreases |beats|
  {
    var before, last := beats[..|beats| - 1], beats[|beats| - 1];
    if BeatOf(last, id) {
      assert LastWriter(beats, n, id, |beats| - 1);
    } else {
      var t :| 0 <= t < |beats| && BeatOf(beats[t], id);
      assert BeatOf(before[t], id);
      LastMention(before, n, id);
      var k: nat :| LastWriter(before, n, id, k);
      assert beats == before + [last];
      LastWriterStep(before, last, n, id, k);
    }
  }

  /** The entry is what it was, last seen at the node's last heartbeat. */
  ghost predicate HeardAgain(ns: NodeInfo, was: NodeInfo, beats: seq<Event>, n: nat, id: string) {
    exists k: nat :: LastWriter(beats, n, id, k) && ns == was.(lastSeen := beats[k].at)
  }

  lemma {:induction false} RebuiltEntry(j: JobState, was: map<string, NodeInfo>, beats: seq<Event>, id: string)
    requires j.nodes == map[] && Faithful(was, j.manifest.chunkCount, beats)
    requires id in was ==> Mentions(beats, id)
    ensures id in Replay(j, beats).nodes <==> id in was
    ensures id in was ==> HeardAgain(Replay(j, beats).nodes[id], was[id], beats, j.manifest.chunkCount, id)
  {
    var n := j.manifest.chunkCount;
    var entry := Lookup(Replay(j, beats).nodes, id);
    NodesAreLastWriters(j, beats, id);
    if id in was {
      LastMention(beats, n, id);
    }
    if entry.Some? {
      var k: nat :| LastWriter(beats, n, id, k) && entry.value == Written(beats[k], n);
    }
  }

  lemma {:induction false} RebuiltMap(j: JobState, was: map<string, NodeInfo>, beats: seq<Event>)
    requires j.nodes == map[] && Faithful(was, j.manifest.chunkCount, beats)
    requires forall id :: id in was ==> Mentions(beats, id)
    ensures var rebuilt := Replay(j, beats).nodes;
      && rebuilt.Keys == was.Keys
      && forall id :: id in was ==> HeardAgain(rebuilt[id], was[id], beats, j.manifest.chunkCount, id)
  {
    var n, rebuilt := j.manifest.chunkCount, Replay(j, beats).nodes;
    RebuiltKeys(j, was, beats);
    forall id | id in was ensures HeardAgain(rebuilt[id], was[id], beats, n, id) {
      RebuiltEntry(j, was, beats, id);
    }
  }

  lemma {:induction false} RebuiltKeys(j: JobState, was: map<string, NodeInfo>, beats: seq<Event>)
    requires j.nodes == map[] && Faithful(was, j.manifest.chunkCount, beats)
    requires forall id :: id in was ==> Mentions(beats, id)
    ensures Replay(j, beats).nodes.Keys == was.Keys
  {
    forall id ensures id in Replay(j, beats).nodes <==> id in was {
      RebuiltEntry(j, was, beats, id);
    }
  }

  /** A restarted tracker that hears again from every node it knew, in any order
    * and at any times, knows the same of them; only the time each was last seen
    * is that of its last heartbeat since. */
  lemma {:induction false} RestartRebuilds(j: JobState, history: seq<Event>, beats: seq<Event>)
    requires j.nodes == map[]
    requires Faithful(Replay(j, history).nodes, j.manifest.chunkCount, beats)
    requires forall id :: id in Replay(j, history).nodes ==> Mentions(beats, id)
    ensures var was, rebuilt := Replay(j, history).nodes, Replay(j, beats).nodes;
      && rebuilt.Keys == was.Keys
      && forall id :: id in was ==> HeardAgain(rebuilt[id], was[id], beats, j.manifest.chunkCount, id)
  {
    RebuiltMap(j, Replay(j, history).nodes, beats);
  }

  // ----- queries

  /** An order in which the map may yield its keys. */
  ghost predicate Enumerates(order: seq<string>, nodes: map<string, NodeInfo>) {
    NoDuplicates(order) && Elements(order) == nodes.Keys
  }

  lemma OrderInNodes(order: seq<string>, nodes: map<string, NodeInfo>)
    requires Enumerates(order, nodes)
    ensures forall id :: id in order ==> id in nodes
  {
    assert forall id :: id in order ==> id in Elements(order);
  }

  function Entries(nodes: map<string, NodeInfo>, order: seq<string>): (entries: seq<NodeInfo>)
    requires forall id :: id in order ==> id in nodes
    ensures |entries| == |order|
    ensures forall ns :: ns in entries ==> exists id :: id in order && ns == nodes[id]
  {
    seq(|order|, t requires 0 <= t < |order| => nodes[order[t]])
  }

  /** Looking the chunk up in the other nodes' bitmaps does not panic. */
  ghost predicate AllReadable(nodes: map<string, NodeInfo>, requester: string, chunk: nat) {
    forall id :: id in nodes && nodes[id].nodeId != requester ==> Readable(nodes[id].bitmap, chunk)
  }

  lemma EntriesReadable(nodes: map<string, NodeInfo>, order: seq<string>, requester: string, chunk: nat)
    requires forall id :: id in order ==> id in nodes
    requires AllReadable(nodes, requester, chunk)
    ensures ReadableFor(Entries(nodes, order), requester, chunk)
  {
    var entries := Entries(nodes, order);
    forall t | 0 <= t < |entries| && entries[t].nodeId != requester ensures Readable(entries[t].bitmap, chunk) {
      assert order[t] in order;
    }
  }

  ghost predicate WholeNodes(j: JobState) {
    forall id :: id in j.nodes ==> Whole(j.nodes[id].bitmap) && j.nodes[id].bitmap.chunkCount == j.manifest.chunkCount
  }

  function RankingOrder(policy: SchedulingPolicy, rack: string): (CandidatePeer, CandidatePeer) -> bool {
    if policy.RarityFirstPolicy? then FasterFirst else LocalFirst(rack)
  }

  /** `p` may be listed before `q`. */
  predicate Outranks(policy: SchedulingPolicy, rack: string, p: CandidatePeer, q: CandidatePeer) {
    var faster := p.uploadBw >= q.uploadBw;
    match policy
    case RarityFirstPolicy => faster
    case TopologyAwarePolicy =>
      if q.rackId == rack then p.rackId == rack && faster else p.rackId == rack || faster
  }

  /** The answer to a peer query, for the order in which the map yields its entries. */
  function PeersFor(j: JobState, order: seq<string>, requester: string, rack: string, chunk: nat,
                    topN: nat): seq<CandidatePeer>
    requires forall id :: id in order ==> id in j.nodes
    requires ReadableFor(Entries(j.nodes, order), requester, chunk)
  {
    Truncate(Sort(RankingOrder(j.policy, rack), Candidates(Entries(j.nodes, order), requester, chunk)), topN)
  }

  /** Under either policy, asking for more peers only extends the answer. */
  lemma MorePeersExtend(j: JobState, order: seq<string>, requester: string, rack: string, chunk: nat,
                        n: nat, more: nat)
    requires forall id :: id in order ==> id in j.nodes
    requires ReadableFor(Entries(j.nodes, order), requester, chunk)
    requires n <= more
    ensures PeersFor(j, order, requester, rack, chunk, n) ==
      Truncate(PeersFor(j, order, requester, rack, chunk, more), n)
  {
  }

  lemma RankingIsOutranking(policy: SchedulingPolicy, rack: string, p: CandidatePeer, q: CandidatePeer)
    ensures RankingOrder(policy, rack)(p, q) <==> Outranks(policy, rack, p, q)
  {
  }

  lemma OrderReadable(nodes: map<string, NodeInfo>, order: seq<string>, requester: string, chunk: nat)
    requires Enumerates(order, nodes) && forall id :: id in order ==> id in nodes
    requires ReadableFor(Entries(nodes, order), requester, chunk)
    ensures AllReadable(nodes, requester, chunk)
  {
    forall id | id in nodes && nodes[id].nodeId != requester ensures Readable(nodes[id].bitmap, chunk) {
      assert id in Elements(order);
      var t :| 0 <= t < |order| && order[t] == id;
      assert Entries(nodes, order)[t] == nodes[id];
    }
  }

  /** The nodes other than the requester that hold the chunk, from position `from` on. */
  ghost function HolderIds(nodes: map<string, NodeInfo>, order: seq<string>, requester: string, chunk: nat,
                             from: nat): set<string>
    requires KeysMatch(nodes) && AllReadable(nodes, requester, chunk) && from <= |order|
  {
    set id | id in order[from..] && id in nodes && id != requester && Holds(nodes[id].bitmap, chunk)
  }

  lemma HolderIdsStep(nodes: map<string, NodeInfo>, order: seq<string>, requester: string, chunk: nat, from: nat)
    requires KeysMatch(nodes) && AllReadable(nodes, requester, chunk) && from < |order| && order[from] in nodes
    requires NoDuplicates(order)
    ensures var id, next := order[from], HolderIds(nodes, order, requester, chunk, from + 1);
      && id !in next
      && HolderIds(nodes, order, requester, chunk, from) ==
           if id != requester && Holds(nodes[id].bitmap, chunk) then next + {id} else next
  {
    assert order[from..] == [order[from]] + order[from + 1..];
  }

  /** Positions and node ids of the other holders are as many. */
  lemma {:induction false} HoldersCounted(nodes: map<string, NodeInfo>, order: seq<string>, requester: string,
                                          chunk: nat, from: nat)
    requires KeysMatch(nodes) && AllReadable(nodes, requester, chunk)
    requires NoDuplicates(order) && from <= |order| && forall id :: id in order ==> id in nodes
    requires ReadableFor(Entries(nodes, order), requester, chunk)
    ensures |HolderPositions(Entries(nodes, order), requester, chunk, from)| ==
      |HolderIds(nodes, order, requester, chunk, from)|
    decreases |order| - from
  {
    var entries := Entries(nodes, order);
    if from < |order| {
      HoldersCounted(nodes, order, requester, chunk, from + 1);
      HolderPositionsStep(entries, requester, chunk, from);
      HolderIdsStep(nodes, order, requester, chunk, from);
      assert entries[from] == nodes[order[from]] && order[from] in order;
    } else {
      assert HolderPositions(entries, requester, chunk, from) == {};
      assert HolderIds(nodes, order, requester, chunk, from) == {};
    }
  }

  /** A node that holds the chunk is eligible. */
  lemma HolderIsEligible(nodes: map<string, NodeInfo>, order: seq<string>, requester: string, chunk: nat, id: string)
    requires KeysMatch(nodes) && Enumerates(order, nodes) && forall id :: id in order ==> id in nodes
    requires ReadableFor(Entries(nodes, order), requester, chunk) && AllReadable(nodes, requester, chunk)
    requires id in nodes && id != requester && Holds(nodes[id].bitmap, chunk)
    ensures Eligible(Entries(nodes, order), requester, chunk, Candidate(nodes[id]))
  {
    assert id in Elements(order);
    var t :| 0 <= t < |order| && order[t] == id;
    assert Entries(nodes, order)[t] == nodes[id];
  }

  /** In every job state whose keys match, a query's answer is a best choice,
    * under either policy and in whatever order the map is walked: best first,
    * as many of the nodes that hold the chunk as asked for, and none of them
    * left out that comes before one listed. */
  lemma PeersAreBest(j: JobState, order: seq<string>, requester: string, rack: string, chunk: nat, topN: nat)
    requires KeysMatch(j.nodes) && Enumerates(order, j.nodes)
    requires forall id :: id in order ==> id in j.nodes
    requires ReadableFor(Entries(j.nodes, order), requester, chunk)
    ensures BestChoice(RankingOrder(j.policy, rack), Entries(j.nodes, order), requester, chunk, topN,
                       PeersFor(j, order, requester, rack, chunk, topN))
    ensures var peers := PeersFor(j, order, requester, rack, chunk, topN);
      && (forall s, t :: 0 <= s < t < |peers| ==> Outranks(j.policy, rack, peers[s], peers[t]))
      && (forall p, q :: p in peers && Eligible(Entries(j.nodes, order), requester, chunk, q) && q !in peers ==>
            Outranks(j.policy, rack, p, q))
    ensures forall p :: p in PeersFor(j, order, requester, rack, chunk, topN) ==>
      p.nodeId in j.nodes && p.nodeId != requester
      && p.peerAddr == j.nodes[p.nodeId].peerAddr && p.rackId == j.nodes[p.nodeId].rackId
      && p.uploadBw == j.nodes[p.nodeId].uploadBw
      && Readable(j.nodes[p.nodeId].bitmap, chunk) && Holds(j.nodes[p.nodeId].bitmap, chunk)
    ensures AllReadable(j.nodes, requester, chunk)
    ensures var peers := PeersFor(j, order, requester, rack, chunk, topN);
      && |peers| == Min(topN, |set id | id in j.nodes && id != requester && Holds(j.nodes[id].bitmap, chunk)|)
      && forall id :: id in j.nodes && id != requester && Holds(j.nodes[id].bitmap, chunk) ==>
           || (exists p :: p in peers && p.nodeId == id)
           || (forall p :: p in peers ==> Outranks(j.policy, rack, p, Candidate(j.nodes[id])))
    ensures var peers := PeersFor(j, order, requester, rack, chunk, topN);
      forall s, t :: 0 <= s < t < |peers| ==>
        if j.policy == RarityFirstPolicy || (peers[s].rackId == rack <==> peers[t].rackId == rack)
        then peers[s].uploadBw >= peers[t].uploadBw else peers[s].rackId == rack
  {
    var peers := PeersFor(j, order, requester, rack, chunk, topN);
    ChoiceIsBest(j, order, requester, rack, chunk, topN);
    PeersAreOrdered(j.policy, rack, peers);
    forall p, q | p in peers && Eligible(Entries(j.nodes, order), requester, chunk, q) && q !in peers
      ensures Outranks(j.policy, rack, p, q)
    {
      RankingIsOutranking(j.policy, rack, p, q);
    }
    forall p | p in peers
      ensures p.nodeId in j.nodes && p.nodeId != requester
      ensures p.peerAddr == j.nodes[p.nodeId].peerAddr && p.rackId == j.nodes[p.nodeId].rackId
      ensures p.uploadBw == j.nodes[p.nodeId].uploadBw
      ensures Readable(j.nodes[p.nodeId].bitmap, chunk) && Holds(j.nodes[p.nodeId].bitmap, chunk)
    {
      EligibleIsKnown(j.nodes, order, requester, chunk, p);
    }
    OrderReadable(j.nodes, order, requester, chunk);
    HoldersAreListed(j, order, requester, rack, chunk, topN);
  }

  lemma ChoiceIsBest(j: JobState, order: seq<string>, requester: string, rack: string, chunk: nat, topN: nat)
    requires KeysMatch(j.nodes) && Enumerates(order, j.nodes)
    requires forall id :: id in order ==> id in j.nodes
    requires ReadableFor(Entries(j.nodes, order), requester, chunk)
    ensures BestChoice(RankingOrder(j.policy, rack), Entries(j.nodes, order), requester, chunk, topN,
                       PeersFor(j, order, requester, rack, chunk, topN))
  {
    FasterIsPreorder();
    LocalIsPreorder(rack);
    var entries := Entries(j.nodes, order);
    forall t, u | 0 <= t < u < |entries| ensures entries[t].nodeId != entries[u].nodeId {
      assert order[t] != order[u];
      assert order[t] in order && order[u] in order;
    }
    SelectionIsBest(RankingOrder(j.policy, rack), entries, requester, chunk, topN);
  }

  lemma PeersAreOrdered(policy: SchedulingPolicy, rack: string, peers: seq<CandidatePeer>)
    requires Ordered(RankingOrder(policy, rack), peers)
    ensures forall s, t :: 0 <= s < t < |peers| ==>
      && Outranks(policy, rack, peers[s], peers[t])
      && if policy == RarityFirstPolicy || (peers[s].rackId == rack <==> peers[t].rackId == rack)
         then peers[s].uploadBw >= peers[t].uploadBw else peers[s].rackId == rack
  {
    forall s, t | 0 <= s < t < |peers| ensures Outranks(policy, rack, peers[s], peers[t]) {
      RankingIsOutranking(policy, rack, peers[s], peers[t]);
    }
  }

  /** An eligible peer is a registered node as it is known. */
  lemma EligibleIsKnown(nodes: map<string, NodeInfo>, order: seq<string>, requester: string, chunk: nat,
                        p: CandidatePeer)
    requires KeysMatch(nodes) && forall id :: id in order ==> id in nodes
    requires ReadableFor(Entries(nodes, order), requester, chunk)
    requires Eligible(Entries(nodes, order), requester, chunk, p)
    ensures p.nodeId in nodes && p.nodeId != requester && p == Candidate(nodes[p.nodeId])
    ensures p.peerAddr == nodes[p.nodeId].peerAddr && p.rackId == nodes[p.nodeId].rackId
    ensures p.uploadBw == nodes[p.nodeId].uploadBw
    ensures Readable(nodes[p.nodeId].bitmap, chunk) && Holds(nodes[p.nodeId].bitmap, chunk)
  {
    var ns :| ns in Entries(nodes, order) && ns.nodeId != requester && Holds(ns.bitmap, chunk) && p == Candidate(ns);
    var id :| id in order && ns == nodes[id];
    assert id in nodes;
  }

  lemma {:induction false} HoldersAreListed(j: JobState, order: seq<string>, requester: string, rack: string,
                                            chunk: nat, topN: nat)
    requires KeysMatch(j.nodes) && Enumerates(order, j.nodes)
    requires forall id :: id in order ==> id in j.nodes
    requires ReadableFor(Entries(j.nodes, order), requester, chunk) && AllReadable(j.nodes, requester, chunk)
    requires BestChoice(RankingOrder(j.policy, rack), Entries(j.nodes, order), requester, chunk, topN,
                        PeersFor(j, order, requester, rack, chunk, topN))
    ensures var peers := PeersFor(j, order, requester, rack, chunk, topN);
      && |peers| == Min(topN, |set id | id in j.nodes && id != requester && Holds(j.nodes[id].bitmap, chunk)|)
      && forall id :: id in j.nodes && id != requester && Holds(j.nodes[id].bitmap, chunk) ==>
           || (exists p :: p in peers && p.nodeId == id)
           || (forall p :: p in peers ==> Outranks(j.policy, rack, p, Candidate(j.nodes[id])))
  {
    var peers := PeersFor(j, order, requester, rack, chunk, topN);
    HoldersCounted(j.nodes, order, requester, chunk, 0);
    assert HolderIds(j.nodes, order, requester, chunk, 0) ==
      set id | id in j.nodes && id != requester && Holds(j.nodes[id].bitmap, chunk) by {
      assert order[0..] == order;
      assert forall id :: id in j.nodes <==> id in Elements(order);
    }
    forall id | id in j.nodes && id != requester && Holds(j.nodes[id].bitmap, chunk)
      ensures (exists p :: p in peers && p.nodeId == id)
              || (forall p :: p in peers ==> Outranks(j.policy, rack, p, Candidate(j.nodes[id])))
    {
      HolderIsEligible(j.nodes, order, requester, chunk, id);
      var q := Candidate(j.nodes[id]);
      if q in peers {
        assert q.nodeId == id;
      }
      forall p | p in peers && q !in peers ensures Outranks(j.policy, rack, p, q) {
        RankingIsOutranking(j.policy, rack, p, q);
      }
    }
  }
}
