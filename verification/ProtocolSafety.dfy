/** What the step machine guarantees in every run. */
module ProtocolSafety {
  import opened Bytes
  import opened Wrappers
  import opened Sequences
  import opened Bitmaps
  import opened Manifests
  import opened ChunkStores
  import opened Wire
  import opened Nodes
  import opened NodeSteps
  import opened Schedulers
  import opened JobStates
  import opened Protocol
  import opened Directories

  lemma {:induction false} Safe(hash: Hasher, start: World, actions: seq<Action>)
    requires Initial(hash, start)
    ensures Inv(hash, Run(hash, start, actions))
  {
    RunKeeps(hash, start, actions);
  }

  // ----- heartbeats and processes

  /** Process `id`, alive, sends a heartbeat at step `t`, and it says this. */
  ghost predicate SentAt(hash: Hasher, start: World, actions: seq<Action>, hb: Heartbeat, t: nat) {
    && t < |actions| && actions[t] == Send(hb.nodeId)
    && var w := Run(hash, start, actions[..t]);
       && hb.nodeId in w.nodes && w.nodes[hb.nodeId].alive
       && var n := w.nodes[hb.nodeId];
          hb == Heartbeat(hb.nodeId, n.rackId, n.peerAddr, Encode(n.bitmap), 8_000)
  }

  lemma SentPrefix(hash: Hasher, start: World, before: seq<Action>, a: Action, hb: Heartbeat, t: nat)
    requires t < |before|
    ensures SentAt(hash, start, before + [a], hb, t) <==> SentAt(hash, start, before, hb, t)
  {
    assert (before + [a])[..t] == before[..t];
  }

  lemma {:induction false} SentNow(hash: Hasher, start: World, before: seq<Action>, a: Action, hb: Heartbeat)
    ensures hb in Run(hash, start, before + [a]).sent <==>
      hb in Run(hash, start, before).sent || SentAt(hash, start, before + [a], hb, |before|)
  {
    assert (before + [a])[..|before|] == before;
  }

  /** What is in flight, and may still arrive, is exactly what live processes have
    * sent, whenever that was and however often it has arrived. */
  lemma {:induction false} SentIff(hash: Hasher, start: World, actions: seq<Action>, hb: Heartbeat)
    requires start.sent == {}
    ensures hb in Run(hash, start, actions).sent <==> exists t: nat :: SentAt(hash, start, actions, hb, t)
    decreases |actions|
  {
    if actions != [] {
      var before, a := actions[..|actions| - 1], actions[|actions| - 1];
      assert actions == before + [a];
      SentIff(hash, start, before, hb);
      SentNow(hash, start, before, a, hb);
      forall t: nat | t < |before|
        ensures SentAt(hash, start, actions, hb, t) <==> SentAt(hash, start, before, hb, t)
      {
        SentPrefix(hash, start, before, a, hb, t);
      }
    }
  }

  /** A process that has not crashed runs on in its directory; and one that has does
    * nothing any more. */
  lemma {:induction false} LiveUntilCrash(hash: Hasher, w: World, later: seq<Action>, id: string)
    requires Inv(hash, w) && id in w.nodes
    ensures var after := Run(hash, w, later);
      && (w.nodes[id].alive && (forall t :: 0 <= t < |later| ==> later[t] != Local(id, Crash)) ==>
            id in after.nodes && after.nodes[id].alive)
      && (!w.nodes[id].alive ==> if id in after.nodes then after.nodes[id] == w.nodes[id] else id in after.former)
    decreases |later|
  {
    if later != [] {
      var before := Run(hash, w, later[..|later| - 1]);
      LiveUntilCrash(hash, w, later[..|later| - 1], id);
      RunKeeps(hash, w, later[..|later| - 1]);
      LiveStep(hash, before, later[|later| - 1], id);
    }
  }

  lemma LiveStep(hash: Hasher, w: World, a: Action, id: string)
    requires FormersOk(hash, w)
    ensures var v := Step(hash, w, a);
      && (id in w.nodes && w.nodes[id].alive && a != Local(id, Crash) ==> id in v.nodes && v.nodes[id].alive)
      && (id in w.nodes && !w.nodes[id].alive ==>
            if id in v.nodes then v.nodes[id] == w.nodes[id] else id in v.former)
      && (id in w.former ==> id in v.former && id !in v.nodes)
  {
    if a.Restart? {
      LiveRestart(hash, w, a, id);
    } else if a.Local? {
      LiveLocal(hash, w, a, id);
    } else if !a.Join? {
      OtherActionStays(hash, w, a);
    }
  }

  lemma LiveRestart(hash: Hasher, w: World, a: Action, id: string)
    requires a.Restart? && FormersOk(hash, w)
    ensures var v := Step(hash, w, a);
      && (id in w.nodes ==>
            if id in v.nodes then v.nodes[id] == w.nodes[id] else id in v.former && !w.nodes[id].alive)
      && (id in w.former ==> id in v.former && id !in v.nodes)
  {
  }

  lemma LiveLocal(hash: Hasher, w: World, a: Action, id: string)
    requires a.Local?
    ensures var v := Step(hash, w, a);
      && (id in w.nodes && a != Local(id, Crash) ==> id in v.nodes && v.nodes[id].alive == w.nodes[id].alive)
      && (id in w.nodes && !w.nodes[id].alive ==> id in v.nodes && v.nodes[id] == w.nodes[id])
      && v.nodes.Keys == w.nodes.Keys && v.former == w.former
  {
  }

  // ----- what is claimed is stored

  /** The file of a marked chunk is good as long as the process that marked it has
    * the directory; after that, as long as it is not cut short. */
  ghost predicate Backed(hash: Hasher, w: World, id: string, i: nat) {
    && (id in w.nodes ==> GoodIn(hash, w, id, i))
    && (GoodIn(hash, w, id, i) <==> RightLength(w.job.manifest, DiskOf(w, id), i))
  }

  ghost predicate MarkedBy(w: World, id: string, i: nat) {
    ProfileOf(w, id).Some? && i < |ProfileOf(w, id).value.bitmap.bits| && ProfileOf(w, id).value.bitmap.bits[i]
  }

  lemma MarkedIsBacked(hash: Hasher, w: World, id: string, i: nat)
    requires Inv(hash, w) && MarkedBy(w, id, i)
    ensures Backed(hash, w, id, i)
  {
    if id in w.nodes {
      assert NodeOk(hash, w.job.manifest, w.nodes[id]);
    } else {
      assert FormerOk(hash, w.job.manifest, w.former[id], w.nodes[w.former[id].heir]);
      assert GoodUnlessShort(hash, w.job.manifest, DiskOf(w, id), i);
    }
  }

  /** In every state of every run, what the tracker records of a process is part
    * of what the process marked, and what it marked is backed by the files in
    * its directory. */
  lemma {:induction false} ClaimsAreTrue(hash: Hasher, start: World, actions: seq<Action>, id: string, i: nat)
    requires Initial(hash, start)
    requires var w := Run(hash, start, actions); id in w.job.nodes && i < w.job.manifest.chunkCount
    ensures var w := Run(hash, start, actions);
      && ProfileOf(w, id).Some? && Within(w.job.nodes[id].bitmap, ProfileOf(w, id).value.bitmap)
      && w.job.nodes[id].bitmap.chunkCount == w.job.manifest.chunkCount
      && (Holds(w.job.nodes[id].bitmap, i) ==> MarkedBy(w, id, i))
      && (MarkedBy(w, id, i) ==> Backed(hash, w, id, i))
  {
    Safe(hash, start, actions);
    var w := Run(hash, start, actions);
    assert Known(w, w.job.nodes[id], id);
    ProfileFits(hash, w, id);
    if MarkedBy(w, id, i) {
      MarkedIsBacked(hash, w, id, i);
    }
  }

  lemma ProfileFits(hash: Hasher, w: World, id: string)
    requires Inv(hash, w) && ProfileOf(w, id).Some?
    ensures var b := ProfileOf(w, id).value.bitmap; Whole(b) && b.chunkCount == w.job.manifest.chunkCount
  {
    if id in w.nodes {
      assert NodeOk(hash, w.job.manifest, w.nodes[id]);
    } else {
      assert FormerOk(hash, w.job.manifest, w.former[id], w.nodes[w.former[id].heir]);
    }
  }

  /** Ids do not come back. */
  lemma StillThere(hash: Hasher, w: World, a: Action, id: string)
    requires ProfileOf(w, id).Some? && id in Step(hash, w, a).nodes
    ensures id in w.nodes
  {
  }

  lemma StepFreezes(hash: Hasher, w: World, a: Action, id: string)
    requires Inv(hash, w) && id in w.nodes && id in Step(hash, w, a).nodes
    ensures Frozen(w.job.manifest.fileId, w.nodes[id], Step(hash, w, a).nodes[id])
  {
    assert NodeOk(hash, w.job.manifest, w.nodes[id]);
    if a.Local? && a.id == id {
      LocalStepFreezes(hash, w.job.manifest, w.nodes[id], a.act);
    } else {
      OthersStay(hash, w, a, id);
    }
  }

  lemma OthersStay(hash: Hasher, w: World, a: Action, id: string)
    requires id in w.nodes && id in Step(hash, w, a).nodes && !(a.Local? && a.id == id)
    ensures Step(hash, w, a).nodes[id] == w.nodes[id]
  {
  }

  /** As long as a process runs or may still run, the files it marked stay as they are. */
  lemma {:induction false} OwnFilesStay(hash: Hasher, w: World, later: seq<Action>, id: string)
    requires Inv(hash, w) && id in w.nodes && id in Run(hash, w, later).nodes
    ensures Frozen(w.job.manifest.fileId, w.nodes[id], Run(hash, w, later).nodes[id])
    decreases |later|
  {
    if later != [] {
      var before, a := Run(hash, w, later[..|later| - 1]), later[|later| - 1];
      RunKeeps(hash, w, later[..|later| - 1]);
      assert LaterAt(w, before, id);
      StillThere(hash, before, a, id);
      OwnFilesStay(hash, w, later[..|later| - 1], id);
      StepFreezes(hash, before, a, id);
      FrozenOn(w.job.manifest.fileId, w.nodes[id], before.nodes[id], Run(hash, w, later).nodes[id]);
    }
  }

  lemma FrozenOn(fileId: string, n: Node, mid: Node, after: Node)
    requires Frozen(fileId, n, mid) && Frozen(fileId, mid, after) && Within(n.bitmap, mid.bitmap)
    ensures Frozen(fileId, n, after)
  {
  }

  /** The file of a marked chunk has the same bytes for as long as the process has
    * its directory, and after that until another process there writes it. */
  lemma {:induction false} MarkedFilesStay(hash: Hasher, w: World, later: seq<Action>, id: string, i: nat)
    requires Inv(hash, w) && id in w.nodes && MarkedBy(w, id, i)
    ensures id in Run(hash, w, later).nodes || NeverWritten(hash, w, later, id, i) ==>
      FileOf(Run(hash, w, later), id, i) == FileOf(w, id, i)
  {
    RunKeeps(hash, w, later);
    if id in Run(hash, w, later).nodes {
      OwnFilesStay(hash, w, later, id);
    }
    if NeverWritten(hash, w, later, id, i) {
      UnwrittenStays(hash, w, later, id, i);
    }
  }

  // ----- what a query returns

  lemma QueriesDoNotPanic(hash: Hasher, w: World, order: seq<string>, requester: string, chunk: nat)
    requires Inv(hash, w) && Enumerates(order, w.job.nodes)
    ensures forall id :: id in order ==> id in w.job.nodes
    ensures ReadableFor(Entries(w.job.nodes, order), requester, chunk)
    ensures KeysMatch(w.job.nodes)
  {
    OrderInNodes(order, w.job.nodes);
    forall id | id in w.job.nodes ensures w.job.nodes[id].nodeId == id && Whole(w.job.nodes[id].bitmap) {
      assert Known(w, w.job.nodes[id], id);
    }
    EntriesReadable(w.job.nodes, order, requester, chunk);
  }

  /** In every reachable state a query is answered with a best choice: as many of the
    * other nodes known to hold the chunk as asked for, and each of them is listed
    * or outranked by all that are. */
  lemma {:induction false} QueriesAreBest(hash: Hasher, start: World, actions: seq<Action>,
                                          order: seq<string>, requester: string, rack: string,
                                          chunk: nat, topN: nat)
    requires Initial(hash, start)
    requires Enumerates(order, Run(hash, start, actions).job.nodes)
    ensures var w := Run(hash, start, actions);
      && (forall id :: id in order ==> id in w.job.nodes)
      && ReadableFor(Entries(w.job.nodes, order), requester, chunk)
      && BestChoice(RankingOrder(w.job.policy, rack), Entries(w.job.nodes, order), requester, chunk, topN,
                    PeersFor(w.job, order, requester, rack, chunk, topN))
    ensures var nodes := Run(hash, start, actions).job.nodes; AllReadable(nodes, requester, chunk) && KeysMatch(nodes)
    ensures var w := Run(hash, start, actions);
      var peers := PeersFor(w.job, order, requester, rack, chunk, topN);
      && |peers| == Min(topN, |set id | id in w.job.nodes && id != requester && Holds(w.job.nodes[id].bitmap, chunk)|)
      && forall id :: id in w.job.nodes && id != requester && Holds(w.job.nodes[id].bitmap, chunk) ==>
           || (exists p :: p in peers && p.nodeId == id)
           || (forall p :: p in peers ==> Outranks(w.job.policy, rack, p, Candidate(w.job.nodes[id])))
  {
    Safe(hash, start, actions);
    QueriesDoNotPanic(hash, Run(hash, start, actions), order, requester, chunk);
    PeersAreBest(Run(hash, start, actions).job, order, requester, rack, chunk, topN);
  }

  /** What becomes of a peer that was named for a chunk: its address is that of
    * its directory's process; the chunk is served from there exactly when its
    * file has the right length, so always while the peer has the directory; and
    * if it was served when named, exactly when it was not left half written. */
  ghost predicate ServesOn(hash: Hasher, w: World, later: seq<Action>, p: CandidatePeer, chunk: nat) {
    var after, m := Run(hash, w, later), w.job.manifest;
    && Holder(after, p.nodeId) in after.nodes
    && p.peerAddr == after.nodes[Holder(after, p.nodeId)].peerAddr
    && (Serves(hash, m, DiskOf(after, p.nodeId), chunk) <==> RightLength(m, DiskOf(after, p.nodeId), chunk))
    && (p.nodeId in after.nodes ==> Serves(hash, m, DiskOf(after, p.nodeId), chunk))
    && (Serves(hash, m, DiskOf(w, p.nodeId), chunk) ==>
          (Serves(hash, m, DiskOf(after, p.nodeId), chunk) <==> !LeftShort(hash, w, later, p.nodeId, chunk)))
  }

  /** Every peer the tracker names for a chunk serves it as stated, then and at any
    * later time. */
  lemma {:induction false} NamedPeersServe(hash: Hasher, start: World, actions: seq<Action>, later: seq<Action>,
                                           order: seq<string>, requester: string, rack: string,
                                           chunk: nat, topN: nat)
    requires Initial(hash, start)
    requires Enumerates(order, Run(hash, start, actions).job.nodes)
    ensures var w := Run(hash, start, actions);
      && (forall id :: id in order ==> id in w.job.nodes)
      && ReadableFor(Entries(w.job.nodes, order), requester, chunk)
      && forall p :: p in PeersFor(w.job, order, requester, rack, chunk, topN) ==>
           p.nodeId != requester && ServesOn(hash, w, later, p, chunk)
  {
    Safe(hash, start, actions);
    var w := Run(hash, start, actions);
    QueriesDoNotPanic(hash, w, order, requester, chunk);
    PeersAreBest(w.job, order, requester, rack, chunk, topN);
    forall p | p in PeersFor(w.job, order, requester, rack, chunk, topN)
      ensures ServesOn(hash, w, later, p, chunk)
    {
      assert Known(w, w.job.nodes[p.nodeId], p.nodeId);
      MarkedServesOn(hash, w, later, p, chunk);
    }
  }

  /** The chunk is stored verified, and the server's reply for it is accepted. */
  ghost predicate Serves(hash: Hasher, m: Manifest, disk: Disk, chunk: nat) {
    && StoredGood(hash, m, disk, chunk)
    && var file := Stored(disk, m.fileId, chunk);
       |file.value| < U64_LIMIT && Accept(hash, m, chunk, EncodeReply(file)) == Success(file.value)
  }

  lemma GoodIsServed(hash: Hasher, m: Manifest, disk: Disk, chunk: nat)
    requires WellFormed(m)
    ensures Serves(hash, m, disk, chunk) <==> StoredGood(hash, m, disk, chunk)
  {
    if StoredGood(hash, m, disk, chunk) {
      GoodServes(hash, m, disk, chunk);
    }
  }

  lemma MarkedLater(hash: Hasher, w: World, after: World, id: string, i: nat)
    requires Later(w, after) && MarkedBy(w, id, i)
    ensures MarkedBy(after, id, i)
  {
    assert LaterAt(w, after, id);
  }

  lemma HolderAddress(hash: Hasher, w: World, id: string)
    requires Inv(hash, w) && ProfileOf(w, id).Some?
    ensures Holder(w, id) in w.nodes && w.nodes[Holder(w, id)].peerAddr == ProfileOf(w, id).value.peerAddr
  {
  }

  lemma MarkedServesOn(hash: Hasher, w: World, later: seq<Action>, p: CandidatePeer, chunk: nat)
    requires Inv(hash, w) && MarkedBy(w, p.nodeId, chunk)
    requires p.peerAddr == ProfileOf(w, p.nodeId).value.peerAddr
    ensures ServesOn(hash, w, later, p, chunk)
  {
    var after, m := Run(hash, w, later), w.job.manifest;
    RunKeeps(hash, w, later);
    assert LaterAt(w, after, p.nodeId);
    MarkedLater(hash, w, after, p.nodeId, chunk);
    MarkedIsBacked(hash, after, p.nodeId, chunk);
    HolderAddress(hash, after, p.nodeId);
    GoodIsServed(hash, m, DiskOf(after, p.nodeId), chunk);
    GoodIsServed(hash, m, DiskOf(w, p.nodeId), chunk);
    if GoodIn(hash, w, p.nodeId, chunk) {
      GoodUnlessLeftShort(hash, w, later, p.nodeId, chunk);
    }
  }

  lemma GoodServes(hash: Hasher, m: Manifest, disk: Disk, chunk: nat)
    requires WellFormed(m) && StoredGood(hash, m, disk, chunk)
    ensures Serves(hash, m, disk, chunk)
  {
    var data := Stored(disk, m.fileId, chunk).value;
    LengthFits(m, chunk);
    AcceptedIff(hash, m, chunk, EncodeReply(Some(data)), data);
  }

  // ----- finished nodes and completed jobs

  /** A node whose download loop has ended holds the original file. */
  lemma {:induction false} FinishedNodesHoldTheFile(hash: Hasher, start: World, actions: seq<Action>, id: string)
    requires Initial(hash, start)
    requires id in Run(hash, start, actions).nodes && Full(Run(hash, start, actions).nodes[id].bitmap)
    ensures HoldsFile(hash, start.job.manifest, Run(hash, start, actions).nodes[id].disk)
  {
    RunKeeps(hash, start, actions);
    var w := Run(hash, start, actions);
    assert NodeOk(hash, w.job.manifest, w.nodes[id]);
    SoundFullHoldsFile(hash, w.job.manifest, w.nodes[id].disk, w.nodes[id].bitmap);
  }

  /** A process that marked everything: the whole file is in its directory as long
    * as it has that, and after that as long as no chunk file is cut short. */
  ghost predicate HasItAll(hash: Hasher, w: World, id: string) {
    var m, disk := w.job.manifest, DiskOf(w, id);
    && ProfileOf(w, id).Some? && Full(ProfileOf(w, id).value.bitmap)
    && (id in w.nodes ==> AllGood(hash, m, disk))
    && (AllGood(hash, m, disk) <==> AllRightLength(m, disk))
    && (AllGood(hash, m, disk) ==> HoldsFile(hash, m, disk))
  }

  /** There are registered nodes, and they have the whole file in `after`. */
  ghost predicate RegisteredHold(hash: Hasher, w: World, after: World) {
    w.job.nodes != map[] && forall id :: id in w.job.nodes ==> HasItAll(hash, after, id)
  }

  lemma FullWithin(a: Bitmap, b: Bitmap)
    requires Within(a, b) && Full(a)
    ensures Full(b)
  {
    CompleteIffNothingMissing(a);
    forall i | 0 <= i < b.chunkCount ensures Holds(b, i) {
      assert Holds(a, i);
    }
    CompleteIffNothingMissing(b);
  }

  lemma FullHasItAll(hash: Hasher, w: World, id: string)
    requires Inv(hash, w) && ProfileOf(w, id).Some? && Full(ProfileOf(w, id).value.bitmap)
    ensures HasItAll(hash, w, id)
  {
    var m, disk, b := w.job.manifest, DiskOf(w, id), ProfileOf(w, id).value.bitmap;
    ProfileFits(hash, w, id);
    CompleteIffNothingMissing(b);
    forall i | 0 <= i < m.chunkCount
      ensures StoredGood(hash, m, disk, i) <==> RightLength(m, disk, i)
      ensures id in w.nodes ==> StoredGood(hash, m, disk, i)
    {
      assert Holds(b, i);
      MarkedIsBacked(hash, w, id, i);
    }
    if AllGood(hash, m, disk) {
      GoodHoldsFile(hash, m, disk);
    }
  }

  lemma FullRegistryHolds(hash: Hasher, w: World, after: World)
    requires Inv(hash, w) && Inv(hash, after) && Later(w, after)
    requires AllFull(w.job.nodes) && w.job.nodes != map[]
    ensures RegisteredHold(hash, w, after)
  {
    forall id | id in w.job.nodes ensures HasItAll(hash, after, id) {
      assert Known(w, w.job.nodes[id], id) && LaterAt(w, after, id);
      WithinTransitive(w.job.nodes[id].bitmap, ProfileOf(w, id).value.bitmap, ProfileOf(after, id).value.bitmap);
      FullWithin(w.job.nodes[id].bitmap, ProfileOf(after, id).value.bitmap);
      FullHasItAll(hash, after, id);
    }
  }

  /** A directory with all chunks has them at the end of a run exactly when none
    * is left half written. */
  ghost predicate KeptUnlessShort(hash: Hasher, w: World, later: seq<Action>, id: string) {
    var m := w.job.manifest;
    AllGood(hash, m, DiskOf(w, id)) ==>
      (AllGood(hash, m, DiskOf(Run(hash, w, later), id)) <==>
        forall i :: 0 <= i < m.chunkCount ==> !LeftShort(hash, w, later, id, i))
  }

  lemma KeepsUnlessShort(hash: Hasher, w: World, later: seq<Action>, id: string)
    requires Inv(hash, w) && ProfileOf(w, id).Some?
    ensures KeptUnlessShort(hash, w, later, id)
  {
    RunKeeps(hash, w, later);
    var m, disk := w.job.manifest, DiskOf(Run(hash, w, later), id);
    if AllGood(hash, m, DiskOf(w, id)) {
      forall i | 0 <= i < m.chunkCount
        ensures StoredGood(hash, m, disk, i) <==> !LeftShort(hash, w, later, id, i)
      {
        GoodStaysGood(hash, w, later, id, i);
      }
    }
  }

  lemma {:induction false} GoodStaysGood(hash: Hasher, w: World, later: seq<Action>, id: string, i: nat)
    requires Inv(hash, w) && ProfileOf(w, id).Some?
    requires AllGood(hash, w.job.manifest, DiskOf(w, id)) && i < w.job.manifest.chunkCount
    ensures StoredGood(hash, w.job.manifest, DiskOf(Run(hash, w, later), id), i) <==>
      !LeftShort(hash, w, later, id, i)
  {
    RunKeeps(hash, w, later);
    assert StoredGood(hash, w.job.manifest, DiskOf(w, id), i);
    GoodUnlessLeftShort(hash, w, later, id, i);
  }

  /** A heartbeat arrives after which every registered bitmap is full. */
  ghost predicate Completes(hash: Hasher, w: World, a: Action) {
    a.Deliver? && a.hb in w.sent && AllFull(Step(hash, w, a).job.nodes)
  }

  /** The registered nodes have the file, then and later. */
  ghost predicate Delivered(hash: Hasher, w: World, later: seq<Action>) {
    && RegisteredHold(hash, w, w) && RegisteredHold(hash, w, Run(hash, w, later))
    && forall id :: id in w.job.nodes ==> KeptUnlessShort(hash, w, later, id)
  }

  lemma FullRegistryDelivered(hash: Hasher, w: World, later: seq<Action>)
    requires Inv(hash, w) && AllFull(w.job.nodes) && w.job.nodes != map[]
    ensures Delivered(hash, w, later)
  {
    RunKeeps(hash, w, later);
    NobodyMoves(hash, w, w);
    FullRegistryHolds(hash, w, w);
    FullRegistryHolds(hash, w, Run(hash, w, later));
    forall id | id in w.job.nodes ensures KeptUnlessShort(hash, w, later, id) {
      assert Known(w, w.job.nodes[id], id);
      KeepsUnlessShort(hash, w, later, id);
    }
  }

  lemma CompletionStep(hash: Hasher, w: World, a: Action)
    ensures var after := Step(hash, w, a);
      && after.job.completions == w.job.completions + (if Completes(hash, w, a) then 1 else 0)
      && (Completes(hash, w, a) ==> after.job.status == Complete && a.hb.nodeId in after.job.nodes)
  {
    if a.Deliver? && a.hb in w.sent {
      BeatCompletes(w.job, a.hb, w.now);
    }
  }

  /** A step declares the job complete exactly when it delivers a heartbeat after
    * which every registered bitmap is full; the registered nodes then have the
    * file, and keep it. */
  lemma {:induction false} CompletionIsSoundAndNotMissed(hash: Hasher, start: World, actions: seq<Action>,
                                                         a: Action, later: seq<Action>)
    requires Initial(hash, start)
    ensures var w := Run(hash, start, actions);
      var after := Step(hash, w, a);
      && after.job.completions == w.job.completions + (if Completes(hash, w, a) then 1 else 0)
      && (Completes(hash, w, a) ==> after.job.status == Complete && Delivered(hash, after, later))
  {
    Safe(hash, start, actions);
    var w := Run(hash, start, actions);
    StepKeeps(hash, w, a);
    CompletionStep(hash, w, a);
    if Completes(hash, w, a) {
      FullRegistryDelivered(hash, Step(hash, w, a), later);
    }
  }
}
