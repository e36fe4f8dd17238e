/** The whole system as a step machine: nodes, heartbeats in flight, the tracker's
  * job, and a clock; what holds in every state of every run. */
module Protocol {
  import opened Bytes
  import opened Wrappers
  import opened Bitmaps
  import opened Manifests
  import opened ChunkStores
  import opened Nodes
  import opened NodeSteps
  import opened Schedulers
  import opened JobStates

  /** A process that is no more, and the one that now has its directory. What it
    * had marked is remembered for the proofs alone. */
  datatype Former = Former(rackId: string, peerAddr: string, bitmap: Bitmap, heir: string)

  /** `nodes` holds one process for each directory, the last one started on it.
    * `sent` keeps every heartbeat ever sent: each may arrive at any later time,
    * in any order, any number of times, or never. */
  datatype World = World(
    nodes: map<string, Node>, former: map<string, Former>, sent: set<Heartbeat>, job: JobState, now: nat)

  datatype Action =
    | Join(id: string, rackId: string, peerAddr: string, concurrency: nat, disk: Disk)
    | Restart(crashed: string, id: string, concurrency: nat)
    | Local(id: string, act: LocalAction)
    | Send(id: string)
    | Deliver(hb: Heartbeat)
    | EvictPass(timeoutSecs: nat)
    | CancelPass
    | Tick(millis: nat)

  const UPLOAD_MBPS: nat := 8_000

  function Snapshot(id: string, n: Node): Heartbeat {
    Heartbeat(id, n.rackId, n.peerAddr, Encode(n.bitmap), UPLOAD_MBPS)
  }

  predicate IsNew(w: World, id: string) {
    id !in w.nodes && id !in w.former
  }

  /** A process started anew on the directory and address of another has a new id
    * and an empty bitmap. */
  function Reborn(was: Node, concurrency: nat, chunkCount: nat): Node {
    NewNode(was.rackId, was.peerAddr, concurrency, was.disk, chunkCount)
  }

  /** This process has just started, and every chunk is missing. */
  ghost predicate Fresh(n: Node, rackId: string, peerAddr: string, concurrency: nat, disk: Disk, chunkCount: nat) {
    && n.alive && n.rackId == rackId && n.peerAddr == peerAddr && n.concurrency == concurrency && n.disk == disk
    && n.queue == [] && n.tasks == map[]
    && Whole(n.bitmap) && n.bitmap.chunkCount == chunkCount
    && forall i :: 0 <= i < chunkCount ==> !n.bitmap.bits[i]
  }

  /** What belonged to `crashed` now belongs to `id`. */
  function Inherited(former: map<string, Former>, crashed: string, id: string): map<string, Former> {
    map f | f in former :: if former[f].heir == crashed then former[f].(heir := id) else former[f]
  }

  /** The directory, with its disk, is handed over. */
  function HandedOver(w: World, crashed: string, id: string, concurrency: nat): World
    requires crashed in w.nodes
  {
    var was := w.nodes[crashed];
    w.(nodes := (w.nodes - {crashed})[id := Reborn(was, concurrency, w.job.manifest.chunkCount)],
       former := Inherited(w.former, crashed, id)[crashed := Former(was.rackId, was.peerAddr, was.bitmap, id)])
  }

  /** An action that is not enabled does nothing. */
  function Step(hash: Hasher, w: World, a: Action): World {
    match a
    case Join(id, rackId, peerAddr, concurrency, disk) =>
      if !IsNew(w, id) then w
      else w.(nodes := w.nodes[id := NewNode(rackId, peerAddr, concurrency, disk, w.job.manifest.chunkCount)])
    case Restart(crashed, id, concurrency) =>
      if crashed in w.nodes && !w.nodes[crashed].alive && IsNew(w, id)
      then HandedOver(w, crashed, id, concurrency) else w
    case Local(id, act) =>
      if id in w.nodes then w.(nodes := w.nodes[id := LocalStep(hash, w.job.manifest, w.nodes[id], act)]) else w
    case Send(id) =>
      if id in w.nodes && w.nodes[id].alive then w.(sent := w.sent + {Snapshot(id, w.nodes[id])}) else w
    case Deliver(hb) =>
      if hb in w.sent then w.(job := Beat(w.job, hb, w.now)) else w
    case EvictPass(timeoutSecs) => w.(job := Evicted(w.job, timeoutSecs, w.now))
    case CancelPass => w.(job := CancelledJob(w.job))
    case Tick(millis) => w.(now := w.now + millis)
  }

  function Run(hash: Hasher, w: World, actions: seq<Action>): World
    decreases |actions|
  {
    if actions == [] then w
    else Step(hash, Run(hash, w, actions[..|actions| - 1]), actions[|actions| - 1])
  }

  // ----- who is who, and where

  /** Where a process is, and what it has marked when it last ran. */
  datatype Profile = Profile(rackId: string, peerAddr: string, bitmap: Bitmap)

  function ProfileOf(w: World, id: string): Option<Profile> {
    if id in w.nodes then Some(Profile(w.nodes[id].rackId, w.nodes[id].peerAddr, w.nodes[id].bitmap))
    else if id in w.former then Some(Profile(w.former[id].rackId, w.former[id].peerAddr, w.former[id].bitmap))
    else None
  }

  /** The last process on the directory of `id`. */
  function Holder(w: World, id: string): string {
    if id !in w.nodes && id in w.former then w.former[id].heir else id
  }

  /** The disk in the directory of `id`. */
  function DiskOf(w: World, id: string): Disk {
    if Holder(w, id) in w.nodes then w.nodes[Holder(w, id)].disk else map[]
  }

  // ----- what every step keeps

  ghost predicate WellFormed(m: Manifest) {
    |m.chunkHashes| == m.chunkCount < U32_LIMIT && SizesOk(m.totalSize, m.chunkSize)
  }

  ghost predicate NodesOk(hash: Hasher, w: World) {
    forall id :: id in w.nodes ==> NodeOk(hash, w.job.manifest, w.nodes[id])
  }

  /** The files of the chunks a former process marked are good, or cut short. */
  ghost predicate FormerOk(hash: Hasher, m: Manifest, f: Former, holder: Node) {
    && f.rackId == holder.rackId && f.peerAddr == holder.peerAddr
    && Whole(f.bitmap) && f.bitmap.chunkCount == m.chunkCount
    && forall i :: 0 <= i < f.bitmap.chunkCount && f.bitmap.bits[i] ==> GoodUnlessShort(hash, m, holder.disk, i)
  }

  ghost predicate FormersOk(hash: Hasher, w: World) {
    forall id :: id in w.former ==>
      && id !in w.nodes && w.former[id].heir in w.nodes
      && FormerOk(hash, w.job.manifest, w.former[id], w.nodes[w.former[id].heir])
  }

  /** Process `id` is there, and this bitmap is part of its own. */
  ghost predicate Vouched(w: World, id: string, rackId: string, peerAddr: string, b: Bitmap) {
    var p := ProfileOf(w, id);
    p.Some? && rackId == p.value.rackId && peerAddr == p.value.peerAddr && Within(b, p.value.bitmap)
  }

  /** A heartbeat in flight tells where its sender is, and claims no more than
    * the sender has marked. */
  ghost predicate SentOk(w: World) {
    forall hb :: hb in w.sent ==>
      Vouched(w, hb.nodeId, hb.rackId, hb.peerAddr, Decode(hb.bitmapBytes, w.job.manifest.chunkCount))
  }

  ghost predicate Known(w: World, ns: NodeInfo, id: string) {
    ns.nodeId == id && Vouched(w, id, ns.rackId, ns.peerAddr, ns.bitmap)
  }

  /** So does the tracker. */
  ghost predicate JobOk(w: World) {
    forall id :: id in w.job.nodes ==> Known(w, w.job.nodes[id], id)
  }

  ghost predicate Inv(hash: Hasher, w: World) {
    WellFormed(w.job.manifest) && NodesOk(hash, w) && FormersOk(hash, w) && SentOk(w) && JobOk(w)
  }

  /** A new job, nothing sent, and nodes whose bitmaps tell the truth. */
  ghost predicate Initial(hash: Hasher, w: World) {
    && WellFormed(w.job.manifest)
    && w.job == NewJob(w.job.manifest, w.job.policy)
    && w.sent == {} && w.former == map[]
    && NodesOk(hash, w)
  }

  ghost predicate Outgrows(p: Profile, q: Profile) {
    q.rackId == p.rackId && q.peerAddr == p.peerAddr && Within(p.bitmap, q.bitmap)
  }

  /** Processes are where they were, and their bitmaps only grow. */
  ghost predicate LaterAt(w: World, v: World, id: string) {
    ProfileOf(w, id).Some? ==>
      ProfileOf(v, id).Some? && Outgrows(ProfileOf(w, id).value, ProfileOf(v, id).value)
  }

  ghost predicate Later(w: World, v: World) {
    v.job.manifest == w.job.manifest && forall id :: LaterAt(w, v, id)
  }

  lemma VouchedLater(w: World, v: World, id: string, rackId: string, peerAddr: string, b: Bitmap)
    requires LaterAt(w, v, id) && Vouched(w, id, rackId, peerAddr, b)
    ensures Vouched(v, id, rackId, peerAddr, b)
  {
    WithinTransitive(b, ProfileOf(w, id).value.bitmap, ProfileOf(v, id).value.bitmap);
  }

  /** What was said of processes stays true as they go on. */
  lemma SayingsKeep(w: World, v: World)
    requires Later(w, v) && v.sent == w.sent && v.job == w.job && SentOk(w) && JobOk(w)
    ensures SentOk(v) && JobOk(v)
  {
    forall hb | hb in v.sent
      ensures Vouched(v, hb.nodeId, hb.rackId, hb.peerAddr, Decode(hb.bitmapBytes, v.job.manifest.chunkCount))
    {
      var b := Decode(hb.bitmapBytes, v.job.manifest.chunkCount);
      assert LaterAt(w, v, hb.nodeId);
      VouchedLater(w, v, hb.nodeId, hb.rackId, hb.peerAddr, b);
    }
    forall id | id in v.job.nodes ensures Known(v, v.job.nodes[id], id) {
      var ns := v.job.nodes[id];
      assert Known(w, ns, id) && LaterAt(w, v, id);
      VouchedLater(w, v, id, ns.rackId, ns.peerAddr, ns.bitmap);
    }
  }

  lemma SameProfile(hash: Hasher, w: World, v: World, id: string)
    requires NodesOk(hash, w) && FormersOk(hash, w) && ProfileOf(v, id) == ProfileOf(w, id)
    ensures LaterAt(w, v, id)
  {
  }

  /** A process that joins is where it says, runs, and has marked nothing; the files
    * on its disk are left alone. A new one in an old directory has the address, rack
    * and files of the one before. */
  lemma NewProcess(hash: Hasher, w: World, id: string, rackId: string, peerAddr: string, concurrency: nat, disk: Disk,
                   crashed: string)
    requires WellFormed(w.job.manifest) && IsNew(w, id)
    ensures var v := Step(hash, w, Join(id, rackId, peerAddr, concurrency, disk));
      && v.nodes.Keys == w.nodes.Keys + {id} && (forall x :: x in w.nodes ==> v.nodes[x] == w.nodes[x])
      && Fresh(v.nodes[id], rackId, peerAddr, concurrency, disk, w.job.manifest.chunkCount)
    ensures crashed in w.nodes && !w.nodes[crashed].alive ==>
      var v, was := Step(hash, w, Restart(crashed, id, concurrency)), w.nodes[crashed];
      && v.nodes.Keys == w.nodes.Keys - {crashed} + {id}
      && (forall x :: x in w.nodes && x != crashed ==> v.nodes[x] == w.nodes[x])
      && Fresh(v.nodes[id], was.rackId, was.peerAddr, concurrency, was.disk, w.job.manifest.chunkCount)
  {
    CompleteIffNothingMissing(Empty(w.job.manifest.chunkCount));
  }

  lemma StartsOk(hash: Hasher, m: Manifest, rackId: string, peerAddr: string, concurrency: nat, disk: Disk)
    requires WellFormed(m)
    ensures NodeOk(hash, m, NewNode(rackId, peerAddr, concurrency, disk, m.chunkCount))
  {
  }

  lemma JoinedOk(hash: Hasher, w: World, id: string, n: Node)
    requires NodesOk(hash, w) && FormersOk(hash, w) && NodeOk(hash, w.job.manifest, n) && IsNew(w, id)
    ensures var v := w.(nodes := w.nodes[id := n]);
      NodesOk(hash, v) && FormersOk(hash, v)
  {
  }

  lemma JoinKeeps(hash: Hasher, w: World, id: string, n: Node)
    requires Inv(hash, w) && NodeOk(hash, w.job.manifest, n) && IsNew(w, id)
    ensures Inv(hash, w.(nodes := w.nodes[id := n])) && Later(w, w.(nodes := w.nodes[id := n]))
  {
    var v := w.(nodes := w.nodes[id := n]);
    forall x ensures LaterAt(w, v, x) {
      if x != id {
        SameProfile(hash, w, v, x);
      }
    }
    JoinedOk(hash, w, id, n);
    SayingsKeep(w, v);
  }

  /** A step of one node leaves the files of former processes good or short. */
  lemma FormerStep(hash: Hasher, m: Manifest, f: Former, n: Node, a: LocalAction)
    requires NodeOk(hash, m, n) && FormerOk(hash, m, f, n)
    ensures FormerOk(hash, m, f, LocalStep(hash, m, n, a))
  {
    LocalStepKeeps(hash, m, n, a);
    forall i | 0 <= i < f.bitmap.chunkCount && f.bitmap.bits[i]
      ensures GoodUnlessShort(hash, m, LocalStep(hash, m, n, a).disk, i)
    {
      FileStep(hash, m, n, a, i);
    }
  }

  lemma LocalLater(hash: Hasher, w: World, id: string, act: LocalAction, x: string)
    requires NodesOk(hash, w) && FormersOk(hash, w) && id in w.nodes
    ensures LaterAt(w, w.(nodes := w.nodes[id := LocalStep(hash, w.job.manifest, w.nodes[id], act)]), x)
  {
    var v := w.(nodes := w.nodes[id := LocalStep(hash, w.job.manifest, w.nodes[id], act)]);
    LocalStepKeeps(hash, w.job.manifest, w.nodes[id], act);
    if x != id {
      SameProfile(hash, w, v, x);
    }
  }

  lemma LocalOk(hash: Hasher, w: World, id: string, act: LocalAction)
    requires NodesOk(hash, w) && FormersOk(hash, w) && id in w.nodes
    ensures var v := w.(nodes := w.nodes[id := LocalStep(hash, w.job.manifest, w.nodes[id], act)]);
      NodesOk(hash, v) && FormersOk(hash, v)
  {
    var m, n := w.job.manifest, w.nodes[id];
    var v := w.(nodes := w.nodes[id := LocalStep(hash, m, n, act)]);
    LocalStepKeeps(hash, m, n, act);
    forall x | x in w.former
      ensures w.former[x].heir in v.nodes && FormerOk(hash, m, w.former[x], v.nodes[w.former[x].heir])
    {
      if w.former[x].heir == id {
        FormerStep(hash, m, w.former[x], n, act);
      }
    }
  }

  lemma LocalKeeps(hash: Hasher, w: World, id: string, act: LocalAction)
    requires Inv(hash, w) && id in w.nodes
    ensures var v := w.(nodes := w.nodes[id := LocalStep(hash, w.job.manifest, w.nodes[id], act)]);
      Inv(hash, v) && Later(w, v)
  {
    var v := w.(nodes := w.nodes[id := LocalStep(hash, w.job.manifest, w.nodes[id], act)]);
    forall x ensures LaterAt(w, v, x) {
      LocalLater(hash, w, id, act, x);
    }
    LocalOk(hash, w, id, act);
    SayingsKeep(w, v);
  }

  lemma HandOverProfiles(hash: Hasher, w: World, crashed: string, id: string, concurrency: nat, x: string)
    requires NodesOk(hash, w) && FormersOk(hash, w) && crashed in w.nodes && IsNew(w, id)
    ensures LaterAt(w, HandedOver(w, crashed, id, concurrency), x)
  {
    if x != id {
      HandOverProfile(w, crashed, id, concurrency, x);
      SameProfile(hash, w, HandedOver(w, crashed, id, concurrency), x);
    }
  }

  lemma HandOverProfile(w: World, crashed: string, id: string, concurrency: nat, x: string)
    requires crashed in w.nodes && IsNew(w, id) && x != id
    ensures ProfileOf(HandedOver(w, crashed, id, concurrency), x) ==
      if x == crashed || x !in w.former || x in w.nodes then ProfileOf(w, x)
      else Some(Profile(w.former[x].rackId, w.former[x].peerAddr, w.former[x].bitmap))
  {
  }

  /** The files the crashed process marked are good as they are handed over. */
  lemma CrashedOk(hash: Hasher, m: Manifest, was: Node, concurrency: nat, id: string)
    requires NodeOk(hash, m, was)
    ensures FormerOk(hash, m, Former(was.rackId, was.peerAddr, was.bitmap, id), Reborn(was, concurrency, m.chunkCount))
  {
    forall i | 0 <= i < was.bitmap.chunkCount && was.bitmap.bits[i] ensures GoodUnlessShort(hash, m, was.disk, i) {
      assert StoredGood(hash, m, was.disk, i);
    }
  }

  lemma HandOverFormer(hash: Hasher, w: World, crashed: string, id: string, concurrency: nat, x: string)
    requires NodesOk(hash, w) && FormersOk(hash, w) && crashed in w.nodes && IsNew(w, id)
    requires x in HandedOver(w, crashed, id, concurrency).former
    ensures var v := HandedOver(w, crashed, id, concurrency);
      && x !in v.nodes && v.former[x].heir in v.nodes
      && FormerOk(hash, w.job.manifest, v.former[x], v.nodes[v.former[x].heir])
  {
    var v, m, was := HandedOver(w, crashed, id, concurrency), w.job.manifest, w.nodes[crashed];
    if x == crashed {
      CrashedOk(hash, m, was, concurrency, id);
    } else {
      var f := w.former[x];
      assert FormerOk(hash, m, f, w.nodes[f.heir]);
      assert v.former[x] == if f.heir == crashed then f.(heir := id) else f;
    }
  }

  lemma RestartKeeps(hash: Hasher, w: World, crashed: string, id: string, concurrency: nat)
    requires Inv(hash, w) && crashed in w.nodes && IsNew(w, id)
    ensures var v := HandedOver(w, crashed, id, concurrency);
      Inv(hash, v) && Later(w, v)
  {
    var v, was, m := HandedOver(w, crashed, id, concurrency), w.nodes[crashed], w.job.manifest;
    StartsOk(hash, m, was.rackId, was.peerAddr, concurrency, was.disk);
    forall x ensures LaterAt(w, v, x) {
      HandOverProfiles(hash, w, crashed, id, concurrency, x);
    }
    forall x | x in v.former
      ensures x !in v.nodes && v.former[x].heir in v.nodes
      ensures FormerOk(hash, m, v.former[x], v.nodes[v.former[x].heir])
    {
      HandOverFormer(hash, w, crashed, id, concurrency, x);
    }
    SayingsKeep(w, v);
  }

  lemma SnapshotWithin(id: string, n: Node)
    requires Whole(n.bitmap)
    ensures Within(Decode(Snapshot(id, n).bitmapBytes, n.bitmap.chunkCount), n.bitmap)
  {
    RoundTrip(n.bitmap);
  }

  /** Steps that leave the nodes alone. */
  lemma NobodyMoves(hash: Hasher, w: World, v: World)
    requires NodesOk(hash, w) && FormersOk(hash, w)
    requires v.nodes == w.nodes && v.former == w.former && v.job.manifest == w.job.manifest
    ensures NodesOk(hash, v) && FormersOk(hash, v) && Later(w, v)
  {
    forall id ensures LaterAt(w, v, id) {
      SameProfile(hash, w, v, id);
    }
  }

  lemma VouchedAlike(w: World, v: World, id: string, rackId: string, peerAddr: string, b: Bitmap)
    requires v.nodes == w.nodes && v.former == w.former && Vouched(w, id, rackId, peerAddr, b)
    ensures Vouched(v, id, rackId, peerAddr, b)
  {
  }

  lemma SentKeeps(w: World, v: World)
    requires v.nodes == w.nodes && v.former == w.former && v.job.manifest == w.job.manifest
    requires SentOk(w) && v.sent == w.sent
    ensures SentOk(v)
  {
    forall hb | hb in v.sent
      ensures Vouched(v, hb.nodeId, hb.rackId, hb.peerAddr, Decode(hb.bitmapBytes, v.job.manifest.chunkCount))
    {
      VouchedAlike(w, v, hb.nodeId, hb.rackId, hb.peerAddr, Decode(hb.bitmapBytes, v.job.manifest.chunkCount));
    }
  }

  lemma JobKeeps(w: World, v: World)
    requires v.nodes == w.nodes && v.former == w.former && JobOk(w)
    requires forall id :: id in v.job.nodes ==> id in w.job.nodes && v.job.nodes[id] == w.job.nodes[id]
    ensures JobOk(v)
  {
    forall id | id in v.job.nodes ensures Known(v, v.job.nodes[id], id) {
      var ns := v.job.nodes[id];
      assert Known(w, ns, id);
      VouchedAlike(w, v, id, ns.rackId, ns.peerAddr, ns.bitmap);
    }
  }

  lemma SendKeeps(hash: Hasher, w: World, id: string)
    requires Inv(hash, w) && id in w.nodes
    ensures Inv(hash, w.(sent := w.sent + {Snapshot(id, w.nodes[id])}))
  {
    var hb := Snapshot(id, w.nodes[id]);
    var v := w.(sent := w.sent + {hb});
    NobodyMoves(hash, w, v);
    JobKeeps(w, v);
    SentKeeps(w, v.(sent := w.sent));
    assert NodeOk(hash, w.job.manifest, w.nodes[id]);
    SnapshotWithin(id, w.nodes[id]);
    forall x | x in v.sent
      ensures Vouched(v, x.nodeId, x.rackId, x.peerAddr, Decode(x.bitmapBytes, v.job.manifest.chunkCount))
    {
      if x in w.sent {
        VouchedAlike(w, v, x.nodeId, x.rackId, x.peerAddr, Decode(x.bitmapBytes, v.job.manifest.chunkCount));
      }
    }
  }

  lemma BeatKnown(w: World, hb: Heartbeat, id: string)
    requires JobOk(w) && id in Beat(w.job, hb, w.now).nodes
    requires Vouched(w, hb.nodeId, hb.rackId, hb.peerAddr, Decode(hb.bitmapBytes, w.job.manifest.chunkCount))
    ensures Known(w, Beat(w.job, hb, w.now).nodes[id], id)
  {
    forall x | x in w.job.nodes ensures w.job.nodes[x].nodeId == x {
      assert Known(w, w.job.nodes[x], x);
    }
    ApplyAt(w.job, BeatEvent(hb, w.now), id);
  }

  lemma DeliverKeeps(hash: Hasher, w: World, hb: Heartbeat)
    requires Inv(hash, w) && hb in w.sent
    ensures Inv(hash, w.(job := Beat(w.job, hb, w.now)))
  {
    var v := w.(job := Beat(w.job, hb, w.now));
    NobodyMoves(hash, w, v);
    SentKeeps(w, v);
    forall id | id in v.job.nodes ensures Known(v, v.job.nodes[id], id) {
      var ns := v.job.nodes[id];
      BeatKnown(w, hb, id);
      VouchedAlike(w, v, id, ns.rackId, ns.peerAddr, ns.bitmap);
    }
  }

  lemma TrackerKeeps(hash: Hasher, w: World, a: Action)
    requires Inv(hash, w) && (a.EvictPass? || a.CancelPass? || a.Tick?)
    ensures Inv(hash, Step(hash, w, a))
  {
    NobodyMoves(hash, w, Step(hash, w, a));
    SentKeeps(w, Step(hash, w, a));
    JobKeeps(w, Step(hash, w, a));
  }

  lemma NodeActionKeeps(hash: Hasher, w: World, a: Action)
    requires Inv(hash, w) && (a.Join? || a.Restart? || a.Local?)
    ensures Inv(hash, Step(hash, w, a)) && Later(w, Step(hash, w, a))
  {
    NobodyMoves(hash, w, w);
    match a
    case Join(id, rackId, peerAddr, concurrency, disk) =>
      if IsNew(w, id) {
        StartsOk(hash, w.job.manifest, rackId, peerAddr, concurrency, disk);
        JoinKeeps(hash, w, id, NewNode(rackId, peerAddr, concurrency, disk, w.job.manifest.chunkCount));
      }
    case Restart(crashed, id, concurrency) =>
      if crashed in w.nodes && !w.nodes[crashed].alive && IsNew(w, id) {
        RestartKeeps(hash, w, crashed, id, concurrency);
      }
    case Local(id, act) =>
      if id in w.nodes { LocalKeeps(hash, w, id, act); }
  }

  lemma OtherActionKeeps(hash: Hasher, w: World, a: Action)
    requires Inv(hash, w) && !a.Join? && !a.Restart? && !a.Local?
    ensures Inv(hash, Step(hash, w, a))
  {
    match a
    case Send(id) =>
      if id in w.nodes { SendKeeps(hash, w, id); }
    case Deliver(hb) =>
      if hb in w.sent { DeliverKeeps(hash, w, hb); }
    case _ => TrackerKeeps(hash, w, a);
  }

  lemma OtherActionStays(hash: Hasher, w: World, a: Action)
    requires !a.Join? && !a.Restart? && !a.Local?
    ensures var v := Step(hash, w, a);
      v.nodes == w.nodes && v.former == w.former && v.job.manifest == w.job.manifest
  {
  }

  lemma StepKeeps(hash: Hasher, w: World, a: Action)
    requires Inv(hash, w)
    ensures Inv(hash, Step(hash, w, a)) && Later(w, Step(hash, w, a))
  {
    if a.Join? || a.Restart? || a.Local? {
      NodeActionKeeps(hash, w, a);
    } else {
      OtherActionKeeps(hash, w, a);
      OtherActionStays(hash, w, a);
      NobodyMoves(hash, w, Step(hash, w, a));
    }
  }

  lemma {:induction false} RunKeeps(hash: Hasher, w: World, actions: seq<Action>)
    requires Inv(hash, w)
    ensures Inv(hash, Run(hash, w, actions)) && Later(w, Run(hash, w, actions))
    decreases |actions|
  {
    if actions == [] {
      NobodyMoves(hash, w, w);
    } else {
      var before := actions[..|actions| - 1];
      RunKeeps(hash, w, before);
      StepKeeps(hash, Run(hash, w, before), actions[|actions| - 1]);
      LaterTransitive(w, Run(hash, w, before), Run(hash, w, actions));
    }
  }

  lemma LaterTransitive(u: World, v: World, w: World)
    requires Later(u, v) && Later(v, w)
    ensures Later(u, w)
  {
    forall id ensures LaterAt(u, w, id) {
      assert LaterAt(u, v, id) && LaterAt(v, w, id);
    }
  }
}
