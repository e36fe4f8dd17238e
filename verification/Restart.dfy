/** A process restarted on its old directory downloads the file again. The
  * tracker may still credit the old id with chunks, and names the old address;
  * there the new process answers, from files it rewrites. */
module Restarts {
  import opened Bytes
  import opened Wrappers
  import opened Bitmaps
  import opened Manifests
  import opened Wire
  import opened Downloaders
  import opened NodeSteps
  import opened JobStates
  import opened Protocol
  import opened Directories
  import opened ProtocolSafety
  import opened TrackerRuns

  ghost predicate ServesIn(hash: Hasher, w: World, id: string, i: nat) {
    Serves(hash, w.job.manifest, DiskOf(w, id), i)
  }

  /** At every moment of the run the chunk is served from the directory. */
  ghost predicate AlwaysServes(hash: Hasher, w: World, later: seq<Action>, id: string, i: nat) {
    forall t: nat :: t <= |later| ==> ServesIn(hash, Run(hash, w, later[..t]), id, i)
  }

  ghost predicate NeverShort(hash: Hasher, w: World, later: seq<Action>, id: string, i: nat) {
    forall t: nat :: t < |later| ==> !ShortAt(hash, w, later, id, i, t)
  }

  lemma {:induction false} AlwaysServesUnlessShort(hash: Hasher, w: World, later: seq<Action>, id: string, i: nat)
    requires Inv(hash, w) && ProfileOf(w, id).Some? && GoodIn(hash, w, id, i)
    ensures AlwaysServes(hash, w, later, id, i) <==> NeverShort(hash, w, later, id, i)
    ensures ServesIn(hash, Run(hash, w, later), id, i) <==> !LeftShort(hash, w, later, id, i)
  {
    AlwaysGoodUnlessShort(hash, w, later, id, i);
    GoodUnlessLeftShort(hash, w, later, id, i);
    forall actions: seq<Action>
      ensures ServesIn(hash, Run(hash, w, actions), id, i) <==> GoodIn(hash, Run(hash, w, actions), id, i)
    {
      RunKeeps(hash, w, actions);
      GoodIsServed(hash, w.job.manifest, DiskOf(Run(hash, w, actions), id), i);
    }
  }

  /** The tracker credits `crashed`, which has crashed, with chunk `i`. */
  ghost predicate Credited(w: World, crashed: string, i: nat) {
    && crashed in w.job.nodes && i < w.job.nodes[crashed].bitmap.chunkCount
    && Readable(w.job.nodes[crashed].bitmap, i) && Holds(w.job.nodes[crashed].bitmap, i)
    && crashed in w.nodes && !w.nodes[crashed].alive
  }

  lemma CreditIsGood(hash: Hasher, w: World, crashed: string, i: nat)
    requires Inv(hash, w) && Credited(w, crashed, i)
    ensures MarkedBy(w, crashed, i) && GoodIn(hash, w, crashed, i)
    ensures w.job.nodes[crashed].peerAddr == w.nodes[crashed].peerAddr
  {
    assert Known(w, w.job.nodes[crashed], crashed);
    MarkedIsBacked(hash, w, crashed, i);
  }

  lemma HandedOverTo(w: World, crashed: string, id: string, concurrency: nat)
    requires crashed in w.nodes && IsNew(w, id)
    ensures var r := HandedOver(w, crashed, id, concurrency);
      && ProfileOf(r, crashed).Some? && Holder(r, crashed) == id && id in r.nodes
      && r.nodes[id] == Reborn(w.nodes[crashed], concurrency, w.job.manifest.chunkCount)
      && DiskOf(r, crashed) == w.nodes[crashed].disk == DiskOf(w, crashed)
  {
  }

  /** A chunk credited to a crashed node, after a restart on its directory: the
    * process at its address serves it at every later moment exactly when no
    * write of that chunk is ever seen half done, and in the end exactly when it
    * is not left so. */
  lemma {:induction false} CreditAfterRestart(hash: Hasher, start: World, actions: seq<Action>,
                                              crashed: string, id: string, concurrency: nat,
                                              later: seq<Action>, i: nat)
    requires Initial(hash, start)
    requires Credited(Run(hash, start, actions), crashed, i) && IsNew(Run(hash, start, actions), id)
    ensures var w := Run(hash, start, actions);
      var r := Step(hash, w, Restart(crashed, id, concurrency));
      && Holder(r, crashed) == id && id in r.nodes && r.nodes[id].peerAddr == w.job.nodes[crashed].peerAddr
      && (AlwaysServes(hash, r, later, crashed, i) <==> NeverShort(hash, r, later, crashed, i))
      && (ServesIn(hash, Run(hash, r, later), crashed, i) <==> !LeftShort(hash, r, later, crashed, i))
  {
    Safe(hash, start, actions);
    var w := Run(hash, start, actions);
    CreditIsGood(hash, w, crashed, i);
    HandedOverTo(w, crashed, id, concurrency);
    RestartKeeps(hash, w, crashed, id, concurrency);
    AlwaysServesUnlessShort(hash, HandedOver(w, crashed, id, concurrency), later, crashed, i);
  }

  // ----- it can happen

  lemma FirstTarget(n: Node)
    requires n.bitmap == Empty(n.bitmap.chunkCount) && n.bitmap.chunkCount > 0 && n.concurrency > 0
    ensures Targets(n.bitmap, n.concurrency) != [] && Targets(n.bitmap, n.concurrency)[0] == 0
  {
  }

  lemma FirstTask(hash: Hasher, m: Manifest, n: Node)
    requires n.alive && n.queue == [] && n.tasks == map[]
    requires n.bitmap == Empty(n.bitmap.chunkCount) && n.bitmap.chunkCount > 0 && n.concurrency > 0
    ensures var started := LocalStep(hash, m, LocalStep(hash, m, n, StartRound), StartTask);
      started.alive && started.disk == n.disk && Fetches(started, 0)
  {
    FirstTarget(n);
    assert n.tasks.Keys == {};
  }

  /** A process started anew on a directory that has chunk 0 fetches it again, and
    * the first part of the write spoils it. */
  lemma {:induction false} RebornShortens(hash: Hasher, m: Manifest, was: Node, data: Bytes)
    requires WellFormed(m) && m.chunkCount > 0 && LengthOf(m, 0) > 0
    requires Matches(hash, m, 0, data)
    ensures |data| < U64_LIMIT
    ensures var steps := [StartRound, StartTask, Receive(0, EncodeReply(Some(data)))];
      Shortens(m, LocalSteps(hash, m, Reborn(was, 1, m.chunkCount), steps), WritePart(0, 0), 0)
  {
    var n := Reborn(was, 1, m.chunkCount);
    LengthFits(m, 0);
    FirstTask(hash, m, n);
    AcceptedIff(hash, m, 0, EncodeReply(Some(data)), data);
    ThreeSteps(hash, m, n, StartRound, StartTask, Receive(0, EncodeReply(Some(data))));
  }

  function Crashed(n: Node): Node {
    n.(alive := false, queue := [], tasks := map[])
  }

  /** A seed reports, is credited with everything, and crashes. */
  function SeedCrash(id: string, seed: Node): seq<Action> {
    [Send(id), Deliver(Snapshot(id, seed)), Local(id, Crash)]
  }

  /** Its successor starts to write chunk 0 again. */
  function Rewrite(id: string, data: Bytes): seq<Action>
    requires |data| < U64_LIMIT
  {
    [Local(id, StartRound), Local(id, StartTask), Local(id, Receive(0, EncodeReply(Some(data))))]
    + [Local(id, WritePart(0, 0))]
  }

  lemma {:induction false} AfterSeedCrash(hash: Hasher, start: World, seed: string)
    requires seed in start.nodes && start.nodes[seed].alive
    ensures Run(hash, start, SeedCrash(seed, start.nodes[seed])) ==
      WithNode(Reported(start, seed), seed, Crashed(start.nodes[seed]))
  {
    var n := start.nodes[seed];
    var reported := Reported(start, seed);
    RunThree(hash, start, Send(seed), Deliver(Snapshot(seed, n)), Local(seed, Crash));
    SendDeliver(hash, start, seed);
    assert reported == WithNode(reported, seed, n);
    OneLocal(hash, reported, seed, n, Crash);
  }

  lemma ReportIsCredit(j: JobState, id: string, n: Node, now: nat)
    requires j.nodes == map[] && Whole(n.bitmap) && Full(n.bitmap)
    requires n.bitmap.chunkCount == j.manifest.chunkCount > 0
    ensures var after := Beat(j, Snapshot(id, n), now);
      && after.manifest == j.manifest && id in after.nodes && after.nodes[id].bitmap == n.bitmap
      && Holds(n.bitmap, 0)
  {
    RoundTrip(n.bitmap);
    CompleteIffNothingMissing(n.bitmap);
  }

  lemma ReportedCredit(start: World, seed: string, crashed: Node)
    requires seed in start.nodes && start.job.nodes == map[] && !crashed.alive
    requires Whole(start.nodes[seed].bitmap) && Full(start.nodes[seed].bitmap)
    requires start.nodes[seed].bitmap.chunkCount == start.job.manifest.chunkCount > 0
    ensures var w := WithNode(Reported(start, seed), seed, crashed);
      && Credited(w, seed, 0) && w.former == start.former && w.job.manifest == start.job.manifest
      && w.nodes == start.nodes[seed := crashed]
  {
    ReportIsCredit(start.job, seed, start.nodes[seed], start.now);
  }

  lemma StartFacts(hash: Hasher, start: World, seed: string)
    requires Initial(hash, start) && seed in start.nodes
    ensures start.job.nodes == map[] && start.former == map[]
    ensures var b := start.nodes[seed].bitmap; Whole(b) && b.chunkCount == start.job.manifest.chunkCount
  {
    assert NodeOk(hash, start.job.manifest, start.nodes[seed]);
  }

  lemma {:induction false} SeedIsCredited(hash: Hasher, start: World, seed: string)
    requires Initial(hash, start) && start.job.manifest.chunkCount > 0
    requires seed in start.nodes && start.nodes[seed].alive && Full(start.nodes[seed].bitmap)
    ensures var w := Run(hash, start, SeedCrash(seed, start.nodes[seed]));
      && Credited(w, seed, 0) && w.former == map[] && w.job.manifest == start.job.manifest
      && w.nodes == start.nodes[seed := Crashed(start.nodes[seed])]
  {
    AfterSeedCrash(hash, start, seed);
    StartFacts(hash, start, seed);
    ReportedCredit(start, seed, Crashed(start.nodes[seed]));
  }

  /** From every start with a live seed of a file that is not empty: the seed is
    * credited with chunk 0, crashes, and is restarted; and the chunk is spoilt. */
  lemma {:induction false} RestartCanTear(hash: Hasher, start: World, seed: string, id: string)
    requires Initial(hash, start) && IsNew(start, id)
    requires start.job.manifest.chunkCount > 0 && LengthOf(start.job.manifest, 0) > 0
    requires seed in start.nodes && start.nodes[seed].alive && Full(start.nodes[seed].bitmap)
    ensures var w := Run(hash, start, SeedCrash(seed, start.nodes[seed]));
      Credited(w, seed, 0) && IsNew(w, id)
    ensures FileOf(start, seed, 0).Some? && |FileOf(start, seed, 0).value| < U64_LIMIT
    ensures var w := Run(hash, start, SeedCrash(seed, start.nodes[seed]));
      var r, later := Step(hash, w, Restart(seed, id, 1)), Rewrite(id, FileOf(start, seed, 0).value);
      && !AlwaysServes(hash, r, later, seed, 0)
      && !ServesIn(hash, Run(hash, r, later), seed, 0)
  {
    var actions, m := SeedCrash(seed, start.nodes[seed]), start.job.manifest;
    var w := Run(hash, start, actions);
    SeedIsCredited(hash, start, seed);
    Safe(hash, start, actions);
    CreditIsGood(hash, w, seed, 0);
    var data := FileOf(start, seed, 0).value;
    LengthFits(m, 0);
    CreditAfterRestart(hash, start, actions, seed, id, 1, Rewrite(id, data), 0);
    RewriteShortens(hash, w, seed, id, data);
    LeftAtTheEnd(hash, Step(hash, w, Restart(seed, id, 1)), Rewrite(id, data), seed, 0);
  }

  lemma LeftAtTheEnd(hash: Hasher, r: World, later: seq<Action>, id: string, i: nat)
    requires later != [] && ShortAt(hash, r, later, id, i, |later| - 1)
    ensures !NeverShort(hash, r, later, id, i) && LeftShort(hash, r, later, id, i)
  {
    assert LastLeftShort(hash, r, later, id, i, |later| - 1);
  }

  lemma RewriteShortens(hash: Hasher, w: World, seed: string, id: string, data: Bytes)
    requires WellFormed(w.job.manifest) && w.job.manifest.chunkCount > 0 && LengthOf(w.job.manifest, 0) > 0
    requires Matches(hash, w.job.manifest, 0, data) && |data| < U64_LIMIT
    requires seed in w.nodes && !w.nodes[seed].alive && IsNew(w, id)
    ensures ShortAt(hash, Step(hash, w, Restart(seed, id, 1)), Rewrite(id, data), seed, 0, 3)
  {
    var r, later := HandedOver(w, seed, id, 1), Rewrite(id, data);
    HandedOverTo(w, seed, id, 1);
    RebornShortens(hash, w.job.manifest, w.nodes[seed], data);
    ThreeLocal(hash, r, id, StartRound, StartTask, Receive(0, EncodeReply(Some(data))));
    assert later[..3] == [Local(id, StartRound), Local(id, StartTask), Local(id, Receive(0, EncodeReply(Some(data))))];
  }
}
