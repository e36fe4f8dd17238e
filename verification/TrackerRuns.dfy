/** The tracker over whole runs: its history, the job's status, and what a
  * tracker that lost its state learns again. */
module TrackerRuns {
  import opened Sequences
  import opened Bitmaps
  import opened Manifests
  import opened NodeSteps
  import opened Schedulers
  import opened JobStates
  import opened Protocol
  import opened Directories
  import opened ProtocolSafety

  // ----- the tracker's history

  function EventsOf(w: World, a: Action): seq<Event> {
    match a
    case Deliver(hb) => if hb in w.sent then [BeatEvent(hb, w.now)] else []
    case EvictPass(timeoutSecs) => [EvictEvent(timeoutSecs, w.now)]
    case CancelPass => [CancelEvent]
    case _ => []
  }

  /** The tracker's part of a run. */
  function History(hash: Hasher, w: World, actions: seq<Action>): seq<Event>
    decreases |actions|
  {
    if actions == [] then [] else
      History(hash, w, actions[..|actions| - 1])
      + EventsOf(Run(hash, w, actions[..|actions| - 1]), actions[|actions| - 1])
  }

  lemma {:induction false} StepIsEvents(hash: Hasher, j: JobState, history: seq<Event>, w: World, a: Action)
    requires w.job == Replay(j, history)
    ensures Step(hash, w, a).job == Replay(j, history + EventsOf(w, a))
  {
    var events := EventsOf(w, a);
    if events != [] {
      ReplaySnoc(j, history, events[0]);
      assert events == [events[0]];
    } else {
      assert history + events == history;
    }
  }

  /** The tracker's state in a run is the replay of its history. */
  lemma {:induction false} JobIsReplay(hash: Hasher, w: World, actions: seq<Action>)
    ensures Run(hash, w, actions).job == Replay(w.job, History(hash, w, actions))
    decreases |actions|
  {
    if actions != [] {
      var before := actions[..|actions| - 1];
      JobIsReplay(hash, w, before);
      StepIsEvents(hash, w.job, History(hash, w, before), Run(hash, w, before), actions[|actions| - 1]);
    }
  }

  /** In every run the tracker knows of each node its last heartbeat that no
    * eviction has cleared. */
  lemma {:induction false} TrackerIsLastWriter(hash: Hasher, start: World, actions: seq<Action>, id: string)
    requires Initial(hash, start)
    ensures var w, history := Run(hash, start, actions), History(hash, start, actions);
      var entry := Lookup(w.job.nodes, id);
      && (entry.None? ==> forall k: nat :: !LastWriter(history, w.job.manifest.chunkCount, id, k))
      && (entry.Some? ==> exists k: nat :: LastWriter(history, w.job.manifest.chunkCount, id, k)
                                        && entry.value == Written(history[k], w.job.manifest.chunkCount))
  {
    JobIsReplay(hash, start, actions);
    ReplayKeeps(start.job, History(hash, start, actions));
    NodesAreLastWriters(start.job, History(hash, start, actions), id);
  }

  // ----- the status over a whole run

  lemma {:induction false} RunInTwo(hash: Hasher, w: World, a: seq<Action>, b: seq<Action>)
    ensures Run(hash, w, a + b) == Run(hash, Run(hash, w, a), b)
    decreases |b|
  {
    if b == [] {
      assert a + b == a;
    } else {
      RunInTwo(hash, w, a, b[..|b| - 1]);
      assert (a + b)[..|a + b| - 1] == a + b[..|b| - 1];
    }
  }

  lemma {:induction false} HistoryPrefix(hash: Hasher, w: World, actions: seq<Action>, t: nat)
    requires t <= |actions|
    ensures History(hash, w, actions[..t]) <= History(hash, w, actions)
    decreases |actions|
  {
    if t < |actions| {
      HistoryPrefix(hash, w, actions[..|actions| - 1], t);
      assert actions[..|actions| - 1][..t] == actions[..t];
    } else {
      assert actions[..t] == actions;
    }
  }

  /** The events of step `t` follow those before it. */
  lemma {:induction false} StepsEvents(hash: Hasher, w: World, actions: seq<Action>, t: nat)
    requires t < |actions|
    ensures History(hash, w, actions[..t]) + EventsOf(Run(hash, w, actions[..t]), actions[t]) <=
      History(hash, w, actions)
    ensures History(hash, w, actions[..t + 1]) ==
      History(hash, w, actions[..t]) + EventsOf(Run(hash, w, actions[..t]), actions[t])
  {
    var upTo := actions[..t + 1];
    assert upTo[..t] == actions[..t] && upTo[t] == actions[t];
    HistoryPrefix(hash, w, actions, t + 1);
  }

  lemma CutFirst(a: seq<Event>, b: seq<Event>, k: nat)
    requires k <= |a|
    ensures (a + b)[..k] == a[..k] && a[..|a|] == a
  {
  }

  lemma NextEvent(earlier: seq<Event>, e: Event, history: seq<Event>)
    requires earlier + [e] <= history
    ensures |earlier| < |history| && history[|earlier|] == e && history[..|earlier| + 1] == earlier + [e]
  {
  }

  /** Each event of the history belongs to a step of the run. */
  lemma {:induction false} Moment(hash: Hasher, w: World, actions: seq<Action>, k: nat) returns (t: nat)
    requires k < |History(hash, w, actions)|
    ensures t < |actions| && History(hash, w, actions[..t]) == History(hash, w, actions)[..k]
    ensures EventsOf(Run(hash, w, actions[..t]), actions[t]) == [History(hash, w, actions)[k]]
    decreases |actions|
  {
    var before := actions[..|actions| - 1];
    var earlier := History(hash, w, before);
    if k < |earlier| {
      t := Moment(hash, w, before, k);
      assert before[..t] == actions[..t];
      CutFirst(earlier, EventsOf(Run(hash, w, before), actions[|actions| - 1]), k);
    } else {
      t := |actions| - 1;
      CutFirst(earlier, EventsOf(Run(hash, w, before), actions[t]), k);
    }
  }

  /** Step `t` declares the job complete, and no later one cancels it. */
  ghost predicate DeclaredAt(hash: Hasher, start: World, actions: seq<Action>, t: nat) {
    && t < |actions| && Completes(hash, Run(hash, start, actions[..t]), actions[t])
    && forall s :: t < s < |actions| ==> !actions[s].CancelPass?
  }

  lemma {:induction false} RunAt(hash: Hasher, w: World, actions: seq<Action>, t: nat)
    requires t < |actions|
    ensures Run(hash, w, actions[..t + 1]) == Step(hash, Run(hash, w, actions[..t]), actions[t])
  {
    assert actions[..t + 1] == actions[..t] + [actions[t]];
    RunOne(hash, w, actions[..t], actions[t]);
  }

  /** The job after step `t`, which is event `e` for the tracker. */
  lemma {:induction false} MomentJob(hash: Hasher, start: World, actions: seq<Action>, t: nat, e: Event)
    requires t < |actions| && EventsOf(Run(hash, start, actions[..t]), actions[t]) == [e]
    ensures var history, k := History(hash, start, actions), |History(hash, start, actions[..t])|;
      && k < |history| && history[k] == e
      && Replay(start.job, history[..k + 1]) == Step(hash, Run(hash, start, actions[..t]), actions[t]).job
  {
    StepsEvents(hash, start, actions, t);
    NextEvent(History(hash, start, actions[..t]), e, History(hash, start, actions));
    JobIsReplay(hash, start, actions[..t + 1]);
    RunAt(hash, start, actions, t);
  }

  /** A declaring step is a completing event, and the other way round. */
  lemma {:induction false} CompletesIsCompleting(hash: Hasher, start: World, actions: seq<Action>, t: nat)
    requires t < |actions| && |EventsOf(Run(hash, start, actions[..t]), actions[t])| == 1
    ensures var k := |History(hash, start, actions[..t])|;
      Completes(hash, Run(hash, start, actions[..t]), actions[t]) <==>
        Completing(start.job, History(hash, start, actions), k)
  {
    var w := Run(hash, start, actions[..t]);
    var e := EventsOf(w, actions[t])[0];
    assert EventsOf(w, actions[t]) == [e];
    MomentJob(hash, start, actions, t, e);
    AlikeEvent(hash, w, actions[t], e);
  }

  lemma AlikeEvent(hash: Hasher, w: World, a: Action, e: Event)
    requires EventsOf(w, a) == [e]
    ensures e.BeatEvent? <==> a.Deliver? && a.hb in w.sent
    ensures e.CancelEvent? <==> a.CancelPass?
  {
  }

  lemma {:induction false} CancelIsEvent(hash: Hasher, start: World, actions: seq<Action>, s: nat)
    requires s < |actions|
    ensures var k := |History(hash, start, actions[..s])|;
      actions[s].CancelPass? ==>
        k < |History(hash, start, actions)| && History(hash, start, actions)[k].CancelEvent?
  {
    StepsEvents(hash, start, actions, s);
  }

  lemma {:induction false} HistoryGrows(hash: Hasher, start: World, actions: seq<Action>, s: nat, t: nat)
    requires s <= t <= |actions|
    ensures |History(hash, start, actions[..s])| <= |History(hash, start, actions[..t])|
  {
    HistoryPrefix(hash, start, actions[..t], s);
    assert actions[..t][..s] == actions[..s];
  }

  /** What an event of the history says of the steps is said of the run. */
  lemma {:induction false} EverCompleteIsDeclared(hash: Hasher, start: World, actions: seq<Action>, k: nat)
    requires CompleteSince(start.job, History(hash, start, actions), k)
    ensures exists t: nat :: DeclaredAt(hash, start, actions, t)
  {
    var t := Moment(hash, start, actions, k);
    CompletesIsCompleting(hash, start, actions, t);
    StepsEvents(hash, start, actions, t);
    forall s | t < s < |actions| ensures !actions[s].CancelPass? {
      CancelIsEvent(hash, start, actions, s);
      HistoryGrows(hash, start, actions, t + 1, s);
    }
    assert DeclaredAt(hash, start, actions, t);
  }

  lemma {:induction false} DeclaredIsEverComplete(hash: Hasher, start: World, actions: seq<Action>, t: nat)
    requires DeclaredAt(hash, start, actions, t)
    ensures EverComplete(start.job, History(hash, start, actions))
  {
    var history, k := History(hash, start, actions), |History(hash, start, actions[..t])|;
    StepsEvents(hash, start, actions, t);
    CompletesIsCompleting(hash, start, actions, t);
    forall e: nat | k < e < |history| ensures !history[e].CancelEvent? {
      LaterEvent(hash, start, actions, t, e);
    }
    assert CompleteSince(start.job, history, k);
  }

  lemma {:induction false} LaterEvent(hash: Hasher, start: World, actions: seq<Action>, t: nat, e: nat)
    requires t < |actions| && |History(hash, start, actions[..t])| < e < |History(hash, start, actions)|
    ensures History(hash, start, actions)[e].CancelEvent? ==>
      exists s :: t < s < |actions| && actions[s].CancelPass?
  {
    var s := Moment(hash, start, actions, e);
    assert |History(hash, start, actions[..s])| == e;
    HistoryGrows(hash, start, actions, if s <= t then s else t, t);
    AlikeEvent(hash, Run(hash, start, actions[..s]), actions[s], History(hash, start, actions)[e]);
    assert t < s;
  }

  /** At the end of a run the job is complete exactly when some step declared it
    * complete and none cancelled it after. */
  lemma {:induction false} CompleteIff(hash: Hasher, start: World, actions: seq<Action>)
    requires Initial(hash, start)
    ensures Run(hash, start, actions).job.status == Complete <==>
      exists t: nat :: DeclaredAt(hash, start, actions, t)
  {
    var history := History(hash, start, actions);
    JobIsReplay(hash, start, actions);
    CompleteIsLastWord(start.job, history);
    if EverComplete(start.job, history) {
      var k: nat :| CompleteSince(start.job, history, k);
      EverCompleteIsDeclared(hash, start, actions, k);
    }
    if t: nat :| DeclaredAt(hash, start, actions, t) {
      DeclaredIsEverComplete(hash, start, actions, t);
    }
  }

  /** If a run ends with the job complete, some step declared it and none
    * cancelled it after; all nodes registered at that step had the whole file
    * then, and have it at the end. */
  lemma CompleteJobsDelivered(hash: Hasher, start: World, actions: seq<Action>)
    requires Initial(hash, start)
    requires Run(hash, start, actions).job.status == Complete
    ensures exists t: nat ::
      DeclaredAt(hash, start, actions, t) && Delivered(hash, Run(hash, start, actions[..t + 1]), actions[t + 1..])
    ensures forall t: nat :: DeclaredAt(hash, start, actions, t) ==>
      Run(hash, Run(hash, start, actions[..t + 1]), actions[t + 1..]) == Run(hash, start, actions)
  {
    CompleteIff(hash, start, actions);
    forall t: nat | DeclaredAt(hash, start, actions, t)
      ensures Delivered(hash, Run(hash, start, actions[..t + 1]), actions[t + 1..])
      ensures Run(hash, Run(hash, start, actions[..t + 1]), actions[t + 1..]) == Run(hash, start, actions)
    {
      DeclaredDelivers(hash, start, actions, t);
    }
  }

  lemma DeclaredDelivers(hash: Hasher, start: World, actions: seq<Action>, t: nat)
    requires Initial(hash, start) && DeclaredAt(hash, start, actions, t)
    ensures Delivered(hash, Run(hash, start, actions[..t + 1]), actions[t + 1..])
    ensures Run(hash, Run(hash, start, actions[..t + 1]), actions[t + 1..]) == Run(hash, start, actions)
  {
    assert actions == actions[..t + 1] + actions[t + 1..];
    RunInTwo(hash, start, actions[..t + 1], actions[t + 1..]);
    RunAt(hash, start, actions, t);
    CompletionIsSoundAndNotMissed(hash, start, actions[..t], actions[t], actions[t + 1..]);
  }

  /** A heartbeat that arrives at once. */
  function Reported(w: World, id: string): World
    requires id in w.nodes
  {
    var hb := Snapshot(id, w.nodes[id]);
    w.(sent := w.sent + {hb}, job := Beat(w.job, hb, w.now))
  }

  lemma SendDeliver(hash: Hasher, w: World, id: string)
    requires id in w.nodes && w.nodes[id].alive
    ensures Step(hash, Step(hash, w, Send(id)), Deliver(Snapshot(id, w.nodes[id]))) == Reported(w, id)
  {
  }

  lemma FirstReportCompletes(j: JobState, id: string, n: Node, now: nat)
    requires j.nodes == map[] && Whole(n.bitmap) && Full(n.bitmap) && n.bitmap.chunkCount == j.manifest.chunkCount
    ensures Beat(j, Snapshot(id, n), now).status == Complete
  {
    RoundTrip(n.bitmap);
    BeatCompletes(j, Snapshot(id, n), now);
  }

  /** A completion overrides a cancellation: a seed's first heartbeat does it. */
  lemma {:induction false} CompletionOverridesCancellation(hash: Hasher, start: World, id: string)
    requires Initial(hash, start)
    requires id in start.nodes && start.nodes[id].alive && Full(start.nodes[id].bitmap)
    ensures Run(hash, start, [CancelPass]).job.status == Cancelled
    ensures var hb := Snapshot(id, start.nodes[id]);
      Run(hash, start, [CancelPass] + [Send(id), Deliver(hb)]).job.status == Complete
  {
    var cancelled := start.(job := CancelledJob(start.job));
    CancelFirst(hash, start);
    RunTwo(hash, start, [CancelPass], Send(id), Deliver(Snapshot(id, start.nodes[id])));
    SendDeliver(hash, cancelled, id);
    assert NodeOk(hash, start.job.manifest, start.nodes[id]);
    FirstReportCompletes(cancelled.job, id, start.nodes[id], start.now);
  }

  lemma {:induction false} CancelFirst(hash: Hasher, start: World)
    ensures Run(hash, start, [CancelPass]) == start.(job := CancelledJob(start.job))
  {
    RunOne(hash, start, [], CancelPass);
    assert [] + [CancelPass] == [CancelPass];
  }

  // ----- a restarted tracker

  /** The tracker has lost what it knew; the nodes and the network have not. */
  function Forgotten(w: World): World {
    w.(job := NewJob(w.job.manifest, w.job.policy))
  }

  /** Each of these nodes sends its heartbeat, and it is delivered. */
  function Polls(nodes: map<string, Node>, polled: seq<string>): seq<Action>
    requires forall id :: id in polled ==> id in nodes
  {
    if polled == [] then [] else
      var id := polled[|polled| - 1];
      Polls(nodes, polled[..|polled| - 1]) + [Send(id), Deliver(Snapshot(id, nodes[id]))]
  }

  /** What the tracker holds of a node is what the node is. */
  ghost predicate Current(ns: NodeInfo, id: string, n: Node) {
    ns.nodeId == id && ns.rackId == n.rackId && ns.peerAddr == n.peerAddr && ns.bitmap == n.bitmap
  }

  /** The job's entries are those of the nodes polled, as they are now. */
  ghost predicate Relearned(nodes: map<string, Node>, polled: seq<string>, j: JobState) {
    && j.nodes.Keys == Elements(polled)
    && forall id :: id in j.nodes ==> id in nodes && Current(j.nodes[id], id, nodes[id])
  }

  lemma PollOne(nodes: map<string, Node>, front: seq<string>, id: string, j: JobState, now: nat)
    requires Relearned(nodes, front, j)
    requires id in nodes && Whole(nodes[id].bitmap) && nodes[id].bitmap.chunkCount == j.manifest.chunkCount
    ensures Relearned(nodes, front + [id], Beat(j, Snapshot(id, nodes[id]), now))
  {
    var hb := Snapshot(id, nodes[id]);
    RoundTrip(nodes[id].bitmap);
    assert Beat(j, hb, now).nodes == j.nodes[id := Refreshed(j, hb, now)];
    assert Elements(front + [id]) == Elements(front) + {id};
  }

  lemma FrontAndLast(polled: seq<string>)
    requires polled != []
    ensures polled == polled[..|polled| - 1] + [polled[|polled| - 1]]
  {
  }

  lemma {:induction false} PollAll(hash: Hasher, w: World, polled: seq<string>)
    requires NodesOk(hash, w) && w.job.nodes == map[]
    requires forall id :: id in polled ==> id in w.nodes && w.nodes[id].alive
    ensures var again := Run(hash, w, Polls(w.nodes, polled));
      && again.nodes == w.nodes && again.job.manifest == w.job.manifest
      && Relearned(w.nodes, polled, again.job)
    decreases |polled|
  {
    if polled != [] {
      var front, id := polled[..|polled| - 1], polled[|polled| - 1];
      var before := Run(hash, w, Polls(w.nodes, front));
      PollAll(hash, w, front);
      RunTwo(hash, w, Polls(w.nodes, front), Send(id), Deliver(Snapshot(id, w.nodes[id])));
      SendDeliver(hash, before, id);
      assert NodeOk(hash, w.job.manifest, w.nodes[id]);
      PollOne(w.nodes, front, id, before.job, before.now);
      FrontAndLast(polled);
    }
  }

  /** From any state a tracker that has forgotten everything and hears from live
    * nodes one after another knows exactly these, as they are. */
  lemma {:induction false} PollingRelearns(hash: Hasher, start: World, actions: seq<Action>, polled: seq<string>)
    requires Initial(hash, start)
    requires var w := Run(hash, start, actions); forall id :: id in polled ==> id in w.nodes && w.nodes[id].alive
    ensures var w := Run(hash, start, actions);
      var again := Run(hash, Forgotten(w), Polls(w.nodes, polled));
      again.nodes == w.nodes && Relearned(w.nodes, polled, again.job)
  {
    Safe(hash, start, actions);
    PollAll(hash, Forgotten(Run(hash, start, actions)), polled);
  }

  lemma ForgottenOk(hash: Hasher, w: World)
    requires Inv(hash, w)
    ensures Inv(hash, Forgotten(w)) && Later(w, Forgotten(w))
  {
    NobodyMoves(hash, w, Forgotten(w));
    SentKeeps(w, Forgotten(w));
  }

  /** Event `k` of the history is the delivery of the heartbeat that `id` sent at
    * step `s`, and the last that is known of `id`. */
  ghost predicate HeardSince(hash: Hasher, f: World, later: seq<Action>, id: string, s: nat, k: nat) {
    var history := History(hash, f, later);
    && s < |later| && later[s] == Send(id)
    && id in Run(hash, f, later[..s]).nodes && Run(hash, f, later[..s]).nodes[id].alive
    && LastWriter(history, f.job.manifest.chunkCount, id, k)
    && history[k].hb == Snapshot(id, Run(hash, f, later[..s]).nodes[id])
  }

  /** In any run of a tracker that has forgotten everything: of each process whose
    * last delivered heartbeat was sent since, it knows the whole bitmap as of
    * that heartbeat; and that contains what the process had marked, and what the
    * tracker had credited it with, before. */
  lemma {:induction false} RestartRelearns(hash: Hasher, start: World, actions: seq<Action>, later: seq<Action>,
                                           id: string, s: nat, k: nat)
    requires Initial(hash, start)
    requires HeardSince(hash, Forgotten(Run(hash, start, actions)), later, id, s, k)
    ensures var w, again := Run(hash, start, actions), Run(hash, Forgotten(Run(hash, start, actions)), later);
      && id in again.job.nodes
      && again.job.nodes[id].bitmap == Run(hash, Forgotten(w), later[..s]).nodes[id].bitmap
      && (ProfileOf(w, id).Some? ==> Within(ProfileOf(w, id).value.bitmap, again.job.nodes[id].bitmap))
      && (id in w.job.nodes ==> Within(w.job.nodes[id].bitmap, again.job.nodes[id].bitmap))
  {
    var w := Run(hash, start, actions);
    var f := Forgotten(w);
    Safe(hash, start, actions);
    ForgottenOk(hash, w);
    RunKeeps(hash, f, later[..s]);
    HeardEntry(hash, f, later, id, s, k);
    assert LaterAt(w, f, id) && LaterAt(f, Run(hash, f, later[..s]), id);
    if id in w.job.nodes {
      assert Known(w, w.job.nodes[id], id);
    }
  }

  lemma {:induction false} HeardEntry(hash: Hasher, f: World, later: seq<Action>, id: string, s: nat, k: nat)
    requires Inv(hash, f) && f.job.nodes == map[] && HeardSince(hash, f, later, id, s, k)
    ensures id in Run(hash, f, later).job.nodes
    ensures Run(hash, f, later).job.nodes[id].bitmap == Run(hash, f, later[..s]).nodes[id].bitmap
  {
    var history, n := History(hash, f, later), f.job.manifest.chunkCount;
    var sending := Run(hash, f, later[..s]);
    JobIsReplay(hash, f, later);
    NodesAreLastWriters(f.job, history, id);
    LastWriterUnique(history, n, id, k);
    RunKeeps(hash, f, later[..s]);
    assert NodeOk(hash, sending.job.manifest, sending.nodes[id]);
    RoundTrip(sending.nodes[id].bitmap);
  }
}
