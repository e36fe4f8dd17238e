/** The tracker's objects: jobs, which change in place, and the job table. */
module Trackers {
  import opened Wrappers
  import opened Sequences
  import opened Bitmaps
  import opened Manifests
  import opened Schedulers
  import opened JobStates

  class Job {
    const manifest: Manifest
    const policy: SchedulingPolicy
    var status: JobStatus
    var nodes: map<string, NodeInfo>
    var completions: nat

    ghost function View(): JobState
      reads this
    {
      JobState(manifest, policy, status, nodes, completions)
    }

    constructor (manifest: Manifest, policy: SchedulingPolicy)
      ensures View() == NewJob(manifest, policy)
    {
      this.manifest := manifest;
      this.policy := policy;
      this.status := Running;
      this.nodes := map[];
      this.completions := 0;
    }

    method AllComplete() returns (all: bool)
      ensures all <==> AllFull(nodes)
    {
      var rest := nodes.Keys;
      while rest != {}
        invariant rest <= nodes.Keys
        invariant forall id :: id in nodes.Keys - rest ==> Full(nodes[id].bitmap)
      {
        var id :| id in rest;
        if !Full(nodes[id].bitmap) {
          return false;
        }
        rest := rest - {id};
      }
      return true;
    }

    /** The entry is created empty if need be, then takes over the heartbeat. */
    method UpdateNode(hb: Heartbeat, now: nat)
      modifies this
      ensures View() == Beat(old(View()), hb, now)
    {
      if hb.nodeId !in nodes {
        nodes := nodes[hb.nodeId := NodeInfo(hb.nodeId, hb.rackId, hb.peerAddr,
                                             Empty(manifest.chunkCount), hb.uploadBw, now)];
      }
      var ns := nodes[hb.nodeId];
      ns := ns.(bitmap := Decode(hb.bitmapBytes, manifest.chunkCount));
      ns := ns.(uploadBw := hb.uploadBw, rackId := hb.rackId, peerAddr := hb.peerAddr, lastSeen := now);
      nodes := nodes[hb.nodeId := ns];
      assert nodes == old(nodes)[hb.nodeId := Refreshed(old(View()), hb, now)];
      if RatioReachesOne(ns.bitmap) {
        var allDone := AllComplete();
        if allDone {
          status := Complete;
          completions := completions + 1;
        }
      }
    }

    method Cancel()
      modifies this
      ensures View() == CancelledJob(old(View()))
    {
      status := Cancelled;
    }

    /** Keeps the nodes that are not stale. */
    method EvictStale(timeoutSecs: nat, now: nat)
      modifies this
      ensures View() == Evicted(old(View()), timeoutSecs, now)
    {
      var kept: map<string, NodeInfo> := map[];
      var rest := nodes.Keys;
      while rest != {}
        invariant rest <= nodes.Keys
        invariant kept.Keys == set id | id in nodes.Keys - rest && !IsStale(nodes[id], timeoutSecs, now)
        invariant forall id :: id in kept ==> kept[id] == nodes[id]
      {
        var id :| id in rest;
        if !IsStale(nodes[id], timeoutSecs, now) {
          kept := kept[id := nodes[id]];
        }
        rest := rest - {id};
      }
      assert kept == Evicted(View(), timeoutSecs, now).nodes;
      nodes := kept;
    }

    method CountFull() returns (done: nat)
      ensures done == |set id | id in nodes && Full(nodes[id].bitmap)|
      ensures done <= |nodes| && (done == |nodes| <==> AllFull(nodes))
    {
      var full: set<string> := {};
      var rest := nodes.Keys;
      while rest != {}
        invariant rest <= nodes.Keys
        invariant full == set id | id in nodes.Keys - rest && Full(nodes[id].bitmap)
      {
        var id :| id in rest;
        if Full(nodes[id].bitmap) {
          full := full + {id};
        }
        rest := rest - {id};
      }
      assert full == set id | id in nodes && Full(nodes[id].bitmap);
      done := |full|;
      assert |nodes| == |nodes.Keys|;
      SubsetSize(full, nodes.Keys);
      assert full == nodes.Keys <==> AllFull(nodes);
    }

    static function Share(done: nat, total: nat): (ratio: real)
      requires done <= total
      ensures ratio * (total as real) == done as real && 0.0 <= ratio <= 1.0
      ensures ratio == 1.0 <==> total > 0 && done == total
    {
      if total == 0 then 0.0 else done as real / total as real
    }

    /** The share of nodes whose bitmap is complete; nothing of no nodes. */
    method CompletionRatio() returns (ratio: real)
      ensures ratio * (|nodes| as real) == |set id | id in nodes && Full(nodes[id].bitmap)| as real
      ensures 0.0 <= ratio <= 1.0 && (|nodes| == 0 ==> ratio == 0.0)
      ensures ratio == 1.0 <==> |nodes| > 0 && AllFull(nodes)
    {
      var done := CountFull();
      ratio := Share(done, |nodes|);
    }

    method GetPeers(order: seq<string>, requester: string, rack: string, chunk: nat, topN: nat)
      returns (peers: seq<CandidatePeer>)
      requires Enumerates(order, nodes)
      requires AllReadable(nodes, requester, chunk)
      ensures forall id :: id in order ==> id in nodes
      ensures ReadableFor(Entries(nodes, order), requester, chunk)
      ensures peers == PeersFor(View(), order, requester, rack, chunk, topN)
      ensures KeysMatch(nodes) ==>
        && BestChoice(RankingOrder(policy, rack), Entries(nodes, order), requester, chunk, topN, peers)
        && |peers| == Min(topN, |set id | id in nodes && id != requester && Holds(nodes[id].bitmap, chunk)|)
    {
      if KeysMatch(nodes) {
        OrderInNodes(order, nodes);
        EntriesReadable(nodes, order, requester, chunk);
        PeersAreBest(View(), order, requester, rack, chunk, topN);
      }
      OrderInNodes(order, nodes);
      var entries := Entries(nodes, order);
      EntriesReadable(nodes, order, requester, chunk);
      match policy
      case RarityFirstPolicy => peers := RarityFirst(entries, requester, chunk, topN);
      case TopologyAwarePolicy => peers := TopologyAware(entries, requester, rack, chunk, topN);
    }

    method ReplicaCounts(order: seq<string>) returns (counts: seq<nat>)
      requires Enumerates(order, nodes) && WholeNodes(View())
      ensures forall id :: id in order ==> id in nodes
      ensures WholeEntries(Entries(nodes, order), manifest.chunkCount)
      ensures counts == HolderCounts(Entries(nodes, order), manifest.chunkCount)
      ensures Sum(counts) == Sum(CompletedCounts(Entries(nodes, order)))
    {
      OrderInNodes(order, nodes);
      var entries := Entries(nodes, order);
      forall t | 0 <= t < |entries|
        ensures Whole(entries[t].bitmap) && entries[t].bitmap.chunkCount == manifest.chunkCount
      {
        assert order[t] in order;
      }
      counts := Schedulers.ReplicaCounts(entries, manifest.chunkCount);
      ReplicaConservation(entries, manifest.chunkCount);
    }
  }

  class Tracker {
    var jobs: map<string, Job>

    /** Every job has its own object. */
    ghost predicate Valid()
      reads this
    {
      forall a, b :: a in jobs && b in jobs && a != b ==> jobs[a] != jobs[b]
    }

    ghost function View(): map<string, JobState>
      reads this, jobs.Values
    {
      map id | id in jobs :: jobs[id].View()
    }

    constructor ()
      ensures Valid() && View() == map[]
    {
      jobs := map[];
    }

    /** `jobId` is a fresh identifier. */
    method CreateJob(jobId: string, manifest: Manifest, policy: SchedulingPolicy)
      requires Valid() && jobId !in jobs
      modifies this
      ensures Valid() && View() == old(View())[jobId := JobState(manifest, policy, Running, map[], 0)]
    {
      var job := new Job(manifest, policy);
      jobs := jobs[jobId := job];
    }

    method CancelJob(jobId: string) returns (r: Outcome)
      requires Valid()
      modifies jobs.Values
      ensures Valid()
      ensures r == if jobId in old(View()) then Pass else Fail(JobNotFound(jobId))
      ensures View() == if jobId in old(View())
                        then old(View())[jobId := CancelledJob(old(View())[jobId])] else old(View())
    {
      if jobId !in jobs {
        return Fail(JobNotFound(jobId));
      }
      jobs[jobId].Cancel();
      return Pass;
    }

    method UpdateNode(jobId: string, hb: Heartbeat, now: nat) returns (r: Outcome)
      requires Valid()
      modifies jobs.Values
      ensures Valid()
      ensures r == if jobId in old(View()) then Pass else Fail(JobNotFound(jobId))
      ensures View() == if jobId in old(View())
                        then old(View())[jobId := Beat(old(View())[jobId], hb, now)] else old(View())
    {
      if jobId !in jobs {
        return Fail(JobNotFound(jobId));
      }
      jobs[jobId].UpdateNode(hb, now);
      return Pass;
    }

    /** The answer to a heartbeat request: the update, then a read of the status. */
    method DispatchHeartbeat(jobId: string, hb: Heartbeat, now: nat) returns (ack: Result<bool>)
      requires Valid()
      modifies jobs.Values
      ensures Valid()
      ensures jobId !in old(View()) ==> ack == Failure(JobNotFound(jobId)) && View() == old(View())
      ensures jobId in old(View()) ==>
        && View() == old(View())[jobId := Beat(old(View())[jobId], hb, now)]
        && ack == Success(View()[jobId].status == Complete)
    {
      var r := UpdateNode(jobId, hb, now);
      if r.Fail? {
        return Failure(r.error);
      }
      assert jobs[jobId].View() == View()[jobId];
      return Success(jobs[jobId].status == Complete);
    }

    method GetPeers(jobId: string, order: seq<string>, requester: string, rack: string, chunk: nat, topN: nat)
      returns (r: Result<seq<CandidatePeer>>)
      requires Valid()
      requires jobId in jobs ==>
        Enumerates(order, jobs[jobId].nodes) && AllReadable(jobs[jobId].nodes, requester, chunk)
      ensures jobId !in jobs ==> r == Failure(JobNotFound(jobId))
      ensures jobId in jobs ==>
        && (forall id :: id in order ==> id in jobs[jobId].nodes)
        && ReadableFor(Entries(jobs[jobId].nodes, order), requester, chunk)
        && r == Success(PeersFor(jobs[jobId].View(), order, requester, rack, chunk, topN))
    {
      if jobId !in jobs {
        return Failure(JobNotFound(jobId));
      }
      var peers := jobs[jobId].GetPeers(order, requester, rack, chunk, topN);
      return Success(peers);
    }

    /** One pass over every job. */
    method EvictStaleNodes(timeoutSecs: nat, now: nat)
      requires Valid()
      modifies jobs.Values
      ensures Valid()
      ensures View() == map id | id in old(View()) :: Evicted(old(View())[id], timeoutSecs, now)
    {
      var rest := jobs.Keys;
      while rest != {}
        invariant rest <= jobs.Keys && Valid() && jobs == old(jobs)
        invariant forall id :: id in rest ==> jobs[id].View() == old(jobs[id].View())
        invariant forall id :: id in jobs.Keys - rest ==>
          jobs[id].View() == Evicted(old(jobs[id].View()), timeoutSecs, now)
      {
        var id :| id in rest;
        jobs[id].EvictStale(timeoutSecs, now);
        rest := rest - {id};
      }
    }
  }
}
