/** Time over whole runs: who is registered, and when a sweep drops a silent node. */
module Clocks {
  import opened Wrappers
  import opened Bitmaps
  import opened Manifests
  import opened Schedulers
  import opened JobStates
  import opened Protocol
  import opened Directories

  /** The milliseconds that pass in a run. */
  function Elapsed(actions: seq<Action>): nat
    decreases |actions|
  {
    if actions == [] then 0
    else
      var last := actions[|actions| - 1];
      Elapsed(actions[..|actions| - 1]) + if last.Tick? then last.millis else 0
  }

  lemma {:induction false} NowIs(hash: Hasher, w: World, actions: seq<Action>)
    ensures Run(hash, w, actions).now == w.now + Elapsed(actions)
    decreases |actions|
  {
    if actions != [] {
      NowIs(hash, w, actions[..|actions| - 1]);
    }
  }

  lemma {:induction false} ElapsedInTwo(a: seq<Action>, b: seq<Action>)
    ensures Elapsed(a + b) == Elapsed(a) + Elapsed(b)
    decreases |b|
  {
    if b == [] {
      assert a + b == a;
    } else {
      assert (a + b)[..|a + b| - 1] == a + b[..|b| - 1];
      ElapsedInTwo(a, b[..|b| - 1]);
    }
  }

  lemma {:induction false} ElapsedBetween(actions: seq<Action>, t: nat, s: nat)
    requires t <= s <= |actions|
    ensures Elapsed(actions[..s]) == Elapsed(actions[..t]) + Elapsed(actions[t..s])
  {
    assert actions[..s] == actions[..t] + actions[t..s];
    ElapsedInTwo(actions[..t], actions[t..s]);
  }

  /** Step `t` delivers a heartbeat of `id`. */
  ghost predicate HeardAt(hash: Hasher, w: World, actions: seq<Action>, id: string, t: nat) {
    && t < |actions| && actions[t].Deliver? && actions[t].hb.nodeId == id
    && actions[t].hb in Run(hash, w, actions[..t]).sent
  }

  /** Step `s` is a sweep that comes too long after step `t`. */
  predicate SweptAt(actions: seq<Action>, t: nat, s: nat)
    requires t <= s < |actions|
  {
    actions[s].EvictPass? && Elapsed(actions[t..s]) >= 1000 * (actions[s].timeoutSecs + 1)
  }

  /** Step `t` is the last that delivers a heartbeat of `id`, and no sweep has come
    * too long after it. */
  ghost predicate KnownSince(hash: Hasher, w: World, actions: seq<Action>, id: string, t: nat) {
    && HeardAt(hash, w, actions, id, t)
    && forall s: nat :: t < s < |actions| ==> !HeardAt(hash, w, actions, id, s) && !SweptAt(actions, t, s)
  }

  lemma HeardPrefix(hash: Hasher, w: World, actions: seq<Action>, a: Action, id: string, t: nat)
    requires t < |actions|
    ensures HeardAt(hash, w, actions + [a], id, t) <==> HeardAt(hash, w, actions, id, t)
  {
    assert (actions + [a])[..t] == actions[..t];
  }

  lemma SweptPrefix(actions: seq<Action>, a: Action, t: nat, s: nat)
    requires t <= s < |actions|
    ensures SweptAt(actions + [a], t, s) <==> SweptAt(actions, t, s)
  {
    assert (actions + [a])[t..s] == actions[t..s];
  }

  /** How one more step decides. */
  lemma KnownStep(hash: Hasher, w: World, actions: seq<Action>, a: Action, id: string, t: nat)
    requires t < |actions|
    ensures KnownSince(hash, w, actions + [a], id, t) <==>
      && KnownSince(hash, w, actions, id, t)
      && !HeardAt(hash, w, actions + [a], id, |actions|) && !SweptAt(actions + [a], t, |actions|)
  {
    HeardPrefix(hash, w, actions, a, id, t);
    forall s: nat | t < s < |actions|
      ensures HeardAt(hash, w, actions + [a], id, s) <==> HeardAt(hash, w, actions, id, s)
      ensures SweptAt(actions + [a], t, s) <==> SweptAt(actions, t, s)
    {
      HeardPrefix(hash, w, actions, a, id, s);
      SweptPrefix(actions, a, t, s);
    }
  }

  /** What the tracker holds of a node it heard at step `t` of the run. */
  function HeardEntry(start: World, actions: seq<Action>, t: nat): NodeInfo
    requires t < |actions| && actions[t].Deliver?
  {
    var hb := actions[t].hb;
    NodeInfo(hb.nodeId, hb.rackId, hb.peerAddr, Decode(hb.bitmapBytes, start.job.manifest.chunkCount), hb.uploadBw,
             start.now + Elapsed(actions[..t]))
  }

  /** What one step leaves of one entry. */
  lemma StepAt(hash: Hasher, w: World, a: Action, id: string)
    requires KeysMatch(w.job.nodes)
    ensures KeysMatch(Step(hash, w, a).job.nodes)
    ensures Lookup(Step(hash, w, a).job.nodes, id) ==
      var was := Lookup(w.job.nodes, id);
      if a.Deliver? && a.hb.nodeId == id && a.hb in w.sent
      then Some(Record(a.hb, w.job.manifest.chunkCount, w.now))
      else if a.EvictPass? && was.Some? && IsStale(was.value, a.timeoutSecs, w.now) then None
      else was
  {
  }

  /** Step `t` and no other accounts for the entry. */
  ghost predicate Accounts(hash: Hasher, start: World, actions: seq<Action>, id: string, t: nat) {
    && KnownSince(hash, start, actions, id, t)
    && Lookup(Run(hash, start, actions).job.nodes, id) == Some(HeardEntry(start, actions, t))
  }

  /** A node not known before its first heartbeat arrives. */
  lemma {:induction false} NothingHeard(hash: Hasher, start: World, id: string)
    requires start.job.nodes == map[]
    ensures Lookup(Run(hash, start, []).job.nodes, id) == None
    ensures forall t: nat :: !KnownSince(hash, start, [], id, t)
  {
  }

  /** The last step hears of the node. */
  lemma {:induction false} HeardNow(hash: Hasher, start: World, before: seq<Action>, a: Action, id: string)
    requires var w := Run(hash, start, before);
      KeysMatch(w.job.nodes) && w.job.manifest == start.job.manifest && w.now == start.now + Elapsed(before)
    requires HeardAt(hash, start, before + [a], id, |before|)
    ensures Accounts(hash, start, before + [a], id, |before|)
    ensures forall t: nat :: KnownSince(hash, start, before + [a], id, t) ==> t == |before|
  {
    assert (before + [a])[..|before|] == before;
    StepAt(hash, Run(hash, start, before), a, id);
    RunOne(hash, start, before, a);
  }

  /** It does not; then the entry stays unless a sweep drops it. */
  lemma {:induction false} NotHeardNow(hash: Hasher, start: World, before: seq<Action>, a: Action, id: string, t: nat)
    requires var w := Run(hash, start, before);
      KeysMatch(w.job.nodes) && w.job.manifest == start.job.manifest && w.now == start.now + Elapsed(before)
    requires Accounts(hash, start, before, id, t) && !HeardAt(hash, start, before + [a], id, |before|)
    ensures if SweptAt(before + [a], t, |before|)
            then Lookup(Run(hash, start, before + [a]).job.nodes, id) == None
            else Accounts(hash, start, before + [a], id, t)
  {
    var w, entry := Run(hash, start, before), HeardEntry(start, before, t);
    assert (before + [a])[..|before|] == before && (before + [a])[..t] == before[..t];
    assert (before + [a])[t..|before|] == before[t..];
    StepAt(hash, w, a, id);
    RunOne(hash, start, before, a);
    KnownStep(hash, start, before, a, id, t);
    ElapsedBetween(before, t, |before|);
    assert before[..|before|] == before && before[t..|before|] == before[t..];
    if a.EvictPass? {
      StaleIff(entry, a.timeoutSecs, w.now);
    }
  }

  /** What the steps before know of the clock and the map. */
  lemma {:induction false} MapAndClock(hash: Hasher, start: World, actions: seq<Action>)
    requires start.job.nodes == map[]
    ensures var w := Run(hash, start, actions);
      KeysMatch(w.job.nodes) && w.job.manifest == start.job.manifest && w.now == start.now + Elapsed(actions)
    decreases |actions|
  {
    NowIs(hash, start, actions);
    if actions != [] {
      var before, a := actions[..|actions| - 1], actions[|actions| - 1];
      MapAndClock(hash, start, before);
      ManifestStays(hash, Run(hash, start, before), a);
      StepAt(hash, Run(hash, start, before), a, "");
    }
  }

  /** In every run a node is registered exactly when some step heard of it, none
    * has since, and no sweep came too long after; and then the tracker holds what
    * that heartbeat said, and when it came. */
  lemma {:induction false} RegisteredIff(hash: Hasher, start: World, actions: seq<Action>, id: string)
    requires start.job.nodes == map[]
    ensures id in Run(hash, start, actions).job.nodes <==> exists t: nat :: KnownSince(hash, start, actions, id, t)
    ensures forall t: nat :: KnownSince(hash, start, actions, id, t) ==> Accounts(hash, start, actions, id, t)
    decreases |actions|
  {
    if actions == [] {
      NothingHeard(hash, start, id);
    } else {
      var before, a := actions[..|actions| - 1], actions[|actions| - 1];
      assert actions == before + [a];
      RegisteredIff(hash, start, before, id);
      MapAndClock(hash, start, before);
      if HeardAt(hash, start, actions, id, |before|) {
        HeardNow(hash, start, before, a, id);
      } else {
        NotHeard(hash, start, before, a, id);
      }
    }
  }

  lemma {:induction false} NotHeard(hash: Hasher, start: World, before: seq<Action>, a: Action, id: string)
    requires var w := Run(hash, start, before);
      KeysMatch(w.job.nodes) && w.job.manifest == start.job.manifest && w.now == start.now + Elapsed(before)
    requires !HeardAt(hash, start, before + [a], id, |before|)
    requires id in Run(hash, start, before).job.nodes <==> exists t: nat :: KnownSince(hash, start, before, id, t)
    requires forall t: nat :: KnownSince(hash, start, before, id, t) ==> Accounts(hash, start, before, id, t)
    ensures id in Run(hash, start, before + [a]).job.nodes <==>
      exists t: nat :: KnownSince(hash, start, before + [a], id, t)
    ensures forall t: nat :: KnownSince(hash, start, before + [a], id, t) ==>
      Accounts(hash, start, before + [a], id, t)
  {
    forall t: nat | KnownSince(hash, start, before + [a], id, t)
      ensures KnownSince(hash, start, before, id, t) && Accounts(hash, start, before + [a], id, t)
    {
      assert (before + [a])[|before|] == a;
      KnownStep(hash, start, before, a, id, t);
      NotHeardNow(hash, start, before, a, id, t);
    }
    if id in Run(hash, start, before).job.nodes {
      var t: nat :| KnownSince(hash, start, before, id, t);
      NotHeardNow(hash, start, before, a, id, t);
    } else {
      StepAt(hash, Run(hash, start, before), a, id);
      RunOne(hash, start, before, a);
      assert (before + [a])[..|before|] == before;
    }
  }

  /** A sweep drops a registered node exactly when at least a second more than the
    * timeout has passed since it was last heard. */
  lemma {:induction false} SweepDrops(hash: Hasher, start: World, actions: seq<Action>, id: string, t: nat,
                                      timeoutSecs: nat)
    requires start.job.nodes == map[] && KnownSince(hash, start, actions, id, t)
    ensures id in Run(hash, start, actions).job.nodes
    ensures id !in Run(hash, start, actions + [EvictPass(timeoutSecs)]).job.nodes <==>
      Elapsed(actions[t..]) >= 1000 * (timeoutSecs + 1)
  {
    var sweep := EvictPass(timeoutSecs);
    RegisteredIff(hash, start, actions, id);
    MapAndClock(hash, start, actions);
    NotHeardNow(hash, start, actions, sweep, id, t);
    assert (actions + [sweep])[t..|actions|] == actions[t..];
  }
}
