/** What becomes of the chunk files in a process's directory, whichever process
  * runs there later. */
module Directories {
  import opened Bytes
  import opened Wrappers
  import opened Manifests
  import opened ChunkStores
  import opened Wire
  import opened Nodes
  import opened NodeSteps
  import opened Protocol

  function FileOf(w: World, id: string, i: nat): Option<Bytes> {
    Stored(DiskOf(w, id), w.job.manifest.fileId, i)
  }

  ghost predicate GoodIn(hash: Hasher, w: World, id: string, i: nat) {
    StoredGood(hash, w.job.manifest, DiskOf(w, id), i)
  }

  /** The process in the directory of `id` has a write of chunk `i` seen half done. */
  predicate ShortWrite(w: World, a: Action, id: string, i: nat) {
    && a.Local? && a.id == Holder(w, id) && a.id in w.nodes
    && Shortens(w.job.manifest, w.nodes[a.id], a.act, i)
  }

  /** It has one seen done. */
  predicate WholeWrite(w: World, a: Action, id: string, i: nat) {
    && a.Local? && a.id == Holder(w, id) && a.id in w.nodes
    && Fills(w.job.manifest, w.nodes[a.id], a.act, i)
  }

  lemma HolderThere(hash: Hasher, w: World, id: string)
    requires FormersOk(hash, w) && ProfileOf(w, id).Some?
    ensures Holder(w, id) in w.nodes
  {
  }

  /** Only a step of the process in a directory changes its disk; a restart hands
    * it over as it is. */
  lemma DiskStays(hash: Hasher, w: World, a: Action, id: string)
    requires FormersOk(hash, w) && ProfileOf(w, id).Some?
    requires !(a.Local? && a.id == Holder(w, id))
    ensures DiskOf(Step(hash, w, a), id) == DiskOf(w, id)
  {
    HolderThere(hash, w, id);
    if a.Restart? {
      if a.crashed in w.nodes && !w.nodes[a.crashed].alive && IsNew(w, a.id) {
        HandedDisk(hash, w, a.crashed, a.id, a.concurrency, id);
      }
    } else if a.Join? || a.Local? {
      OtherDirectory(hash, w, a, id);
    } else {
      OtherActionStays(hash, w, a);
    }
  }

  lemma OtherDirectory(hash: Hasher, w: World, a: Action, id: string)
    requires ProfileOf(w, id).Some? && Holder(w, id) in w.nodes
    requires a.Join? || (a.Local? && a.id != Holder(w, id))
    ensures DiskOf(Step(hash, w, a), id) == DiskOf(w, id)
  {
  }

  lemma HandedDisk(hash: Hasher, w: World, crashed: string, heir: string, concurrency: nat, id: string)
    requires FormersOk(hash, w) && ProfileOf(w, id).Some? && crashed in w.nodes && IsNew(w, heir)
    ensures DiskOf(HandedOver(w, crashed, heir, concurrency), id) == DiskOf(w, id)
  {
  }

  lemma DirectoryStep(hash: Hasher, w: World, a: Action, id: string, i: nat)
    requires Inv(hash, w) && ProfileOf(w, id).Some?
    ensures var v := Step(hash, w, a);
      && v.job.manifest == w.job.manifest
      && (ShortWrite(w, a, id, i) ==>
            FileOf(v, id, i).Some? && |FileOf(v, id, i).value| < LengthOf(w.job.manifest, i))
      && (WholeWrite(w, a, id, i) ==> GoodIn(hash, v, id, i))
      && (!ShortWrite(w, a, id, i) && !WholeWrite(w, a, id, i) ==> FileOf(v, id, i) == FileOf(w, id, i))
  {
    HolderThere(hash, w, id);
    if a.Local? && a.id == Holder(w, id) {
      assert NodeOk(hash, w.job.manifest, w.nodes[a.id]);
      FileStep(hash, w.job.manifest, w.nodes[a.id], a.act, i);
      LocalDisk(hash, w, a.id, a.act, id);
    } else {
      DiskStays(hash, w, a, id);
      ManifestStays(hash, w, a);
    }
  }

  lemma LocalDisk(hash: Hasher, w: World, p: string, act: LocalAction, id: string)
    requires p == Holder(w, id) && p in w.nodes
    ensures var v := Step(hash, w, Local(p, act));
      v.job.manifest == w.job.manifest && DiskOf(v, id) == LocalStep(hash, w.job.manifest, w.nodes[p], act).disk
  {
  }

  lemma ManifestStays(hash: Hasher, w: World, a: Action)
    ensures Step(hash, w, a).job.manifest == w.job.manifest
  {
  }

  lemma {:induction false} RunOne(hash: Hasher, w: World, actions: seq<Action>, a: Action)
    ensures Run(hash, w, actions + [a]) == Step(hash, Run(hash, w, actions), a)
  {
    assert (actions + [a])[..|actions|] == actions;
  }

  lemma {:induction false} RunTwo(hash: Hasher, w: World, actions: seq<Action>, a: Action, b: Action)
    ensures Run(hash, w, actions + [a, b]) == Step(hash, Step(hash, Run(hash, w, actions), a), b)
  {
    var first := actions + [a];
    RunOne(hash, w, actions, a);
    RunOne(hash, w, first, b);
    OneThenOne(actions, a, b);
  }

  lemma OneThenOne(actions: seq<Action>, a: Action, b: Action)
    ensures actions + [a] + [b] == actions + [a, b]
  {
  }

  function WithNode(w: World, id: string, n: Node): World {
    w.(nodes := w.nodes[id := n])
  }

  lemma OneLocal(hash: Hasher, w: World, id: string, n: Node, act: LocalAction)
    ensures Step(hash, WithNode(w, id, n), Local(id, act)) ==
      WithNode(w, id, LocalStep(hash, w.job.manifest, n, act))
  {
  }

  lemma {:induction false} RunThree(hash: Hasher, w: World, a: Action, b: Action, c: Action)
    ensures Run(hash, w, [a, b, c]) == Step(hash, Step(hash, Step(hash, w, a), b), c)
  {
    RunOne(hash, w, [], a);
    RunTwo(hash, w, [a], b, c);
    assert [] + [a] == [a] && [a] + [b, c] == [a, b, c];
  }

  lemma {:induction false} ThreeLocal(hash: Hasher, w: World, id: string, a: LocalAction, b: LocalAction,
                                      c: LocalAction)
    requires id in w.nodes
    ensures Run(hash, w, [Local(id, a), Local(id, b), Local(id, c)]) ==
      WithNode(w, id, LocalSteps(hash, w.job.manifest, w.nodes[id], [a, b, c]))
  {
    var m, n := w.job.manifest, w.nodes[id];
    var n1 := LocalStep(hash, m, n, a);
    var n2 := LocalStep(hash, m, n1, b);
    assert w == WithNode(w, id, n);
    OneLocal(hash, w, id, n, a);
    OneLocal(hash, w, id, n1, b);
    OneLocal(hash, w, id, n2, c);
    RunThree(hash, w, Local(id, a), Local(id, b), Local(id, c));
    ThreeSteps(hash, m, n, a, b, c);
  }

  // ----- over a run

  ghost predicate ShortAt(hash: Hasher, w: World, later: seq<Action>, id: string, i: nat, t: nat)
    requires t < |later|
  {
    ShortWrite(Run(hash, w, later[..t]), later[t], id, i)
  }

  ghost predicate WholeAt(hash: Hasher, w: World, later: seq<Action>, id: string, i: nat, t: nat)
    requires t < |later|
  {
    WholeWrite(Run(hash, w, later[..t]), later[t], id, i)
  }

  /** Step `t` leaves the file short and no later one makes it whole. */
  ghost predicate LastLeftShort(hash: Hasher, w: World, later: seq<Action>, id: string, i: nat, t: nat) {
    && t < |later| && ShortAt(hash, w, later, id, i, t)
    && forall s: nat :: t < s < |later| ==> !WholeAt(hash, w, later, id, i, s)
  }

  /** The run leaves the chunk's file half written. */
  ghost predicate LeftShort(hash: Hasher, w: World, later: seq<Action>, id: string, i: nat) {
    exists t: nat :: LastLeftShort(hash, w, later, id, i, t)
  }

  ghost predicate NeverWritten(hash: Hasher, w: World, later: seq<Action>, id: string, i: nat) {
    forall t: nat :: t < |later| ==> !ShortAt(hash, w, later, id, i, t) && !WholeAt(hash, w, later, id, i, t)
  }

  lemma AtPrefix(hash: Hasher, w: World, later: seq<Action>, id: string, i: nat, t: nat)
    requires t + 1 < |later|
    ensures var before := later[..|later| - 1];
      && (ShortAt(hash, w, later, id, i, t) <==> ShortAt(hash, w, before, id, i, t))
      && (WholeAt(hash, w, later, id, i, t) <==> WholeAt(hash, w, before, id, i, t))
  {
    assert later[..|later| - 1][..t] == later[..t];
  }

  lemma LastLeftShortPrefix(hash: Hasher, w: World, later: seq<Action>, id: string, i: nat, t: nat)
    requires t + 1 < |later|
    ensures var last := |later| - 1;
      LastLeftShort(hash, w, later, id, i, t) <==>
        LastLeftShort(hash, w, later[..last], id, i, t) && !WholeAt(hash, w, later, id, i, last)
  {
    var last := |later| - 1;
    AtPrefix(hash, w, later, id, i, t);
    forall s: nat | t < s < last
      ensures WholeAt(hash, w, later, id, i, s) <==> WholeAt(hash, w, later[..last], id, i, s)
    {
      AtPrefix(hash, w, later, id, i, s);
    }
  }

  lemma LeftShortStep(hash: Hasher, w: World, later: seq<Action>, id: string, i: nat)
    requires later != []
    ensures var last := |later| - 1;
      LeftShort(hash, w, later, id, i) <==>
        || ShortAt(hash, w, later, id, i, last)
        || (LeftShort(hash, w, later[..last], id, i) && !WholeAt(hash, w, later, id, i, last))
  {
    var last := |later| - 1;
    forall t: nat | t < last
      ensures LastLeftShort(hash, w, later, id, i, t) <==>
        LastLeftShort(hash, w, later[..last], id, i, t) && !WholeAt(hash, w, later, id, i, last)
    {
      LastLeftShortPrefix(hash, w, later, id, i, t);
    }
    assert LastLeftShort(hash, w, later, id, i, last) <==> ShortAt(hash, w, later, id, i, last);
  }

  /** A good file is good at the end of a run exactly when the run does not leave
    * it half written, whichever processes had the directory. */
  lemma {:induction false} GoodUnlessLeftShort(hash: Hasher, w: World, later: seq<Action>, id: string, i: nat)
    requires Inv(hash, w) && ProfileOf(w, id).Some? && GoodIn(hash, w, id, i)
    ensures GoodIn(hash, Run(hash, w, later), id, i) <==> !LeftShort(hash, w, later, id, i)
    decreases |later|
  {
    if later != [] {
      var last := |later| - 1;
      var before := Run(hash, w, later[..last]);
      GoodUnlessLeftShort(hash, w, later[..last], id, i);
      LeftShortStep(hash, w, later, id, i);
      RunKeeps(hash, w, later[..last]);
      assert LaterAt(w, before, id);
      DirectoryStep(hash, before, later[last], id, i);
    }
  }

  /** It is good at every moment exactly when no write of it is ever seen half done. */
  lemma {:induction false} AlwaysGoodUnlessShort(hash: Hasher, w: World, later: seq<Action>, id: string, i: nat)
    requires Inv(hash, w) && ProfileOf(w, id).Some? && GoodIn(hash, w, id, i)
    ensures (forall t: nat :: t <= |later| ==> GoodIn(hash, Run(hash, w, later[..t]), id, i)) <==>
      (forall t: nat :: t < |later| ==> !ShortAt(hash, w, later, id, i, t))
  {
    forall t: nat | t <= |later|
      ensures GoodIn(hash, Run(hash, w, later[..t]), id, i) <==> !LeftShort(hash, w, later[..t], id, i)
    {
      GoodUnlessLeftShort(hash, w, later[..t], id, i);
    }
    forall t: nat | t < |later| && ShortAt(hash, w, later, id, i, t)
      ensures LeftShort(hash, w, later[..t + 1], id, i)
    {
      ShortIsLeft(hash, w, later, id, i, t);
    }
    forall t: nat | t <= |later| && LeftShort(hash, w, later[..t], id, i)
      ensures exists s: nat :: s < |later| && ShortAt(hash, w, later, id, i, s)
    {
      LeftIsShort(hash, w, later, id, i, t);
    }
  }

  lemma ShortIsLeft(hash: Hasher, w: World, later: seq<Action>, id: string, i: nat, t: nat)
    requires t < |later| && ShortAt(hash, w, later, id, i, t)
    ensures LeftShort(hash, w, later[..t + 1], id, i)
  {
    assert later[..t + 1][..t] == later[..t];
    assert LastLeftShort(hash, w, later[..t + 1], id, i, t);
  }

  lemma LeftIsShort(hash: Hasher, w: World, later: seq<Action>, id: string, i: nat, t: nat)
    requires t <= |later| && LeftShort(hash, w, later[..t], id, i)
    ensures exists s: nat :: s < |later| && ShortAt(hash, w, later, id, i, s)
  {
    var s: nat :| LastLeftShort(hash, w, later[..t], id, i, s);
    assert later[..t][..s] == later[..s];
    assert ShortAt(hash, w, later, id, i, s);
  }

  /** Nothing but a write changes a file. */
  lemma {:induction false} UnwrittenStays(hash: Hasher, w: World, later: seq<Action>, id: string, i: nat)
    requires Inv(hash, w) && ProfileOf(w, id).Some? && NeverWritten(hash, w, later, id, i)
    ensures FileOf(Run(hash, w, later), id, i) == FileOf(w, id, i)
    decreases |later|
  {
    if later != [] {
      var last := |later| - 1;
      var before := Run(hash, w, later[..last]);
      forall t: nat | t < last
        ensures !ShortAt(hash, w, later[..last], id, i, t) && !WholeAt(hash, w, later[..last], id, i, t)
      {
        AtPrefix(hash, w, later, id, i, t);
      }
      UnwrittenStays(hash, w, later[..last], id, i);
      RunKeeps(hash, w, later[..last]);
      assert LaterAt(w, before, id);
      DirectoryStep(hash, before, later[last], id, i);
      assert !ShortAt(hash, w, later, id, i, last) && !WholeAt(hash, w, later, id, i, last);
    }
  }
}
