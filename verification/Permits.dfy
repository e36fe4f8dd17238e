/** How a round puts its permits to use. */
module Permits {
  import opened Sequences
  import opened Bitmaps
  import opened Manifests
  import opened Downloaders
  import opened NodeSteps

  /** While chunks wait and permits are free, the next task starts, and it is that of
    * the chunk at the head; without a free permit it does not. */
  lemma StartTaskStarts(hash: Hasher, m: Manifest, n: Node)
    requires NodeOk(hash, m, n) && n.alive && n.queue != []
    ensures var next := LocalStep(hash, m, n, StartTask);
      && n.queue[0] !in n.tasks
      && (|n.tasks.Keys| < n.concurrency ==>
            && next == n.(queue := n.queue[1..], tasks := n.tasks[n.queue[0] := Fetching])
            && |next.tasks.Keys| == |n.tasks.Keys| + 1)
      && (|n.tasks.Keys| >= n.concurrency ==> next == n)
  {
    NextTaskKeeps(hash, m, n);
    assert Open(n.bitmap, n.queue[0]);
    OneMoreTask(n.tasks, n.queue[0]);
  }

  function AllFetching(chunks: seq<nat>): map<nat, Task> {
    map c | c in chunks :: Fetching
  }

  /** A round of which the first `j` tasks have started. */
  function Started(n: Node, targets: seq<nat>, j: nat): Node
    requires j <= |targets|
  {
    n.(queue := targets[j..], tasks := AllFetching(targets[..j]))
  }

  lemma StartedKeys(n: Node, targets: seq<nat>, j: nat)
    requires j <= |targets| && NoDuplicates(targets)
    ensures Started(n, targets, j).tasks.Keys == Elements(targets[..j])
    ensures |Started(n, targets, j).tasks.Keys| == j
  {
    ElementsSize(targets[..j]);
  }

  /** The targets of a round at its start. */
  ghost predicate AreTargets(n: Node, targets: seq<nat>) {
    && n.alive && Whole(n.bitmap) && NoDuplicates(targets)
    && forall c :: c in targets ==> Open(n.bitmap, c)
  }

  function Limit(n: Node, targets: seq<nat>): nat {
    Min(n.concurrency, |targets|)
  }

  lemma OneMoreStarted(targets: seq<nat>, j: nat)
    requires j < |targets|
    ensures AllFetching(targets[..j])[targets[j] := Fetching] == AllFetching(targets[..j + 1])
    ensures targets[j..][0] == targets[j] && targets[j..][1..] == targets[j + 1..]
  {
    assert targets[..j + 1] == targets[..j] + [targets[j]];
  }

  /** The round's next task starts if there is a permit for it. */
  lemma StartedStep(hash: Hasher, m: Manifest, n: Node, targets: seq<nat>, j: nat)
    requires AreTargets(n, targets) && j <= Limit(n, targets)
    ensures LocalStep(hash, m, Started(n, targets, j), StartTask) ==
      Started(n, targets, Min(j + 1, Limit(n, targets)))
  {
    StartedKeys(n, targets, j);
    if j < |targets| {
      assert targets[j] in targets;
      OneMoreStarted(targets, j);
    }
  }

  lemma {:induction false} FirstOfMany(hash: Hasher, m: Manifest, n: Node, k: nat)
    requires k > 0
    ensures LocalSteps(hash, m, n, Repeat(StartTask, k)) ==
      LocalSteps(hash, m, LocalStep(hash, m, n, StartTask), Repeat(StartTask, k - 1))
  {
    assert Repeat(StartTask, k)[1..] == Repeat(StartTask, k - 1);
  }

  lemma {:induction false} StartedSteps(hash: Hasher, m: Manifest, n: Node, targets: seq<nat>, j: nat, k: nat)
    requires AreTargets(n, targets) && j <= Limit(n, targets)
    ensures LocalSteps(hash, m, Started(n, targets, j), Repeat(StartTask, k)) ==
      Started(n, targets, Min(j + k, Limit(n, targets)))
    decreases k
  {
    if k > 0 {
      FirstOfMany(hash, m, Started(n, targets, j), k);
      StartedStep(hash, m, n, targets, j);
      StartedSteps(hash, m, n, targets, Min(j + 1, Limit(n, targets)), k - 1);
    }
  }

  lemma RoundBegins(hash: Hasher, m: Manifest, n: Node)
    requires NodeOk(hash, m, n) && n.alive && n.queue == [] && n.tasks == map[] && !Full(n.bitmap)
    ensures var targets := Targets(n.bitmap, n.concurrency);
      && AreTargets(n, targets) && |targets| == Min(2 * n.concurrency, |MissingIn(n.bitmap)|)
      && targets <= MissingIn(n.bitmap)
      && LocalStep(hash, m, n, StartRound) == Started(n, targets, 0)
  {
    var targets := Targets(n.bitmap, n.concurrency);
    TargetsFit(m, n.bitmap, n.concurrency);
    forall c | c in targets ensures Open(n.bitmap, c) {
      var t :| 0 <= t < |targets| && targets[t] == c;
    }
    assert targets[..0] == [] && targets[0..] == targets;
  }

  lemma PrefixOfPrefix(a: seq<nat>, b: seq<nat>, k: nat)
    requires a <= b && k <= |a|
    ensures a[..k] == b[..k]
  {
  }

  /** From the start of a round, `k` tries to start a task leave as many running, up
    * to the permits and the missing chunks: those of the first missing chunks. */
  lemma {:induction false} PermitsAreUsed(hash: Hasher, m: Manifest, n: Node, k: nat)
    requires NodeOk(hash, m, n) && n.alive && n.queue == [] && n.tasks == map[] && !Full(n.bitmap)
    ensures var after := LocalSteps(hash, m, LocalStep(hash, m, n, StartRound), Repeat(StartTask, k));
      var running := Min(k, Min(n.concurrency, |MissingIn(n.bitmap)|));
      && |after.tasks.Keys| == running
      && after.tasks.Keys == Elements(MissingIn(n.bitmap)[..running])
      && (forall c :: c in after.tasks ==> after.tasks[c] == Fetching)
      && after.bitmap == n.bitmap && after.disk == n.disk
  {
    var targets := Targets(n.bitmap, n.concurrency);
    RoundBegins(hash, m, n);
    StartedSteps(hash, m, n, targets, 0, k);
    StartedKeys(n, targets, Min(k, Limit(n, targets)));
    PrefixOfPrefix(targets, MissingIn(n.bitmap), Min(k, Limit(n, targets)));
  }
}
