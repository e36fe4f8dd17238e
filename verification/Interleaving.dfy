/** Tasks of one node run at the same time. Chunk by chunk, every interleaving
  * comes to what the same task does alone. */
module Interleavings {
  import opened Wrappers
  import opened Wire
  import opened Bytes
  import opened Sequences
  import opened Bitmaps
  import opened Manifests
  import opened ChunkStores
  import opened Nodes
  import opened Downloaders
  import opened NodeSteps

  /** Steps of the task of chunk `i`. */
  predicate Concerns(a: LocalAction, i: nat) {
    match a
    case Receive(chunk, _) => chunk == i
    case WritePart(chunk, _) => chunk == i
    case FinishWrite(chunk) => chunk == i
    case FailWrite(chunk) => chunk == i
    case Mark(chunk) => chunk == i
    case GiveUp(chunk) => chunk == i
    case _ => false
  }

  function Project(actions: seq<LocalAction>, i: nat): seq<LocalAction> {
    if actions == [] then []
    else (if Concerns(actions[0], i) then [actions[0]] else []) + Project(actions[1..], i)
  }

  /** The node keeps running; and either no new round begins, or the chunk is not
    * given up. */
  predicate KeepsAt(a: LocalAction, i: nat, oneRound: bool) {
    !a.Crash? && if oneRound then !a.StartRound? else a != GiveUp(i)
  }

  predicate AllKeepAt(actions: seq<LocalAction>, i: nat, oneRound: bool) {
    forall t :: 0 <= t < |actions| ==> KeepsAt(actions[t], i, oneRound)
  }

  function TaskAt(n: Node, i: nat): Option<Task> {
    if i in n.tasks then Some(n.tasks[i]) else None
  }

  /** The two nodes cannot be told apart by chunk `i`, which does not wait in the
    * queue; over more than one round, it is being fetched or marked. */
  ghost predicate SameAt(fileId: string, n: Node, k: Node, i: nat, oneRound: bool) {
    && n.alive && k.alive && Whole(n.bitmap) && Whole(k.bitmap)
    && i < n.bitmap.chunkCount && i < k.bitmap.chunkCount
    && (if oneRound then i !in n.queue else i in n.tasks || n.bitmap.bits[i])
    && TaskAt(n, i) == TaskAt(k, i)
    && n.bitmap.bits[i] == k.bitmap.bits[i]
    && Stored(n.disk, fileId, i) == Stored(k.disk, fileId, i)
  }

  lemma OtherTasks(hash: Hasher, m: Manifest, n: Node, a: LocalAction, i: nat, oneRound: bool)
    requires NodeOk(hash, m, n) && SameAt(m.fileId, n, n, i, oneRound)
    requires KeepsAt(a, i, oneRound) && !Concerns(a, i)
    ensures SameAt(m.fileId, LocalStep(hash, m, n, a), n, i, oneRound)
  {
    match a
    case StartTask => NextTaskElsewhere(hash, m, n, i, oneRound);
    case WritePart(chunk, kept) => OtherWrites(hash, m, n, a, i, oneRound);
    case FinishWrite(chunk) => OtherWrites(hash, m, n, a, i, oneRound);
    case Mark(chunk) => OtherMarks(hash, m, n, chunk, i, oneRound);
    case _ =>
  }

  lemma OtherWrites(hash: Hasher, m: Manifest, n: Node, a: LocalAction, i: nat, oneRound: bool)
    requires SameAt(m.fileId, n, n, i, oneRound) && (a.WritePart? || a.FinishWrite?) && a.chunk != i
    ensures SameAt(m.fileId, LocalStep(hash, m, n, a), n, i, oneRound)
  {
    if Writes(n, a.chunk) {
      OtherFiles(n.disk, m.fileId, a.chunk, n.tasks[a.chunk].data, if a.WritePart? then Torn(a.kept) else Done, i);
    }
  }

  lemma OtherMarks(hash: Hasher, m: Manifest, n: Node, chunk: nat, i: nat, oneRound: bool)
    requires SameAt(m.fileId, n, n, i, oneRound) && chunk != i
    ensures SameAt(m.fileId, LocalStep(hash, m, n, Mark(chunk)), n, i, oneRound)
  {
    MarkedEffect(n.bitmap, chunk);
  }

  lemma NextTaskElsewhere(hash: Hasher, m: Manifest, n: Node, i: nat, oneRound: bool)
    requires NodeOk(hash, m, n) && SameAt(m.fileId, n, n, i, oneRound)
    ensures SameAt(m.fileId, NextTask(n), n, i, oneRound)
  {
    if n.queue != [] {
      assert n.queue[0] in n.queue;
      assert Open(n.bitmap, n.queue[0]) && n.queue[0] != i;
      assert forall c :: c in n.queue[1..] ==> c in n.queue;
    }
  }

  lemma OwnTask(hash: Hasher, m: Manifest, n: Node, k: Node, a: LocalAction, i: nat, oneRound: bool)
    requires SameAt(m.fileId, n, k, i, oneRound) && Concerns(a, i) && KeepsAt(a, i, oneRound)
    ensures SameAt(m.fileId, LocalStep(hash, m, n, a), LocalStep(hash, m, k, a), i, oneRound)
  {
    if a.Mark? {
      OwnMark(hash, m, n, k, i, oneRound);
    }
  }

  lemma OwnMark(hash: Hasher, m: Manifest, n: Node, k: Node, i: nat, oneRound: bool)
    requires SameAt(m.fileId, n, k, i, oneRound)
    ensures SameAt(m.fileId, LocalStep(hash, m, n, Mark(i)), LocalStep(hash, m, k, Mark(i)), i, oneRound)
  {
    MarkedEffect(n.bitmap, i);
    MarkedEffect(k.bitmap, i);
  }

  /** What becomes of a chunk depends only on the steps of its own task. */
  lemma {:induction false} OwnStepsDecide(hash: Hasher, m: Manifest, n: Node, k: Node,
                                          actions: seq<LocalAction>, i: nat, oneRound: bool)
    requires NodeOk(hash, m, n) && SameAt(m.fileId, n, k, i, oneRound) && AllKeepAt(actions, i, oneRound)
    ensures SameAt(m.fileId, LocalSteps(hash, m, n, actions), LocalSteps(hash, m, k, Project(actions, i)), i, oneRound)
    decreases |actions|
  {
    if actions != [] {
      var a, rest := actions[0], actions[1..];
      LocalStepKeeps(hash, m, n, a);
      var next := LocalStep(hash, m, n, a);
      if Concerns(a, i) {
        OwnTask(hash, m, n, k, a, i, oneRound);
        OwnStepsDecide(hash, m, next, LocalStep(hash, m, k, a), rest, i, oneRound);
        assert ([a] + Project(rest, i))[1..] == Project(rest, i);
      } else {
        OtherTasks(hash, m, n, a, i, oneRound);
        OwnStepsDecide(hash, m, next, k, rest, i, oneRound);
        assert [] + Project(rest, i) == Project(rest, i);
      }
    }
  }

  // ----- a whole task

  lemma {:induction false} StepsKeep(hash: Hasher, m: Manifest, n: Node, actions: seq<LocalAction>)
    requires NodeOk(hash, m, n)
    ensures NodeOk(hash, m, LocalSteps(hash, m, n, actions))
    decreases |actions|
  {
    if actions != [] {
      LocalStepKeeps(hash, m, n, actions[0]);
      StepsKeep(hash, m, LocalStep(hash, m, n, actions[0]), actions[1..]);
    }
  }

  /** Without a task, its steps do nothing. */
  lemma {:induction false} NoTaskNoSteps(hash: Hasher, m: Manifest, n: Node, i: nat, actions: seq<LocalAction>)
    requires i !in n.tasks
    requires forall t :: 0 <= t < |actions| ==> Concerns(actions[t], i)
    ensures LocalSteps(hash, m, n, actions) == n
    decreases |actions|
  {
    if actions != [] {
      assert LocalStep(hash, m, n, actions[0]) == n;
      NoTaskNoSteps(hash, m, n, i, actions[1..]);
    }
  }

  /** The steps of a task that makes these fetches one after another. It ends with
    * the first one that wins, or else with `end`. */
  ghost predicate IsTrace(hash: Hasher, m: Manifest, i: nat, fetches: seq<Fetch>, end: seq<LocalAction>,
                          steps: seq<LocalAction>)
    requires i < |m.chunkHashes|
    decreases |fetches|
  {
    if fetches == [] then steps == end
    else exists k: nat :: BeginsWith(hash, m, i, fetches, end, steps, k)
  }

  ghost predicate BeginsWith(hash: Hasher, m: Manifest, i: nat, fetches: seq<Fetch>, end: seq<LocalAction>,
                             steps: seq<LocalAction>, k: nat)
    requires i < |m.chunkHashes| && fetches != []
    decreases |fetches|, 0
  {
    && k <= |steps| && IsFetch(hash, m, i, fetches[0], steps[..k])
    && if Wins(hash, m, i, fetches[0]) then k == |steps|
       else IsTrace(hash, m, i, fetches[1..], end, steps[k..])
  }

  lemma {:induction false} TraceAlone(hash: Hasher, m: Manifest, n: Node, i: nat, fetches: seq<Fetch>,
                                      end: seq<LocalAction>, steps: seq<LocalAction>)
    requires NodeOk(hash, m, n) && n.alive && Fetches(n, i) && i < |m.chunkHashes|
    requires end == [] || end == [GiveUp(i)]
    requires IsTrace(hash, m, i, fetches, end, steps)
    ensures var after, won := LocalSteps(hash, m, n, steps), AttemptWins(hash, m, i, Peers(fetches));
      && after.bitmap == (if won then Marked(n.bitmap, i) else n.bitmap)
      && (i in after.tasks <==> !won && end == [])
    decreases |fetches|
  {
    if fetches == [] {
      EndAlone(hash, m, n, i, end);
    } else {
      var k: nat :| BeginsWith(hash, m, i, fetches, end, steps, k);
      var next := LocalSteps(hash, m, n, steps[..k]);
      FetchIsSteps(hash, m, n, i, fetches[0], steps[..k]);
      assert steps == steps[..k] + steps[k..];
      StepsInTwo(hash, m, n, steps[..k], steps[k..]);
      WinsStep(hash, m, i, fetches);
      if Wins(hash, m, i, fetches[0]) {
        assert steps[k..] == [];
      } else {
        StepsKeep(hash, m, n, steps[..k]);
        TraceAlone(hash, m, next, i, fetches[1..], end, steps[k..]);
      }
    }
  }

  lemma {:induction false} EndAlone(hash: Hasher, m: Manifest, n: Node, i: nat, end: seq<LocalAction>)
    requires n.alive && Fetches(n, i) && (end == [] || end == [GiveUp(i)])
    ensures LocalSteps(hash, m, n, end) == if end == [] then n else n.(tasks := n.tasks - {i})
  {
    assert [GiveUp(i)][1..] == [];
    assert LocalSteps(hash, m, n, [GiveUp(i)]) == LocalSteps(hash, m, LocalStep(hash, m, n, GiveUp(i)), []);
  }

  lemma WinsStep(hash: Hasher, m: Manifest, i: nat, fetches: seq<Fetch>)
    requires i < |m.chunkHashes| && fetches != []
    ensures AttemptWins(hash, m, i, Peers(fetches)) <==>
      Wins(hash, m, i, fetches[0]) || AttemptWins(hash, m, i, Peers(fetches[1..]))
  {
    var rest := fetches[1..];
    assert forall p :: 0 < p < |fetches| ==> fetches[p] == rest[p - 1];
    if p :| 0 <= p < |rest| && Wins(hash, m, i, rest[p]) {
      assert Wins(hash, m, i, fetches[p + 1]);
    }
  }

  /** So a chunk is marked exactly when one of its task's fetches wins, as the
    * download loop computes it, whatever the other tasks do in between. */
  lemma {:induction false} TaskInAnyInterleaving(hash: Hasher, m: Manifest, n: Node, actions: seq<LocalAction>,
                                                 i: nat, fetches: seq<Fetch>)
    requires NodeOk(hash, m, n) && n.alive && Fetches(n, i) && i < |m.chunkHashes|
    requires IsTrace(hash, m, i, fetches, [], Project(actions, i))
    requires AllKeepAt(actions, i, false)
    ensures var after, won := LocalSteps(hash, m, n, actions), AttemptWins(hash, m, i, Peers(fetches));
      && i < |after.bitmap.bits|
      && (after.bitmap.bits[i] <==> won)
      && (i in after.tasks <==> !won)
      && (won ==> StoredGood(hash, m, after.disk, i))
  {
    assert Open(n.bitmap, i);
    OwnStepsDecide(hash, m, n, n, actions, i, false);
    TraceAlone(hash, m, n, i, fetches, [], Project(actions, i));
    MarkedEffect(n.bitmap, i);
    StepsKeep(hash, m, n, actions);
  }

  // ----- a whole round

  /** The fetches of a task in the order it makes them, attempt after attempt. */
  function FetchesOf(task: seq<Attempt>): seq<Fetch> {
    if task == [] then []
    else (if task[0].Peers? then task[0].fetches else []) + FetchesOf(task[1..])
  }

  lemma {:induction false} TaskWinsByFetch(hash: Hasher, m: Manifest, i: nat, task: seq<Attempt>)
    requires i < |m.chunkHashes|
    ensures TaskWins(hash, m, i, task) <==> AttemptWins(hash, m, i, Peers(FetchesOf(task)))
    decreases |task|
  {
    if task != [] {
      var first := if task[0].Peers? then task[0].fetches else [];
      TaskWinsByFetch(hash, m, i, task[1..]);
      WinsEither(hash, m, i, first, FetchesOf(task[1..]));
      TaskWinsStep(hash, m, i, task);
    }
  }

  lemma TaskWinsStep(hash: Hasher, m: Manifest, i: nat, task: seq<Attempt>)
    requires i < |m.chunkHashes| && task != []
    ensures TaskWins(hash, m, i, task) <==> AttemptWins(hash, m, i, task[0]) || TaskWins(hash, m, i, task[1..])
  {
    if a :| 0 <= a < |task[1..]| && AttemptWins(hash, m, i, task[1..][a]) {
      assert AttemptWins(hash, m, i, task[a + 1]);
    }
    if a :| 0 < a < |task| && AttemptWins(hash, m, i, task[a]) {
      assert AttemptWins(hash, m, i, task[1..][a - 1]);
    }
  }

  lemma WinsEither(hash: Hasher, m: Manifest, i: nat, a: seq<Fetch>, b: seq<Fetch>)
    requires i < |m.chunkHashes|
    ensures AttemptWins(hash, m, i, Peers(a + b)) <==>
      AttemptWins(hash, m, i, Peers(a)) || AttemptWins(hash, m, i, Peers(b))
  {
    var all := a + b;
    if p :| 0 <= p < |a| && Wins(hash, m, i, a[p]) {
      assert Wins(hash, m, i, all[p]);
    }
    if p :| 0 <= p < |b| && Wins(hash, m, i, b[p]) {
      assert Wins(hash, m, i, all[|a| + p]);
    }
    if p :| 0 <= p < |all| && Wins(hash, m, i, all[p]) {
      assert if p < |a| then Wins(hash, m, i, a[p]) else Wins(hash, m, i, b[p - |a|]);
    }
  }

  /** No step of the chunk's task comes while the chunk waits in the queue. */
  ghost predicate WaitsItsTurn(hash: Hasher, m: Manifest, n: Node, actions: seq<LocalAction>, i: nat) {
    forall t :: 0 <= t < |actions| && Concerns(actions[t], i) ==>
      i !in LocalSteps(hash, m, n, actions[..t]).queue
  }

  lemma TurnStep(hash: Hasher, m: Manifest, n: Node, actions: seq<LocalAction>, i: nat)
    requires actions != [] && WaitsItsTurn(hash, m, n, actions, i)
    ensures Concerns(actions[0], i) ==> i !in n.queue
    ensures WaitsItsTurn(hash, m, LocalStep(hash, m, n, actions[0]), actions[1..], i)
  {
    assert actions[..0] == [];
    var rest := actions[1..];
    forall t | 0 <= t < |rest| && Concerns(rest[t], i)
      ensures i !in LocalSteps(hash, m, LocalStep(hash, m, n, actions[0]), rest[..t]).queue
    {
      assert actions[..t + 1][1..] == rest[..t];
      assert Concerns(actions[t + 1], i);
    }
  }

  /** A waiting chunk waits on, or its task starts. */
  lemma WaitsOrStarts(hash: Hasher, m: Manifest, n: Node, a: LocalAction, i: nat)
    requires NodeOk(hash, m, n) && n.alive && i in n.queue && KeepsAt(a, i, true)
    ensures var next := LocalStep(hash, m, n, a);
      next.alive && (i in next.queue || (i !in next.queue && Fetches(next, i)))
  {
    if a.StartTask? {
      var c, rest := n.queue[0], n.queue[1..];
      assert n.queue == [c] + rest;
      assert Open(n.bitmap, c);
    }
  }

  /** A waiting chunk, by the time it no longer waits and its task is over, is
    * marked exactly when a fetch won. */
  lemma {:induction false} TargetOutcome(hash: Hasher, m: Manifest, n: Node, actions: seq<LocalAction>,
                                         i: nat, fetches: seq<Fetch>)
    requires NodeOk(hash, m, n) && n.alive && i in n.queue && i < |m.chunkHashes|
    requires AllKeepAt(actions, i, true) && WaitsItsTurn(hash, m, n, actions, i)
    requires IsTrace(hash, m, i, fetches, [GiveUp(i)], Project(actions, i))
    requires i !in LocalSteps(hash, m, n, actions).queue
    ensures var after := LocalSteps(hash, m, n, actions);
      && i < |after.bitmap.bits| && i !in after.tasks
      && (after.bitmap.bits[i] <==> AttemptWins(hash, m, i, Peers(fetches)))
    decreases |actions|
  {
    var a, rest := actions[0], actions[1..];
    var next := LocalStep(hash, m, n, a);
    TurnStep(hash, m, n, actions, i);
    assert [] + Project(rest, i) == Project(rest, i);
    WaitsOrStarts(hash, m, n, a, i);
    LocalStepKeeps(hash, m, n, a);
    if i in next.queue {
      TargetOutcome(hash, m, next, rest, i, fetches);
    } else {
      assert Open(next.bitmap, i);
      OwnStepsDecide(hash, m, next, next, rest, i, true);
      TraceAlone(hash, m, next, i, fetches, [GiveUp(i)], Project(rest, i));
      MarkedEffect(next.bitmap, i);
    }
  }

  lemma {:induction false} ProjectConcerns(actions: seq<LocalAction>, i: nat)
    ensures forall t :: 0 <= t < |Project(actions, i)| ==> Concerns(Project(actions, i)[t], i)
    decreases |actions|
  {
    if actions != [] {
      ProjectConcerns(actions[1..], i);
    }
  }

  /** A chunk that is neither waiting nor fetched is left alone. */
  lemma {:induction false} BystanderOutcome(hash: Hasher, m: Manifest, n: Node, actions: seq<LocalAction>, i: nat)
    requires NodeOk(hash, m, n) && n.alive && i !in n.queue && i !in n.tasks && i < n.bitmap.chunkCount
    requires AllKeepAt(actions, i, true)
    ensures var after := LocalSteps(hash, m, n, actions);
      && i < |after.bitmap.bits| && i !in after.tasks
      && (after.bitmap.bits[i] <==> n.bitmap.bits[i])
  {
    OwnStepsDecide(hash, m, n, n, actions, i, true);
    ProjectConcerns(actions, i);
    NoTaskNoSteps(hash, m, n, i, Project(actions, i));
  }

  /** A concurrent execution of a round: tasks start in turn, each makes the
    * steps its fetches give, and in the end none waits. */
  ghost predicate Executes(hash: Hasher, m: Manifest, begun: Node, actions: seq<LocalAction>, round: Round)
    requires Indices(m, begun.queue)
  {
    && (forall t :: 0 <= t < |actions| ==> !actions[t].Crash? && !actions[t].StartRound?)
    && (forall i :: i in begun.queue ==>
          && WaitsItsTurn(hash, m, begun, actions, i)
          && IsTrace(hash, m, i, FetchesOf(round(i)), [GiveUp(i)], Project(actions, i)))
    && LocalSteps(hash, m, begun, actions).queue == []
  }

  lemma {:induction false} ChunkOutcome(hash: Hasher, m: Manifest, begun: Node, actions: seq<LocalAction>,
                                        round: Round, i: nat)
    requires NodeOk(hash, m, begun) && begun.alive && begun.tasks == map[] && Indices(m, begun.queue)
    requires Executes(hash, m, begun, actions, round) && i < begun.bitmap.chunkCount
    ensures var after := LocalSteps(hash, m, begun, actions);
      && i < |after.bitmap.bits| && i < |m.chunkHashes| && i !in after.tasks
      && (after.bitmap.bits[i] <==>
            begun.bitmap.bits[i] || (i in begun.queue && TaskWins(hash, m, i, round(i))))
  {
    if i in begun.queue {
      assert Open(begun.bitmap, i);
      TargetOutcome(hash, m, begun, actions, i, FetchesOf(round(i)));
      TaskWinsByFetch(hash, m, i, round(i));
    } else {
      BystanderOutcome(hash, m, begun, actions, i);
    }
  }

  lemma SameBitmap(a: Bitmap, b: Bitmap)
    requires Whole(a) && Whole(b) && a.chunkCount == b.chunkCount
    requires forall i :: 0 <= i < a.chunkCount ==> a.bits[i] == b.bits[i]
    ensures a == b
  {
    assert a.bits == b.bits;
  }

  /** What the marks of a round are. */
  lemma RoundBits(hash: Hasher, m: Manifest, b: Bitmap, concurrency: nat, round: Round, i: nat)
    requires Fits(m, b) && i < b.chunkCount
    ensures Whole(AfterRound(hash, m, b, concurrency, round))
    ensures AfterRound(hash, m, b, concurrency, round).chunkCount == b.chunkCount
    ensures AfterRound(hash, m, b, concurrency, round).bits[i] <==>
      b.bits[i] || (i in Targets(b, concurrency) && TaskWins(hash, m, i, round(i)))
  {
    RoundProgress(hash, m, b, concurrency, round);
    var after := AfterRound(hash, m, b, concurrency, round);
    assert after.bits[i] <==> i in Held(after);
    assert b.bits[i] <==> i in Held(b);
  }

  /** Given what happens to each fetch of the round: however its tasks interleave,
    * it ends with the bitmap the download loop computes, and with every task over. */
  lemma {:induction false} RoundFollowsFetches(hash: Hasher, m: Manifest, n: Node, actions: seq<LocalAction>,
                                               round: Round)
    requires NodeOk(hash, m, n) && n.alive && n.queue == [] && n.tasks == map[] && !Full(n.bitmap)
    requires Indices(m, LocalStep(hash, m, n, StartRound).queue)
    requires Executes(hash, m, LocalStep(hash, m, n, StartRound), actions, round)
    ensures var after := LocalSteps(hash, m, LocalStep(hash, m, n, StartRound), actions);
      && after.bitmap == AfterRound(hash, m, n.bitmap, n.concurrency, round)
      && after.queue == [] && after.tasks == map[]
      && NodeOk(hash, m, after)
  {
    var begun := LocalStep(hash, m, n, StartRound);
    var after := LocalSteps(hash, m, begun, actions);
    var expected := AfterRound(hash, m, n.bitmap, n.concurrency, round);
    LocalStepKeeps(hash, m, n, StartRound);
    StepsKeep(hash, m, begun, actions);
    RoundProgress(hash, m, n.bitmap, n.concurrency, round);
    forall i | 0 <= i < n.bitmap.chunkCount
      ensures i !in after.tasks && i < |after.bitmap.bits| && after.bitmap.bits[i] == expected.bits[i]
    {
      ChunkOutcome(hash, m, begun, actions, round, i);
      RoundBits(hash, m, n.bitmap, n.concurrency, round, i);
    }
    SameBitmap(after.bitmap, expected);
    NoTasks(hash, m, after);
  }

  lemma NoTasks(hash: Hasher, m: Manifest, n: Node)
    requires NodeOk(hash, m, n) && forall i: nat :: i < n.bitmap.chunkCount ==> i !in n.tasks
    ensures n.tasks == map[]
  {
    forall i ensures i !in n.tasks {
      assert i in n.tasks ==> Open(n.bitmap, i);
    }
  }

  // ----- with nothing given

  /** A task that wins with this file, or one that fails. */
  function TaskFor(file: Option<Bytes>): (task: seq<Attempt>)
    ensures IsTask(task)
  {
    if file.Some? && |file.value| < U64_LIMIT
    then [Peers([Answered(EncodeReply(file), Done)]), QueryFailed, QueryFailed]
    else [QueryFailed, QueryFailed, QueryFailed]
  }

  /** The tasks of the chunks that `after` has marked win, the others fail. */
  function AsRound(m: Manifest, after: Node): Round {
    (i: nat) => TaskFor(if At(after.bitmap.bits, i) then Stored(after.disk, m.fileId, i) else None)
  }

  lemma FailingTask(hash: Hasher, m: Manifest, i: nat)
    requires i < |m.chunkHashes|
    ensures !TaskWins(hash, m, i, TaskFor(None))
  {
  }

  lemma WinningTask(hash: Hasher, m: Manifest, i: nat, disk: Disk)
    requires SizesOk(m.totalSize, m.chunkSize) && StoredGood(hash, m, disk, i)
    ensures TaskWins(hash, m, i, TaskFor(Stored(disk, m.fileId, i)))
  {
    var data := Stored(disk, m.fileId, i).value;
    LengthFits(m, i);
    AcceptedIff(hash, m, i, EncodeReply(Some(data)), data);
    var task := TaskFor(Some(data));
    assert Wins(hash, m, i, task[0].fetches[0]);
    assert AttemptWins(hash, m, i, task[0]);
  }

  lemma AsRoundWins(hash: Hasher, m: Manifest, after: Node, i: nat)
    requires NodeOk(hash, m, after) && SizesOk(m.totalSize, m.chunkSize) && i < after.bitmap.chunkCount
    ensures i < |m.chunkHashes|
    ensures TaskWins(hash, m, i, AsRound(m, after)(i)) <==> after.bitmap.bits[i]
  {
    if after.bitmap.bits[i] {
      WinningTask(hash, m, i, after.disk);
    } else {
      FailingTask(hash, m, i);
    }
  }

  /** Marks never go. */
  lemma {:induction false} MarksStay(hash: Hasher, m: Manifest, n: Node, actions: seq<LocalAction>)
    requires NodeOk(hash, m, n)
    ensures Within(n.bitmap, LocalSteps(hash, m, n, actions).bitmap)
    decreases |actions|
  {
    if actions != [] {
      LocalStepKeeps(hash, m, n, actions[0]);
      MarksStay(hash, m, LocalStep(hash, m, n, actions[0]), actions[1..]);
      var next := LocalStep(hash, m, n, actions[0]);
      WithinTransitive(n.bitmap, next.bitmap, LocalSteps(hash, m, next, actions[1..]).bitmap);
    }
  }

  /** New marks are of the round's targets only. */
  lemma {:induction false} MarkedBits(hash: Hasher, m: Manifest, begun: Node, actions: seq<LocalAction>, i: nat)
    requires NodeOk(hash, m, begun) && begun.alive && begun.tasks == map[] && AllKeepAt(actions, i, true)
    requires i < begun.bitmap.chunkCount
    ensures var after := LocalSteps(hash, m, begun, actions);
      && i < |after.bitmap.bits|
      && (after.bitmap.bits[i] <==> begun.bitmap.bits[i] || (i in begun.queue && after.bitmap.bits[i]))
  {
    MarksStay(hash, m, begun, actions);
    if i !in begun.queue {
      BystanderOutcome(hash, m, begun, actions, i);
    }
  }

  /** Whatever the tasks of a round do, in whatever order, and however far they have
    * got: the bitmap is the one the download loop computes for the round in which
    * exactly the tasks of the chunks marked by then win. */
  lemma {:induction false} RoundInAnyInterleaving(hash: Hasher, m: Manifest, n: Node, actions: seq<LocalAction>)
    requires NodeOk(hash, m, n) && n.alive && n.queue == [] && n.tasks == map[] && !Full(n.bitmap)
    requires SizesOk(m.totalSize, m.chunkSize)
    requires forall t :: 0 <= t < |actions| ==> !actions[t].Crash? && !actions[t].StartRound?
    ensures var after := LocalSteps(hash, m, LocalStep(hash, m, n, StartRound), actions);
      && after.bitmap == AfterRound(hash, m, n.bitmap, n.concurrency, AsRound(m, after))
      && forall i :: i in Targets(n.bitmap, n.concurrency) ==>
           i < |m.chunkHashes| && i < |after.bitmap.bits|
           && (TaskWins(hash, m, i, AsRound(m, after)(i)) <==> after.bitmap.bits[i])
  {
    var begun := LocalStep(hash, m, n, StartRound);
    var after := LocalSteps(hash, m, begun, actions);
    var expected := AfterRound(hash, m, n.bitmap, n.concurrency, AsRound(m, after));
    LocalStepKeeps(hash, m, n, StartRound);
    StepsKeep(hash, m, begun, actions);
    RoundProgress(hash, m, n.bitmap, n.concurrency, AsRound(m, after));
    TargetsFit(m, n.bitmap, n.concurrency);
    forall i | 0 <= i < n.bitmap.chunkCount
      ensures i < |m.chunkHashes| && i < |after.bitmap.bits|
      ensures TaskWins(hash, m, i, AsRound(m, after)(i)) <==> after.bitmap.bits[i]
      ensures after.bitmap.bits[i] == expected.bits[i]
    {
      AsRoundWins(hash, m, after, i);
      MarkedBits(hash, m, begun, actions, i);
      RoundBits(hash, m, n.bitmap, n.concurrency, AsRound(m, after), i);
    }
    SameBitmap(after.bitmap, expected);
  }

  // ----- the loop's own order is one such execution

  /** The plainest steps of a fetch. */
  function StepsOf(hash: Hasher, m: Manifest, i: nat, f: Fetch): (steps: seq<LocalAction>)
    requires i < |m.chunkHashes|
  {
    match f
    case Unreachable => []
    case Answered(wire, write) =>
      if Accept(hash, m, i, wire).Failure? then [Receive(i, wire)] else
      match write
      case Done => [Receive(i, wire), FinishWrite(i), Mark(i)]
      case Torn(kept) => [Receive(i, wire), WritePart(i, kept), FailWrite(i)]
      case Refused => [Receive(i, wire), FailWrite(i)]
  }

  lemma LastTwo(x: LocalAction, y: LocalAction, z: LocalAction)
    ensures [x, y, z][1..] == [y, z] && [y, z][0..] == [y, z] && [y, z][..0] == []
  {
  }

  lemma StepsOfFetch(hash: Hasher, m: Manifest, i: nat, f: Fetch)
    requires i < |m.chunkHashes|
    ensures IsFetch(hash, m, i, f, StepsOf(hash, m, i, f))
  {
    if f.Answered? && Accept(hash, m, i, f.wire).Success? {
      match f.write
      case Done => LastTwo(Receive(i, f.wire), FinishWrite(i), Mark(i));
      case Torn(kept) => LastTwo(Receive(i, f.wire), WritePart(i, kept), FailWrite(i));
      case Refused => assert [Receive(i, f.wire), FailWrite(i)][1..] == [FailWrite(i)];
    }
  }

  lemma StepsConcern(hash: Hasher, m: Manifest, i: nat, f: Fetch)
    requires i < |m.chunkHashes|
    ensures AllConcernChunk(StepsOf(hash, m, i, f), i)
  {
  }

  /** The plainest steps of a task. */
  function OwnSteps(hash: Hasher, m: Manifest, i: nat, fetches: seq<Fetch>): seq<LocalAction>
    requires i < |m.chunkHashes|
  {
    if fetches == [] then [GiveUp(i)]
    else StepsOf(hash, m, i, fetches[0])
         + if Wins(hash, m, i, fetches[0]) then [] else OwnSteps(hash, m, i, fetches[1..])
  }

  lemma {:induction false} OwnTrace(hash: Hasher, m: Manifest, i: nat, fetches: seq<Fetch>)
    requires i < |m.chunkHashes|
    ensures IsTrace(hash, m, i, fetches, [GiveUp(i)], OwnSteps(hash, m, i, fetches))
    decreases |fetches|
  {
    if fetches != [] {
      var first, steps := StepsOf(hash, m, i, fetches[0]), OwnSteps(hash, m, i, fetches);
      StepsOfFetch(hash, m, i, fetches[0]);
      assert steps[..|first|] == first;
      if !Wins(hash, m, i, fetches[0]) {
        OwnTrace(hash, m, i, fetches[1..]);
        assert steps[|first|..] == OwnSteps(hash, m, i, fetches[1..]);
      }
      assert BeginsWith(hash, m, i, fetches, [GiveUp(i)], steps, |first|);
    }
  }

  /** The tasks one after another. */
  function InTurn(hash: Hasher, m: Manifest, idx: seq<nat>, round: Round): seq<LocalAction>
    requires Indices(m, idx)
  {
    if idx == [] then []
    else [StartTask] + OwnSteps(hash, m, idx[0], FetchesOf(round(idx[0]))) + InTurn(hash, m, idx[1..], round)
  }

  ghost predicate AllConcernChunk(actions: seq<LocalAction>, i: nat) {
    forall t :: 0 <= t < |actions| ==> Concerns(actions[t], i)
  }

  lemma {:induction false} OwnConcern(hash: Hasher, m: Manifest, i: nat, fetches: seq<Fetch>)
    requires i < |m.chunkHashes|
    ensures AllConcernChunk(OwnSteps(hash, m, i, fetches), i)
    decreases |fetches|
  {
    if fetches != [] {
      StepsConcern(hash, m, i, fetches[0]);
      OwnConcern(hash, m, i, fetches[1..]);
    }
  }

  lemma {:induction false} ProjectOwn(actions: seq<LocalAction>, i: nat, j: nat)
    requires AllConcernChunk(actions, i)
    ensures Project(actions, j) == if i == j then actions else []
    decreases |actions|
  {
    if actions != [] {
      assert actions == [actions[0]] + actions[1..];
      ProjectOwn(actions[1..], i, j);
    }
  }

  lemma {:induction false} ProjectBoth(a: seq<LocalAction>, b: seq<LocalAction>, i: nat)
    ensures Project(a + b, i) == Project(a, i) + Project(b, i)
    decreases |a|
  {
    if a == [] {
      assert a + b == b;
    } else {
      assert (a + b)[1..] == a[1..] + b;
      ProjectBoth(a[1..], b, i);
    }
  }

  lemma {:induction false} ProjectStart(own: seq<LocalAction>, i: nat)
    ensures Project([StartTask] + own, i) == Project(own, i)
  {
    assert ([StartTask] + own)[1..] == own;
  }

  lemma {:induction false} ProjectInTurn(hash: Hasher, m: Manifest, idx: seq<nat>, round: Round, i: nat)
    requires Indices(m, idx) && NoDuplicates(idx) && i < |m.chunkHashes|
    ensures Project(InTurn(hash, m, idx, round), i) ==
      if i in idx then OwnSteps(hash, m, i, FetchesOf(round(i))) else []
    decreases |idx|
  {
    if idx != [] {
      var own, rest := OwnSteps(hash, m, idx[0], FetchesOf(round(idx[0]))), InTurn(hash, m, idx[1..], round);
      assert idx == [idx[0]] + idx[1..];
      assert idx[0] !in idx[1..];
      ProjectInTurn(hash, m, idx[1..], round, i);
      OwnConcern(hash, m, idx[0], FetchesOf(round(idx[0])));
      ProjectOwn(own, idx[0], i);
      ProjectBoth([StartTask] + own, rest, i);
      ProjectStart(own, i);
    }
  }

  /** A task's steps leave the queue and the other tasks alone. */
  lemma {:induction false} OwnStepsLocal(hash: Hasher, m: Manifest, n: Node, actions: seq<LocalAction>, i: nat)
    requires AllConcernChunk(actions, i)
    ensures var after := LocalSteps(hash, m, n, actions);
      && after.queue == n.queue && after.alive == n.alive && after.concurrency == n.concurrency
      && after.tasks.Keys - {i} == n.tasks.Keys - {i}
    decreases |actions|
  {
    if actions != [] {
      OwnStepsLocal(hash, m, LocalStep(hash, m, n, actions[0]), actions[1..], i);
    }
  }

  /** A node between two tasks of a round. */
  ghost predicate Between(hash: Hasher, m: Manifest, n: Node) {
    NodeOk(hash, m, n) && n.alive && n.tasks == map[] && n.concurrency > 0 && Indices(m, n.queue)
  }

  lemma {:induction false} StartNext(hash: Hasher, m: Manifest, n: Node)
    requires Between(hash, m, n) && n.queue != []
    ensures var next := LocalStep(hash, m, n, StartTask);
      && NodeOk(hash, m, next) && next.alive && Fetches(next, n.queue[0]) && next.queue == n.queue[1..]
      && next.tasks.Keys == {n.queue[0]} && next.concurrency == n.concurrency
    ensures n.queue[0] !in n.queue[1..]
  {
    LocalStepKeeps(hash, m, n, StartTask);
    assert Open(n.bitmap, n.queue[0]);
    assert n.tasks.Keys == {};
    DequeueKeeps(hash, m, n);
  }

  /** One task, from its start to its end. */
  function OneTask(hash: Hasher, m: Manifest, i: nat, round: Round): seq<LocalAction>
    requires i < |m.chunkHashes|
  {
    [StartTask] + OwnSteps(hash, m, i, FetchesOf(round(i)))
  }

  lemma {:induction false} OwnTurn(hash: Hasher, m: Manifest, next: Node, i: nat, fetches: seq<Fetch>)
    requires NodeOk(hash, m, next) && next.alive && Fetches(next, i) && next.tasks.Keys == {i}
    requires next.concurrency > 0 && Indices(m, next.queue) && i < |m.chunkHashes|
    ensures var after := LocalSteps(hash, m, next, OwnSteps(hash, m, i, fetches));
      Between(hash, m, after) && after.queue == next.queue
  {
    var own := OwnSteps(hash, m, i, fetches);
    OwnConcern(hash, m, i, fetches);
    OwnStepsLocal(hash, m, next, own, i);
    OwnTrace(hash, m, i, fetches);
    TraceAlone(hash, m, next, i, fetches, [GiveUp(i)], own);
    StepsKeep(hash, m, next, own);
    NoneLeft(LocalSteps(hash, m, next, own).tasks, next.tasks, i);
  }

  lemma NoneLeft(tasks: map<nat, Task>, was: map<nat, Task>, i: nat)
    requires tasks.Keys - {i} == was.Keys - {i} && was.Keys == {i} && i !in tasks
    ensures tasks == map[]
  {
    forall c ensures c !in tasks {
      assert c in tasks.Keys ==> c in tasks.Keys - {i};
    }
  }

  lemma {:induction false} StartThenOwn(hash: Hasher, m: Manifest, n: Node, own: seq<LocalAction>)
    ensures LocalSteps(hash, m, n, [StartTask] + own) == LocalSteps(hash, m, LocalStep(hash, m, n, StartTask), own)
  {
    assert ([StartTask] + own)[1..] == own;
  }

  lemma {:induction false} TaskTurn(hash: Hasher, m: Manifest, n: Node, round: Round)
    requires Between(hash, m, n) && n.queue != []
    ensures var after := LocalSteps(hash, m, n, OneTask(hash, m, n.queue[0], round));
      Between(hash, m, after) && after.queue == n.queue[1..]
  {
    var i := n.queue[0];
    StartNext(hash, m, n);
    OwnTurn(hash, m, LocalStep(hash, m, n, StartTask), i, FetchesOf(round(i)));
    StartThenOwn(hash, m, n, OwnSteps(hash, m, i, FetchesOf(round(i))));
  }

  /** Within its turn, a task's steps come after its chunk has left the queue. */
  lemma TurnOfOne(hash: Hasher, m: Manifest, n: Node, round: Round, i: nat)
    requires Between(hash, m, n) && n.queue != []
    ensures WaitsItsTurn(hash, m, n, OneTask(hash, m, n.queue[0], round), i)
  {
    var c := n.queue[0];
    var own, one := OwnSteps(hash, m, c, FetchesOf(round(c))), OneTask(hash, m, c, round);
    StartNext(hash, m, n);
    OwnConcern(hash, m, c, FetchesOf(round(c)));
    forall t | 0 <= t < |one| && Concerns(one[t], i) ensures i !in LocalSteps(hash, m, n, one[..t]).queue {
      assert t > 0 && one[t] == own[t - 1] && i == c;
      assert one[..t] == [StartTask] + own[..t - 1];
      StartThenOwn(hash, m, n, own[..t - 1]);
      OwnStepsLocal(hash, m, LocalStep(hash, m, n, StartTask), own[..t - 1], c);
    }
  }

  lemma {:induction false} TurnsInTwo(hash: Hasher, m: Manifest, n: Node,
                                      a: seq<LocalAction>, b: seq<LocalAction>, i: nat)
    requires WaitsItsTurn(hash, m, n, a, i) && WaitsItsTurn(hash, m, LocalSteps(hash, m, n, a), b, i)
    ensures WaitsItsTurn(hash, m, n, a + b, i)
  {
    var all := a + b;
    forall t | 0 <= t < |all| && Concerns(all[t], i) ensures i !in LocalSteps(hash, m, n, all[..t]).queue {
      if t < |a| {
        assert all[..t] == a[..t];
      } else {
        assert all[..t] == a + b[..t - |a|];
        StepsInTwo(hash, m, n, a, b[..t - |a|]);
        assert Concerns(b[t - |a|], i);
      }
    }
  }

  lemma {:induction false} InTurnGoesOn(hash: Hasher, m: Manifest, idx: seq<nat>, round: Round)
    requires Indices(m, idx)
    ensures forall t :: 0 <= t < |InTurn(hash, m, idx, round)| ==>
      var a := InTurn(hash, m, idx, round)[t]; !a.Crash? && !a.StartRound?
    decreases |idx|
  {
    if idx != [] {
      OwnConcern(hash, m, idx[0], FetchesOf(round(idx[0])));
      InTurnGoesOn(hash, m, idx[1..], round);
    }
  }

  lemma {:induction false} InTurnWaits(hash: Hasher, m: Manifest, n: Node, round: Round, i: nat)
    requires Between(hash, m, n)
    ensures var actions := InTurn(hash, m, n.queue, round);
      WaitsItsTurn(hash, m, n, actions, i) && LocalSteps(hash, m, n, actions).queue == []
    decreases |n.queue|
  {
    if n.queue != [] {
      var one := OneTask(hash, m, n.queue[0], round);
      var after, rest := LocalSteps(hash, m, n, one), InTurn(hash, m, n.queue[1..], round);
      TaskTurn(hash, m, n, round);
      InTurnWaits(hash, m, after, round, i);
      StepsInTwo(hash, m, n, one, rest);
      TurnOfOne(hash, m, n, round, i);
      TurnsInTwo(hash, m, n, one, rest, i);
    }
  }

  /** Running the tasks one after another is an execution of the round. */
  lemma {:induction false} LoopOrderExecutes(hash: Hasher, m: Manifest, n: Node, round: Round)
    requires Between(hash, m, n)
    ensures Executes(hash, m, n, InTurn(hash, m, n.queue, round), round)
  {
    InTurnGoesOn(hash, m, n.queue, round);
    InTurnWaits(hash, m, n, round, 0);
    forall i | i in n.queue
      ensures i < |m.chunkHashes| && WaitsItsTurn(hash, m, n, InTurn(hash, m, n.queue, round), i)
      ensures IsTrace(hash, m, i, FetchesOf(round(i)), [GiveUp(i)], Project(InTurn(hash, m, n.queue, round), i))
    {
      InTurnWaits(hash, m, n, round, i);
      ProjectInTurn(hash, m, n.queue, round, i);
      OwnTrace(hash, m, i, FetchesOf(round(i)));
    }
  }
}
