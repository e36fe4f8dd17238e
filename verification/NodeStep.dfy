/** One node as a state machine whose tasks interleave freely. */
module NodeSteps {
  import opened Bytes
  import opened Wrappers
  import opened Sequences
  import opened Bitmaps
  import opened Manifests
  import opened ChunkStores
  import opened Wire
  import opened Nodes
  import opened Downloaders

  /** A task asks peers, holds verified bytes while it writes them, and has written them. */
  datatype Task = Fetching | Checked(data: Bytes) | Persisted

  /** `queue` is what is left of the current round's list. */
  datatype Node = Node(
    rackId: string, peerAddr: string, concurrency: nat, alive: bool,
    disk: Disk, bitmap: Bitmap, queue: seq<nat>, tasks: map<nat, Task>)

  datatype LocalAction =
    | StartRound
    | StartTask
    | Receive(chunk: nat, wire: Bytes)
    | GiveUp(chunk: nat)
    | WritePart(chunk: nat, kept: nat)
    | FinishWrite(chunk: nat)
    | FailWrite(chunk: nat)
    | Mark(chunk: nat)
    | Crash

  predicate Fetches(n: Node, chunk: nat) {
    chunk in n.tasks && n.tasks[chunk].Fetching?
  }

  predicate Writes(n: Node, chunk: nat) {
    chunk in n.tasks && n.tasks[chunk].Checked?
  }

  function NewNode(rackId: string, peerAddr: string, concurrency: nat, disk: Disk, chunkCount: nat): Node {
    Node(rackId, peerAddr, concurrency, true, disk, Empty(chunkCount), [], map[])
  }

  /** Any bytes may come back from any peer. An action that is not enabled does nothing. */
  function LocalStep(hash: Hasher, m: Manifest, n: Node, a: LocalAction): Node {
    if !n.alive then n else
    match a
    case StartRound =>
      if n.queue == [] && n.tasks == map[] && !Full(n.bitmap)
      then n.(queue := Targets(n.bitmap, n.concurrency)) else n
    case StartTask => NextTask(n)
    case Receive(chunk, wire) =>
      if Fetches(n, chunk) && chunk < |m.chunkHashes| && Accept(hash, m, chunk, wire).Success?
      then n.(tasks := n.tasks[chunk := Checked(Accept(hash, m, chunk, wire).value)]) else n
    case GiveUp(chunk) =>
      if Fetches(n, chunk) then n.(tasks := n.tasks - {chunk}) else n
    case WritePart(chunk, kept) =>
      if Writes(n, chunk)
      then n.(disk := AfterWrite(n.disk, m.fileId, chunk, n.tasks[chunk].data, Torn(kept))) else n
    case FinishWrite(chunk) =>
      if Writes(n, chunk)
      then n.(disk := AfterWrite(n.disk, m.fileId, chunk, n.tasks[chunk].data, Done),
              tasks := n.tasks[chunk := Persisted]) else n
    case FailWrite(chunk) =>
      if Writes(n, chunk) then n.(tasks := n.tasks[chunk := Fetching]) else n
    case Mark(chunk) =>
      if chunk in n.tasks && n.tasks[chunk].Persisted? && Readable(n.bitmap, chunk)
      then n.(bitmap := Marked(n.bitmap, chunk), tasks := n.tasks - {chunk}) else n
    case Crash => n.(alive := false, queue := [], tasks := map[])
  }

  /** The next chunk of the round is skipped if it is there already, and else
    * waits for one of the `concurrency` permits. */
  function NextTask(n: Node): Node {
    if n.queue == [] then n else
      var c, rest := n.queue[0], n.queue[1..];
      if Readable(n.bitmap, c) && Holds(n.bitmap, c) then n.(queue := rest)
      else if |n.tasks.Keys| < n.concurrency then n.(queue := rest, tasks := n.tasks[c := Fetching])
      else n
  }

  // ----- what every step keeps

  ghost predicate Open(b: Bitmap, chunk: nat) {
    chunk < |b.bits| && !b.bits[chunk]
  }

  ghost predicate TaskOk(hash: Hasher, m: Manifest, disk: Disk, chunk: nat, t: Task) {
    match t
    case Fetching => true
    case Checked(data) => chunk < |m.chunkHashes| && Matches(hash, m, chunk, data)
    case Persisted => StoredGood(hash, m, disk, chunk)
  }

  /** A chunk has at most one task, and only while it is not marked; so nothing
    * ever writes the file of a marked chunk. */
  ghost predicate NodeOk(hash: Hasher, m: Manifest, n: Node) {
    && Fits(m, n.bitmap)
    && Sound(hash, m, n.disk, n.bitmap)
    && |n.tasks.Keys| <= n.concurrency
    && NoDuplicates(n.queue)
    && (forall c :: c in n.queue ==> Open(n.bitmap, c) && c !in n.tasks)
    && (forall c :: c in n.tasks ==> Open(n.bitmap, c) && TaskOk(hash, m, n.disk, c, n.tasks[c]))
  }

  ghost predicate Within(a: Bitmap, b: Bitmap) {
    && Whole(a) && Whole(b) && a.chunkCount == b.chunkCount
    && forall i :: 0 <= i < a.chunkCount && a.bits[i] ==> b.bits[i]
  }

  lemma WithinTransitive(a: Bitmap, b: Bitmap, c: Bitmap)
    requires Within(a, b) && Within(b, c)
    ensures Within(a, c)
  {
  }

  lemma MarkedWithin(b: Bitmap, chunk: nat)
    requires Whole(b)
    ensures Within(b, Marked(b, chunk))
  {
    MarkedEffect(b, chunk);
  }

  lemma StartKeeps(hash: Hasher, m: Manifest, n: Node)
    requires NodeOk(hash, m, n) && n.tasks == map[]
    ensures NodeOk(hash, m, n.(queue := Targets(n.bitmap, n.concurrency)))
  {
    TargetsFit(m, n.bitmap, n.concurrency);
  }

  /** The chunk at the head of the queue is never there already. */
  lemma NextTaskKeeps(hash: Hasher, m: Manifest, n: Node)
    requires NodeOk(hash, m, n)
    ensures NodeOk(hash, m, NextTask(n)) && NextTask(n).bitmap == n.bitmap
    ensures n.queue != [] ==> !Holds(n.bitmap, n.queue[0])
  {
    if n.queue != [] {
      var c, rest := n.queue[0], n.queue[1..];
      assert Open(n.bitmap, c);
      DequeueKeeps(hash, m, n);
      if |n.tasks.Keys| < n.concurrency {
        TaskBeginKeeps(hash, m, n.(queue := rest), c);
      }
    }
  }

  lemma DequeueKeeps(hash: Hasher, m: Manifest, n: Node)
    requires NodeOk(hash, m, n) && n.queue != []
    ensures NodeOk(hash, m, n.(queue := n.queue[1..])) && n.queue[0] !in n.queue[1..]
  {
    assert forall d :: d in n.queue[1..] ==> d in n.queue;
  }

  lemma TaskBeginKeeps(hash: Hasher, m: Manifest, n: Node, c: nat)
    requires NodeOk(hash, m, n) && Open(n.bitmap, c) && c !in n.queue && c !in n.tasks
    requires |n.tasks.Keys| < n.concurrency
    ensures NodeOk(hash, m, n.(tasks := n.tasks[c := Fetching]))
  {
    OneMoreTask(n.tasks, c);
  }

  lemma OneMoreTask(tasks: map<nat, Task>, c: nat)
    requires c !in tasks
    ensures |tasks[c := Fetching].Keys| == |tasks.Keys| + 1
  {
    assert tasks[c := Fetching].Keys == tasks.Keys + {c};
  }

  /** Replacing a running task's state. */
  lemma TaskChangeKeeps(hash: Hasher, m: Manifest, n: Node, chunk: nat, t: Task)
    requires NodeOk(hash, m, n) && chunk in n.tasks && TaskOk(hash, m, n.disk, chunk, t)
    ensures NodeOk(hash, m, n.(tasks := n.tasks[chunk := t]))
  {
    assert n.tasks[chunk := t].Keys == n.tasks.Keys;
  }

  lemma TaskEndKeeps(hash: Hasher, m: Manifest, n: Node, chunk: nat)
    requires NodeOk(hash, m, n)
    ensures NodeOk(hash, m, n.(tasks := n.tasks - {chunk}))
  {
    assert (n.tasks - {chunk}).Keys == n.tasks.Keys - {chunk};
    SubsetSize(n.tasks.Keys - {chunk}, n.tasks.Keys);
  }

  /** Writing the file of a chunk that is being fetched. */
  lemma WriteKeeps(hash: Hasher, m: Manifest, n: Node, chunk: nat, w: Write)
    requires NodeOk(hash, m, n) && Writes(n, chunk)
    ensures var disk := AfterWrite(n.disk, m.fileId, chunk, n.tasks[chunk].data, w);
      && NodeOk(hash, m, n.(disk := disk))
      && (w.Done? ==> StoredGood(hash, m, disk, chunk))
  {
    var data := n.tasks[chunk].data;
    var disk := AfterWrite(n.disk, m.fileId, chunk, data, w);
    assert Open(n.bitmap, chunk);
    SoundWrite(hash, m, n.disk, n.bitmap, chunk, data, w);
    forall c | c in n.tasks ensures TaskOk(hash, m, disk, c, n.tasks[c]) {
      if c != chunk {
        OtherFiles(n.disk, m.fileId, chunk, data, w, c);
      }
    }
    StoreElsewhere(n.disk, m.fileId, chunk, data, chunk);
  }

  lemma OtherFiles(disk: Disk, fileId: string, i: nat, data: Bytes, w: Write, j: nat)
    requires i != j
    ensures Stored(AfterWrite(disk, fileId, i, data, w), fileId, j) == Stored(disk, fileId, j)
  {
    StoreElsewhere(disk, fileId, i, data, j);
    if w.Torn? {
      StoreElsewhere(disk, fileId, i, Truncate(data, w.kept), j);
    }
  }

  lemma MarkKeeps(hash: Hasher, m: Manifest, n: Node, chunk: nat)
    requires NodeOk(hash, m, n) && chunk in n.tasks && n.tasks[chunk].Persisted?
    ensures NodeOk(hash, m, n.(bitmap := Marked(n.bitmap, chunk), tasks := n.tasks - {chunk}))
  {
    TaskEndKeeps(hash, m, n, chunk);
    MarkKeepsOpen(hash, m, n.(tasks := n.tasks - {chunk}), chunk);
  }

  /** A chunk without a task or a place in the queue, whose file is good, may be marked. */
  lemma MarkKeepsOpen(hash: Hasher, m: Manifest, n: Node, chunk: nat)
    requires NodeOk(hash, m, n) && chunk !in n.tasks && chunk !in n.queue && chunk < n.bitmap.chunkCount
    requires StoredGood(hash, m, n.disk, chunk)
    ensures NodeOk(hash, m, n.(bitmap := Marked(n.bitmap, chunk)))
  {
    MarkedEffect(n.bitmap, chunk);
  }

  lemma ReceiveKeeps(hash: Hasher, m: Manifest, n: Node, chunk: nat, wire: Bytes)
    requires NodeOk(hash, m, n)
    ensures NodeOk(hash, m, LocalStep(hash, m, n, Receive(chunk, wire)))
  {
    if Fetches(n, chunk) && chunk < |m.chunkHashes| && Accept(hash, m, chunk, wire).Success? {
      var data := Accept(hash, m, chunk, wire).value;
      AcceptedIff(hash, m, chunk, wire, data);
      TaskChangeKeeps(hash, m, n, chunk, Checked(data));
    }
  }

  lemma FinishKeeps(hash: Hasher, m: Manifest, n: Node, chunk: nat)
    requires NodeOk(hash, m, n)
    ensures NodeOk(hash, m, LocalStep(hash, m, n, FinishWrite(chunk)))
  {
    if Writes(n, chunk) {
      WriteKeeps(hash, m, n, chunk, Done);
      var disk := AfterWrite(n.disk, m.fileId, chunk, n.tasks[chunk].data, Done);
      TaskChangeKeeps(hash, m, n.(disk := disk), chunk, Persisted);
    }
  }

  lemma WritingKeeps(hash: Hasher, m: Manifest, n: Node, a: LocalAction)
    requires NodeOk(hash, m, n) && (a.WritePart? || a.FinishWrite? || a.FailWrite?)
    ensures NodeOk(hash, m, LocalStep(hash, m, n, a))
  {
    match a
    case WritePart(chunk, kept) =>
      if Writes(n, chunk) { WriteKeeps(hash, m, n, chunk, Torn(kept)); }
    case FinishWrite(chunk) => FinishKeeps(hash, m, n, chunk);
    case FailWrite(chunk) =>
      if Writes(n, chunk) { TaskChangeKeeps(hash, m, n, chunk, Fetching); }
  }

  lemma StepKeepsOk(hash: Hasher, m: Manifest, n: Node, a: LocalAction)
    requires NodeOk(hash, m, n)
    ensures NodeOk(hash, m, LocalStep(hash, m, n, a))
  {
    match a
    case StartRound =>
      if n.tasks == map[] { StartKeeps(hash, m, n); }
    case StartTask => NextTaskKeeps(hash, m, n);
    case Receive(chunk, wire) => ReceiveKeeps(hash, m, n, chunk, wire);
    case GiveUp(chunk) => TaskEndKeeps(hash, m, n, chunk);
    case Mark(chunk) =>
      if chunk in n.tasks && n.tasks[chunk].Persisted? { MarkKeeps(hash, m, n, chunk); }
    case Crash =>
    case _ => WritingKeeps(hash, m, n, a);
  }

  lemma StepGrows(hash: Hasher, m: Manifest, n: Node, a: LocalAction)
    requires Whole(n.bitmap)
    ensures Within(n.bitmap, LocalStep(hash, m, n, a).bitmap)
    ensures LocalStep(hash, m, n, a).rackId == n.rackId && LocalStep(hash, m, n, a).peerAddr == n.peerAddr
  {
    if a.Mark? {
      MarkedWithin(n.bitmap, a.chunk);
    }
  }

  /** Every step keeps the node sound, and its bitmap only grows. */
  lemma LocalStepKeeps(hash: Hasher, m: Manifest, n: Node, a: LocalAction)
    requires NodeOk(hash, m, n)
    ensures NodeOk(hash, m, LocalStep(hash, m, n, a))
    ensures Within(n.bitmap, LocalStep(hash, m, n, a).bitmap)
    ensures LocalStep(hash, m, n, a).rackId == n.rackId && LocalStep(hash, m, n, a).peerAddr == n.peerAddr
  {
    StepKeepsOk(hash, m, n, a);
    StepGrows(hash, m, n, a);
  }

  /** How a task goes on: it takes accepted bytes or gives up; bytes it holds it
    * writes, well or badly; and what it has written it marks. */
  ghost predicate GoesOn(hash: Hasher, m: Manifest, n: Node, a: LocalAction, i: nat, after: Node)
    requires i in n.tasks
  {
    (i in after.tasks && after.tasks[i] == n.tasks[i]) ||
    match n.tasks[i]
    case Fetching =>
      || (a == GiveUp(i) && i !in after.tasks)
      || (&& a.Receive? && a.chunk == i && i < |m.chunkHashes| && Accept(hash, m, i, a.wire).Success?
          && i in after.tasks && after.tasks[i] == Checked(Accept(hash, m, i, a.wire).value))
    case Checked(data) =>
      && i in after.tasks
      && if a == FailWrite(i) then after.tasks[i] == Fetching
         else a == FinishWrite(i) && after.tasks[i] == Persisted && Stored(after.disk, m.fileId, i) == Some(data)
    case Persisted => a == Mark(i) && i !in after.tasks && Readable(after.bitmap, i) && Holds(after.bitmap, i)
  }

  /** A running task goes on so, and a new one comes from the head of the queue. */
  lemma TaskLife(hash: Hasher, m: Manifest, n: Node, a: LocalAction, i: nat)
    requires NodeOk(hash, m, n) && n.alive && !a.Crash?
    ensures var after := LocalStep(hash, m, n, a);
      if i in n.tasks then GoesOn(hash, m, n, a, i, after)
      else i in after.tasks ==> a == StartTask && n.queue != [] && n.queue[0] == i && after.tasks[i] == Fetching
  {
    if i in n.tasks {
      assert Open(n.bitmap, i);
      if a == Mark(i) {
        MarkedEffect(n.bitmap, i);
      }
    }
    if n.queue != [] {
      assert Open(n.bitmap, n.queue[0]);
    }
  }

  /** The one step that completes a chunk. */
  predicate Finishes(n: Node, a: LocalAction) {
    n.alive && a.Mark? && a.chunk in n.tasks && n.tasks[a.chunk].Persisted?
  }

  /** Nothing goes missing again, and no marking step is wasted. */
  lemma LocalStepProgress(hash: Hasher, m: Manifest, n: Node, a: LocalAction)
    requires NodeOk(hash, m, n)
    ensures |MissingIn(LocalStep(hash, m, n, a).bitmap)| ==
      |MissingIn(n.bitmap)| - if Finishes(n, a) then 1 else 0
  {
    match a
    case Mark(chunk) =>
      if chunk in n.tasks {
        assert Open(n.bitmap, chunk);
        MarkedEffect(n.bitmap, chunk);
      }
    case _ => NextTaskKeeps(hash, m, n);
  }

  /** The files of marked chunks are as they were. */
  ghost predicate Frozen(fileId: string, n: Node, after: Node) {
    forall i: nat :: i < |n.bitmap.bits| && n.bitmap.bits[i] ==>
      Stored(after.disk, fileId, i) == Stored(n.disk, fileId, i)
  }

  /** A write of chunk `i` is seen half done. */
  predicate Shortens(m: Manifest, n: Node, a: LocalAction, i: nat) {
    n.alive && a.WritePart? && a.chunk == i && Writes(n, i) && a.kept < LengthOf(m, i)
  }

  /** A write of chunk `i` is seen done. */
  predicate Fills(m: Manifest, n: Node, a: LocalAction, i: nat) {
    && n.alive && Writes(n, i)
    && (a == FinishWrite(i) || (a.WritePart? && a.chunk == i && a.kept >= LengthOf(m, i)))
  }

  /** What a write of verified data, or a part of it, leaves. */
  lemma WrittenFile(hash: Hasher, m: Manifest, disk: Disk, i: nat, data: Bytes, w: Write)
    requires i < |m.chunkHashes| && Matches(hash, m, i, data) && !w.Refused?
    ensures var after := AfterWrite(disk, m.fileId, i, data, w);
      if w.Torn? && w.kept < LengthOf(m, i)
      then Stored(after, m.fileId, i).Some? && |Stored(after, m.fileId, i).value| < LengthOf(m, i)
      else StoredGood(hash, m, after, i)
  {
    if w.Torn? && w.kept >= LengthOf(m, i) {
      assert Truncate(data, w.kept) == data;
    }
  }

  /** Only these steps change the file of chunk `i`: one leaves it too short, the
    * other good. */
  lemma FileStep(hash: Hasher, m: Manifest, n: Node, a: LocalAction, i: nat)
    requires NodeOk(hash, m, n)
    ensures var file := Stored(LocalStep(hash, m, n, a).disk, m.fileId, i);
      && (Shortens(m, n, a, i) ==> file.Some? && |file.value| < LengthOf(m, i))
      && (Fills(m, n, a, i) ==> StoredGood(hash, m, LocalStep(hash, m, n, a).disk, i))
      && (!Shortens(m, n, a, i) && !Fills(m, n, a, i) ==> file == Stored(n.disk, m.fileId, i))
  {
    if (a.WritePart? || a.FinishWrite?) && Writes(n, a.chunk) {
      var w, data := if a.WritePart? then Torn(a.kept) else Done, n.tasks[a.chunk].data;
      if a.chunk == i {
        WrittenFile(hash, m, n.disk, i, data, w);
      } else {
        OtherFiles(n.disk, m.fileId, a.chunk, data, w, i);
      }
    }
  }

  lemma LocalStepFreezes(hash: Hasher, m: Manifest, n: Node, a: LocalAction)
    requires NodeOk(hash, m, n)
    ensures Frozen(m.fileId, n, LocalStep(hash, m, n, a))
  {
    forall i: nat | i < |n.bitmap.bits| && n.bitmap.bits[i]
      ensures Stored(LocalStep(hash, m, n, a).disk, m.fileId, i) == Stored(n.disk, m.fileId, i)
    {
      assert i !in n.tasks;
      FileStep(hash, m, n, a, i);
    }
  }

  // ----- the downloader's fetch as steps

  function LocalSteps(hash: Hasher, m: Manifest, n: Node, actions: seq<LocalAction>): Node
    decreases |actions|
  {
    if actions == [] then n
    else LocalSteps(hash, m, LocalStep(hash, m, n, actions[0]), actions[1..])
  }

  lemma {:induction false} StepsInTwo(hash: Hasher, m: Manifest, n: Node, a: seq<LocalAction>, b: seq<LocalAction>)
    ensures LocalSteps(hash, m, n, a + b) == LocalSteps(hash, m, LocalSteps(hash, m, n, a), b)
    decreases |a|
  {
    if a == [] {
      assert a + b == b;
    } else {
      assert (a + b)[1..] == a[1..] + b;
      StepsInTwo(hash, m, LocalStep(hash, m, n, a[0]), a[1..], b);
    }
  }

  lemma {:induction false} TwoSteps(hash: Hasher, m: Manifest, n: Node, a: LocalAction, b: LocalAction)
    ensures LocalSteps(hash, m, n, [a, b]) == LocalStep(hash, m, LocalStep(hash, m, n, a), b)
  {
    assert [a, b][1..] == [b] && [b][1..] == [];
    var n1 := LocalStep(hash, m, n, a);
    assert LocalSteps(hash, m, n1, [b]) == LocalSteps(hash, m, LocalStep(hash, m, n1, b), []);
  }

  lemma {:induction false} ThreeSteps(hash: Hasher, m: Manifest, n: Node, a: LocalAction, b: LocalAction,
                                      c: LocalAction)
    ensures LocalSteps(hash, m, n, [a, b, c]) ==
      LocalStep(hash, m, LocalStep(hash, m, LocalStep(hash, m, n, a), b), c)
  {
    assert [a, b, c][1..] == [b, c];
    TwoSteps(hash, m, LocalStep(hash, m, n, a), b, c);
  }

  /** The bytes a peer sent, accepted, are held by the task; refused, they are dropped. */
  function Received(hash: Hasher, m: Manifest, n: Node, i: nat, wire: Bytes): Node
    requires i < |m.chunkHashes|
  {
    if Accept(hash, m, i, wire).Success?
    then n.(tasks := n.tasks[i := Checked(Accept(hash, m, i, wire).value)]) else n
  }

  lemma WrittenAndMarked(hash: Hasher, m: Manifest, n: Node, i: nat)
    requires n.alive && Writes(n, i) && Readable(n.bitmap, i)
    ensures LocalStep(hash, m, LocalStep(hash, m, n, FinishWrite(i)), Mark(i)) ==
      n.(disk := Store(n.disk, m.fileId, i, n.tasks[i].data), bitmap := Marked(n.bitmap, i), tasks := n.tasks - {i})
  {
    assert n.tasks[i := Persisted] - {i} == n.tasks - {i};
  }

  lemma WrittenInPart(hash: Hasher, m: Manifest, n: Node, i: nat, kept: nat)
    requires n.alive && Writes(n, i)
    ensures LocalStep(hash, m, LocalStep(hash, m, n, WritePart(i, kept)), FailWrite(i)) ==
      n.(disk := Store(n.disk, m.fileId, i, Truncate(n.tasks[i].data, kept)), tasks := n.tasks[i := Fetching])
  {
  }

  /** Any number of moments at which a write is seen half done. */
  predicate PartsOnly(steps: seq<LocalAction>, i: nat) {
    forall t :: 0 <= t < |steps| ==> steps[t].WritePart? && steps[t].chunk == i
  }

  /** The steps of a write that goes so. */
  predicate IsWrite(i: nat, write: Write, steps: seq<LocalAction>) {
    var cut := |steps| - 2;
    match write
    case Done => cut >= 0 && steps[cut..] == [FinishWrite(i), Mark(i)] && PartsOnly(steps[..cut], i)
    case Torn(kept) => cut >= 0 && steps[cut..] == [WritePart(i, kept), FailWrite(i)] && PartsOnly(steps[..cut], i)
    case Refused => steps == [FailWrite(i)]
  }

  /** The steps of a fetch that goes so: a reply that is not accepted is dropped. */
  predicate IsFetch(hash: Hasher, m: Manifest, i: nat, f: Fetch, steps: seq<LocalAction>)
    requires i < |m.chunkHashes|
  {
    match f
    case Unreachable => steps == []
    case Answered(wire, write) =>
      if Accept(hash, m, i, wire).Failure? then steps == [Receive(i, wire)]
      else steps != [] && steps[0] == Receive(i, wire) && IsWrite(i, write, steps[1..])
  }

  lemma StoreTwice(disk: Disk, fileId: string, i: nat, a: Bytes, b: Bytes)
    ensures Store(Store(disk, fileId, i, a), fileId, i, b) == Store(disk, fileId, i, b)
  {
  }

  /** Parts change only the one file, and the next write covers them. */
  lemma {:induction false} PartsEffect(hash: Hasher, m: Manifest, n: Node, parts: seq<LocalAction>, i: nat)
    returns (disk: Disk)
    requires n.alive && Writes(n, i) && PartsOnly(parts, i)
    ensures LocalSteps(hash, m, n, parts) == n.(disk := disk)
    ensures forall data :: Store(disk, m.fileId, i, data) == Store(n.disk, m.fileId, i, data)
    decreases |parts|
  {
    disk := n.disk;
    if parts != [] {
      var next := LocalStep(hash, m, n, parts[0]);
      var prefix := Truncate(n.tasks[i].data, parts[0].kept);
      disk := PartsEffect(hash, m, next, parts[1..], i);
      forall data ensures Store(disk, m.fileId, i, data) == Store(n.disk, m.fileId, i, data) {
        StoreTwice(n.disk, m.fileId, i, prefix, data);
      }
    }
  }

  lemma {:induction false} WriteIsSteps(hash: Hasher, m: Manifest, n: Node, i: nat, write: Write,
                                        steps: seq<LocalAction>)
    requires n.alive && Writes(n, i) && Readable(n.bitmap, i) && IsWrite(i, write, steps)
    ensures LocalSteps(hash, m, n, steps) ==
      n.(disk := AfterWrite(n.disk, m.fileId, i, n.tasks[i].data, write),
         bitmap := if write.Done? then Marked(n.bitmap, i) else n.bitmap,
         tasks := if write.Done? then n.tasks - {i} else n.tasks[i := Fetching])
  {
    if write.Refused? {
      assert steps[1..] == [];
      assert LocalSteps(hash, m, LocalStep(hash, m, n, steps[0]), []) == LocalStep(hash, m, n, steps[0]);
    } else {
      var cut := |steps| - 2;
      var disk := PartsEffect(hash, m, n, steps[..cut], i);
      assert steps == steps[..cut] + steps[cut..];
      StepsInTwo(hash, m, n, steps[..cut], steps[cut..]);
      if write.Done? {
        TwoSteps(hash, m, n.(disk := disk), FinishWrite(i), Mark(i));
        WrittenAndMarked(hash, m, n.(disk := disk), i);
      } else {
        TwoSteps(hash, m, n.(disk := disk), WritePart(i, write.kept), FailWrite(i));
        WrittenInPart(hash, m, n.(disk := disk), i, write.kept);
      }
    }
  }

  /** What one fetch of the download loop does to disk and bitmap, its steps do. */
  lemma {:induction false} FetchIsSteps(hash: Hasher, m: Manifest, n: Node, i: nat, f: Fetch, steps: seq<LocalAction>)
    requires NodeOk(hash, m, n) && n.alive && Fetches(n, i)
    requires i < |m.chunkHashes| && IsFetch(hash, m, i, f, steps)
    ensures LocalSteps(hash, m, n, steps) ==
      n.(disk := AfterFetch(hash, m, i, n.disk, f),
         bitmap := if Wins(hash, m, i, f) then Marked(n.bitmap, i) else n.bitmap,
         tasks := if Wins(hash, m, i, f) then n.tasks - {i} else n.tasks)
  {
    assert Open(n.bitmap, i);
    if f.Answered? {
      var received := Received(hash, m, n, i, f.wire);
      assert LocalStep(hash, m, n, Receive(i, f.wire)) == received;
      assert received.tasks[i := Fetching] == n.tasks;
      assert received.tasks - {i} == n.tasks - {i};
      if Accept(hash, m, i, f.wire).Success? {
        WriteIsSteps(hash, m, received, i, f.write, steps[1..]);
      } else {
        assert steps[1..] == [];
        assert LocalSteps(hash, m, received, []) == received;
      }
    }
  }
}
