/** The download loop of a node: rounds of tasks, attempts and fetches, and how
  * they make progress against any network. */
module Downloaders {
  import opened Bytes
  import opened Wrappers
  import opened Sequences
  import opened Bitmaps
  import opened Manifests
  import opened ChunkStores
  import opened Wire
  import opened Nodes

  // ----- what the network does

  /** One try at one peer: the connection fails, or these bytes come back and
    * the write that may follow goes so. */
  datatype Fetch = Unreachable | Answered(wire: Bytes, write: Write)

  /** The tracker does not answer, or names peers. */
  datatype Attempt = QueryFailed | Peers(fetches: seq<Fetch>)

  const ATTEMPTS: nat := 3
  const TOP_PEERS: nat := 5

  /** What happens to one task; the tracker names at most as many peers as asked for. */
  predicate IsTask(task: seq<Attempt>) {
    && |task| == ATTEMPTS
    && forall a :: 0 <= a < |task| && task[a].Peers? ==> |task[a].fetches| <= TOP_PEERS
  }

  /** How many fetches a task makes that no fetch wins. */
  function FetchCount(task: seq<Attempt>): nat
    decreases |task|
  {
    if task == [] then 0
    else
      var last := task[|task| - 1];
      FetchCount(task[..|task| - 1]) + if last.Peers? then |last.fetches| else 0
  }

  /** Three times five peers can be asked. */
  lemma {:induction false} LongestTask(f: Fetch)
    ensures var five := Peers([f, f, f, f, f]);
      IsTask([five, five, five]) && FetchCount([five, five, five]) == 15
  {
    var five := Peers([f, f, f, f, f]);
    assert [five, five, five][..2] == [five, five] && [five, five][..1] == [five] && [five][..0] == [];
    assert FetchCount([five]) == 5 && FetchCount([five, five]) == 10;
  }

  /** The task of every chunk, should a round start it. */
  type Round = r: nat -> seq<Attempt> | forall i: nat :: IsTask(r(i))
    witness (i: nat) => [QueryFailed, QueryFailed, QueryFailed]

  // ----- what the tasks achieve

  predicate Wins(hash: Hasher, m: Manifest, i: nat, f: Fetch)
    requires i < |m.chunkHashes|
  {
    f.Answered? && f.write.Done? && Accept(hash, m, i, f.wire).Success?
  }

  function AfterFetch(hash: Hasher, m: Manifest, i: nat, disk: Disk, f: Fetch): Disk
    requires i < |m.chunkHashes|
  {
    if f.Answered? && Accept(hash, m, i, f.wire).Success?
    then AfterWrite(disk, m.fileId, i, Accept(hash, m, i, f.wire).value, f.write)
    else disk
  }

  predicate AttemptWins(hash: Hasher, m: Manifest, i: nat, a: Attempt)
    requires i < |m.chunkHashes|
  {
    a.Peers? && exists p :: 0 <= p < |a.fetches| && Wins(hash, m, i, a.fetches[p])
  }

  predicate TaskWins(hash: Hasher, m: Manifest, i: nat, task: seq<Attempt>)
    requires i < |m.chunkHashes|
  {
    exists a :: 0 <= a < |task| && AttemptWins(hash, m, i, task[a])
  }

  /** Attempt `a` is the first that wins. */
  predicate FirstWin(hash: Hasher, m: Manifest, i: nat, task: seq<Attempt>, a: nat)
    requires i < |m.chunkHashes|
  {
    && a < |task| && AttemptWins(hash, m, i, task[a])
    && forall k :: 0 <= k < a ==> !AttemptWins(hash, m, i, task[k])
  }

  predicate Indices(m: Manifest, idx: seq<nat>) {
    forall t :: 0 <= t < |idx| ==> idx[t] < |m.chunkHashes|
  }

  /** The chunks whose task wins. */
  function Winners(hash: Hasher, m: Manifest, idx: seq<nat>, round: Round): (won: seq<nat>)
    requires Indices(m, idx)
    ensures forall i :: i in won <==> i in idx && TaskWins(hash, m, i, round(i))
  {
    if |idx| == 0 then [] else
      (if TaskWins(hash, m, idx[0], round(idx[0])) then [idx[0]] else []) + Winners(hash, m, idx[1..], round)
  }

  /** The chunks a round works on: the first missing ones. */
  function Targets(b: Bitmap, concurrency: nat): seq<nat> {
    Truncate(MissingIn(b), concurrency * 2)
  }

  ghost predicate Fits(m: Manifest, b: Bitmap) {
    Whole(b) && b.chunkCount == |m.chunkHashes| == m.chunkCount < U32_LIMIT
  }

  lemma TargetsFit(m: Manifest, b: Bitmap, concurrency: nat)
    requires Fits(m, b)
    ensures |Targets(b, concurrency)| == Min(2 * concurrency, |MissingIn(b)|) && Targets(b, concurrency) <= MissingIn(b)
    ensures Indices(m, Targets(b, concurrency)) && NoDuplicates(Targets(b, concurrency))
    ensures forall t :: 0 <= t < |Targets(b, concurrency)| ==> !b.bits[Targets(b, concurrency)[t]]
  {
  }

  /** A round marks the targets whose task wins. */
  function AfterRound(hash: Hasher, m: Manifest, b: Bitmap, concurrency: nat, round: Round): Bitmap
    requires Fits(m, b)
  {
    TargetsFit(m, b, concurrency);
    MarkAll(b, Winners(hash, m, Targets(b, concurrency), round))
  }

  // ----- progress

  lemma {:induction false} FreshMarks(b: Bitmap, marks: seq<nat>)
    requires Whole(b) && NoDuplicates(marks)
    requires forall i :: i in marks ==> i < b.chunkCount && !b.bits[i]
    ensures |MissingIn(MarkAll(b, marks))| == |MissingIn(b)| - |marks|
    decreases |marks|
  {
    if |marks| > 0 {
      MarkedEffect(b, marks[0]);
      assert marks == [marks[0]] + marks[1..];
      assert marks[0] !in marks[1..];
      assert forall i :: i in marks[1..] ==> i in marks;
      FreshMarks(Marked(b, marks[0]), marks[1..]);
    }
  }

  lemma {:induction false} WinnersDistinct(hash: Hasher, m: Manifest, idx: seq<nat>, round: Round)
    requires Indices(m, idx) && NoDuplicates(idx)
    ensures NoDuplicates(Winners(hash, m, idx, round))
    decreases |idx|
  {
    if |idx| > 0 {
      WinnersDistinct(hash, m, idx[1..], round);
      assert idx == [idx[0]] + idx[1..];
      assert idx[0] !in idx[1..];
    }
  }

  lemma {:induction false} FreshMarksEffect(b: Bitmap, marks: seq<nat>)
    requires Whole(b) && NoDuplicates(marks)
    requires forall i :: i in marks ==> i < b.chunkCount && !b.bits[i]
    ensures var after := MarkAll(b, marks);
      && Whole(after) && after.chunkCount == b.chunkCount
      && |MissingIn(after)| == |MissingIn(b)| - |marks|
      && Held(after) == Held(b) + Elements(marks)
  {
    FreshMarks(b, marks);
    MarkAllEffect(b, marks);
    assert (set i | i in marks && i < b.chunkCount) == Elements(marks);
  }

  /** A round never loses a chunk, and each winning task is one chunk less to go. */
  lemma {:induction false} RoundProgress(hash: Hasher, m: Manifest, b: Bitmap, concurrency: nat, round: Round)
    requires Fits(m, b)
    ensures Indices(m, Targets(b, concurrency))
    ensures var won := Winners(hash, m, Targets(b, concurrency), round);
      var after := AfterRound(hash, m, b, concurrency, round);
      && Fits(m, after)
      && |MissingIn(after)| == |MissingIn(b)| - |won|
      && Held(after) == Held(b) + Elements(won)
  {
    TargetsFit(m, b, concurrency);
    WinnersDistinct(hash, m, Targets(b, concurrency), round);
    FreshMarksEffect(b, Winners(hash, m, Targets(b, concurrency), round));
  }

  /** Some target has a task that wins. */
  ghost predicate Productive(hash: Hasher, m: Manifest, b: Bitmap, concurrency: nat, round: Round)
    requires Fits(m, b)
  {
    TargetsFit(m, b, concurrency);
    exists i :: i in Targets(b, concurrency) && TaskWins(hash, m, i, round(i))
  }

  /** A peer that stores the chunk and answers, asked about a target at some
    * point of its task, makes the round productive. */
  lemma HonestPeerMakesProgress(hash: Hasher, m: Manifest, b: Bitmap, concurrency: nat, round: Round,
                                i: nat, a: nat, p: nat, peerDisk: Disk)
    requires Fits(m, b) && i in Targets(b, concurrency)
    requires a < ATTEMPTS && round(i)[a].Peers? && p < |round(i)[a].fetches|
    requires (forall path :: path in peerDisk ==> |peerDisk[path]| < U64_LIMIT) && StoredGood(hash, m, peerDisk, i)
    requires round(i)[a].fetches[p] == Answered(EncodeReply(Stored(peerDisk, m.fileId, i)), Done)
    ensures Productive(hash, m, b, concurrency, round)
  {
    TargetsFit(m, b, concurrency);
    ServedIffStored(hash, m, i, peerDisk);
    assert Wins(hash, m, i, round(i)[a].fetches[p]);
    assert AttemptWins(hash, m, i, round(i)[a]);
  }

  /** A run of rounds, which stops when nothing is missing. */
  function AfterRounds(hash: Hasher, m: Manifest, b: Bitmap, concurrency: nat, rounds: seq<Round>): Bitmap
    requires Fits(m, b)
    decreases |rounds|
  {
    if Full(b) || |rounds| == 0 then b else
      RoundProgress(hash, m, b, concurrency, rounds[0]);
      AfterRounds(hash, m, AfterRound(hash, m, b, concurrency, rounds[0]), concurrency, rounds[1..])
  }

  ghost function ProductiveRounds(hash: Hasher, m: Manifest, b: Bitmap, concurrency: nat, rounds: seq<Round>): nat
    requires Fits(m, b)
    decreases |rounds|
  {
    if Full(b) || |rounds| == 0 then 0 else
      RoundProgress(hash, m, b, concurrency, rounds[0]);
      (if Productive(hash, m, b, concurrency, rounds[0]) then 1 else 0)
      + ProductiveRounds(hash, m, AfterRound(hash, m, b, concurrency, rounds[0]), concurrency, rounds[1..])
  }

  /** There can be no more productive rounds than missing chunks, and that many finish. */
  lemma {:induction false} ProductiveRoundsFinish(hash: Hasher, m: Manifest, b: Bitmap, concurrency: nat,
                                                  rounds: seq<Round>)
    requires Fits(m, b)
    ensures Fits(m, AfterRounds(hash, m, b, concurrency, rounds))
    ensures |MissingIn(AfterRounds(hash, m, b, concurrency, rounds))|
              + ProductiveRounds(hash, m, b, concurrency, rounds) <= |MissingIn(b)| <= m.chunkCount
    ensures ProductiveRounds(hash, m, b, concurrency, rounds) == |MissingIn(b)| ==>
      Full(AfterRounds(hash, m, b, concurrency, rounds))
    decreases |rounds|
  {
    MissingComplement(b.bits, 0);
    if !Full(b) && |rounds| > 0 {
      RoundProgress(hash, m, b, concurrency, rounds[0]);
      var next := AfterRound(hash, m, b, concurrency, rounds[0]);
      ProductiveRoundsFinish(hash, m, next, concurrency, rounds[1..]);
    }
    CompleteIffNothingMissing(AfterRounds(hash, m, b, concurrency, rounds));
  }

  // ----- one step of each loop

  lemma {:induction false} WinnersStep(hash: Hasher, m: Manifest, b: Bitmap, targets: seq<nat>, t: nat, round: Round)
    requires Fits(m, b) && Indices(m, targets) && t < |targets|
    ensures var i := targets[t];
      MarkAll(b, Winners(hash, m, targets[t..], round)) ==
      MarkAll(if TaskWins(hash, m, i, round(i)) then Marked(b, i) else b, Winners(hash, m, targets[t + 1..], round))
  {
    assert targets[t..][1..] == targets[t + 1..];
    var rest := Winners(hash, m, targets[t + 1..], round);
    assert ([targets[t]] + rest)[1..] == rest;
    assert [] + rest == rest;
  }

  lemma {:induction false} RoundsStep(hash: Hasher, m: Manifest, b: Bitmap, concurrency: nat,
                                      rounds: seq<Round>, t: nat)
    requires Fits(m, b) && !Full(b) && t < |rounds|
    ensures Fits(m, AfterRound(hash, m, b, concurrency, rounds[t]))
    ensures AfterRounds(hash, m, b, concurrency, rounds[t..]) ==
      AfterRounds(hash, m, AfterRound(hash, m, b, concurrency, rounds[t]), concurrency, rounds[t + 1..])
  {
    assert rounds[t..][0] == rounds[t] && rounds[t..][1..] == rounds[t + 1..];
    RoundProgress(hash, m, b, concurrency, rounds[t]);
  }

  // ----- the loop itself

  function Backoff(attempt: nat): nat {
    200 * PowerOfTwo(attempt)
  }

  class Downloader {
    const hash: Hasher
    const manifest: Manifest
    const jobId: Bytes
    const bitmap: ChunkBitmap
    var disk: Disk

    ghost predicate Valid()
      reads this, bitmap
    {
      Fits(manifest, bitmap.View()) && Sound(hash, manifest, disk, bitmap.View())
    }

    /** Nothing is assumed of the files a disk starts with. */
    constructor (hash: Hasher, manifest: Manifest, jobId: Bytes, disk: Disk)
      requires |manifest.chunkHashes| == manifest.chunkCount < U32_LIMIT
      ensures Valid() && fresh(bitmap) && bitmap.View() == Empty(manifest.chunkCount)
      ensures this.disk == disk && this.manifest == manifest && this.hash == hash
    {
      this.hash := hash;
      this.manifest := manifest;
      this.jobId := jobId;
      this.disk := disk;
      this.bitmap := new ChunkBitmap(manifest.chunkCount);
    }

    /** One request over a fresh connection; the bytes returned are verified. */
    method AskPeer(i: nat, f: Fetch) returns (r: Result<Bytes>)
      requires i < |manifest.chunkHashes| && i < U32_LIMIT
      ensures r == if f.Answered? then Accept(hash, manifest, i, f.wire) else Failure(IoError)
    {
      if f.Unreachable? {
        return Failure(IoError);
      }
      var stream := new Stream(f.wire);
      r := RequestChunk(stream, hash, manifest, jobId, i);
    }

    /** Persist, then mark. */
    method Keep(i: nat, data: Bytes, write: Write) returns (r: Outcome)
      requires Valid() && i < manifest.chunkCount && !bitmap.bits[i] && Matches(hash, manifest, i, data)
      modifies this, bitmap
      ensures Valid()
      ensures r == if write.Done? then Pass else Fail(IoError)
      ensures disk == AfterWrite(old(disk), manifest.fileId, i, data, write)
      ensures bitmap.View() == if write.Done? then Marked(old(bitmap.View()), i) else old(bitmap.View())
    {
      SoundWrite(hash, manifest, disk, bitmap.View(), i, data, write);
      disk := AfterWrite(disk, manifest.fileId, i, data, write);
      if !write.Done? {
        return Fail(IoError);
      }
      var _ := bitmap.MarkComplete(i);
      return Pass;
    }

    /** Verify, then persist, then mark. */
    method DownloadChunk(i: nat, f: Fetch) returns (r: Outcome)
      requires Valid() && i < manifest.chunkCount && !bitmap.bits[i]
      modifies this, bitmap
      ensures Valid()
      ensures r.Pass? <==> Wins(hash, manifest, i, f)
      ensures f.Answered? && Accept(hash, manifest, i, f.wire).Failure? ==>
        r == Fail(Accept(hash, manifest, i, f.wire).error)
      ensures disk == AfterFetch(hash, manifest, i, old(disk), f)
      ensures bitmap.View() == if r.Pass? then Marked(old(bitmap.View()), i) else old(bitmap.View())
    {
      var data := AskPeer(i, f);
      if data.Failure? {
        return Fail(data.error);
      }
      AcceptedIff(hash, manifest, i, f.wire, data.value);
      r := Keep(i, data.value, f.write);
    }

    /** Tries the peers in turn until one serves the chunk. */
    method TryPeers(i: nat, fetches: seq<Fetch>) returns (succeeded: bool, tried: nat)
      requires Valid() && i < manifest.chunkCount && !bitmap.bits[i]
      modifies this, bitmap
      ensures Valid() && tried <= |fetches|
      ensures !succeeded ==> tried == |fetches|
      ensures succeeded <==> AttemptWins(hash, manifest, i, Peers(fetches))
      ensures bitmap.View() == if succeeded then Marked(old(bitmap.View()), i) else old(bitmap.View())
    {
      tried := 0;
      while tried < |fetches|
        invariant Valid() && tried <= |fetches|
        invariant bitmap.View() == old(bitmap.View())
        invariant forall p :: 0 <= p < tried ==> !Wins(hash, manifest, i, fetches[p])
      {
        var r := DownloadChunk(i, fetches[tried]);
        tried := tried + 1;
        if r.Pass? {
          assert Wins(hash, manifest, i, Peers(fetches).fetches[tried - 1]);
          return true, tried;
        }
      }
      return false, tried;
    }

    /** Up to three attempts, each with up to five peers and a pause if it fails. */
    method RunTask(i: nat, task: seq<Attempt>) returns (tried: nat, slept: nat)
      requires Valid() && i < manifest.chunkCount && !bitmap.bits[i] && IsTask(task)
      modifies this, bitmap
      ensures Valid()
      ensures tried <= 15 && slept <= 1400
      ensures var won := TaskWins(hash, manifest, i, task);
        && bitmap.View() == (if won then Marked(old(bitmap.View()), i) else old(bitmap.View()))
        && (slept == 1400 <==> !won)
        && (!won ==> tried == FetchCount(task))
      ensures forall a: nat :: FirstWin(hash, manifest, i, task, a) ==> slept == [0, 200, 600][a]
    {
      tried, slept := 0, 0;
      for a := 0 to ATTEMPTS
        invariant Valid() && bitmap.View() == old(bitmap.View())
        invariant tried == FetchCount(task[..a]) <= a * TOP_PEERS && slept == Backoff(a) - 200
        invariant forall k :: 0 <= k < a ==> !AttemptWins(hash, manifest, i, task[k])
      {
        assert task[..a + 1][..a] == task[..a];
        if task[a].Peers? && |task[a].fetches| > 0 {
          var succeeded, n := TryPeers(i, task[a].fetches);
          tried := tried + n;
          if succeeded {
            assert AttemptWins(hash, manifest, i, task[a]);
            return;
          }
        }
        slept := slept + Backoff(a);
      }
      assert task[..ATTEMPTS] == task;
    }

    /** The tasks of a round touch different chunks. */
    method RunRound(concurrency: nat, round: Round) returns (tried: nat)
      requires Valid()
      modifies this, bitmap
      ensures Valid() && tried <= 30 * concurrency
      ensures bitmap.View() == AfterRound(hash, manifest, old(bitmap.View()), concurrency, round)
    {
      tried := 0;
      var missing := bitmap.Missing();
      var targets := Truncate(missing, concurrency * 2);
      TargetsFit(manifest, bitmap.View(), concurrency);
      for t := 0 to |targets|
        invariant Valid() && tried <= 15 * t
        invariant MarkAll(bitmap.View(), Winners(hash, manifest, targets[t..], round))
               == AfterRound(hash, manifest, old(bitmap.View()), concurrency, round)
      {
        var i := targets[t];
        WinnersStep(hash, manifest, bitmap.View(), targets, t, round);
        var had := bitmap.Has(i);
        if had {
          continue;
        }
        var n, _ := RunTask(i, round(i));
        tried := tried + n;
      }
    }

    /** The loop, for as many rounds as the network is given. */
    method Run(concurrency: nat, rounds: seq<Round>) returns (finished: bool)
      requires Valid()
      modifies this, bitmap
      ensures Valid()
      ensures bitmap.View() == AfterRounds(hash, manifest, old(bitmap.View()), concurrency, rounds)
      ensures finished <==> Full(bitmap.View())
      ensures finished ==> HoldsFile(hash, manifest, disk)
    {
      var t := 0;
      assert rounds[0..] == rounds;
      while true
        invariant Valid() && t <= |rounds|
        invariant AfterRounds(hash, manifest, bitmap.View(), concurrency, rounds[t..])
               == AfterRounds(hash, manifest, old(bitmap.View()), concurrency, rounds)
        decreases |rounds| - t
      {
        var complete := bitmap.IsComplete();
        if complete {
          SoundFullHoldsFile(hash, manifest, disk, bitmap.View());
          return true;
        }
        if t == |rounds| {
          return false;
        }
        RoundsStep(hash, manifest, bitmap.View(), concurrency, rounds, t);
        var _ := RunRound(concurrency, rounds[t]);
        t := t + 1;
      }
    }
  }
}
