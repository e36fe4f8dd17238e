/** Progress of the whole system: a live node that asks live peers the tracker
  * names gets on with every exchange, whatever else happens in between. */
module Exchanges {
  import opened Bytes
  import opened Wrappers
  import opened Sequences
  import opened Bitmaps
  import opened Manifests
  import opened Wire
  import opened Nodes
  import opened Downloaders
  import opened NodeSteps
  import opened Schedulers
  import opened JobStates
  import opened Protocol
  import opened Directories
  import opened ProtocolSafety

  /** After some run, a node takes a chunk from a peer: `wire` is what it receives. */
  datatype Exchange = Exchange(between: seq<Action>, peer: string, chunk: nat, wire: Bytes,
                               order: seq<string>, rack: string, topN: nat)

  /** The tracker names the peer when the node asks it. */
  ghost predicate Names(w: World, id: string, e: Exchange) {
    && Enumerates(e.order, w.job.nodes)
    && (forall x :: x in e.order ==> x in w.job.nodes)
    && ReadableFor(Entries(w.job.nodes, e.order), id, e.chunk)
    && exists p :: p in PeersFor(w.job, e.order, id, e.rack, e.chunk, e.topN) && p.nodeId == e.peer
  }

  /** The node is fetching the chunk, the peer is named and lives, and its chunk
    * server's reply comes through. */
  ghost predicate Enabled(w: World, id: string, e: Exchange) {
    && id in w.nodes && w.nodes[id].alive && Fetches(w.nodes[id], e.chunk)
    && Names(w, id, e)
    && e.peer in w.nodes && w.nodes[e.peer].alive
    && (FileOf(w, e.peer, e.chunk).Some? ==> |FileOf(w, e.peer, e.chunk).value| < U64_LIMIT)
    && e.wire == EncodeReply(FileOf(w, e.peer, e.chunk))
  }

  function Take(id: string, e: Exchange): seq<Action> {
    [Local(id, Receive(e.chunk, e.wire)), Local(id, FinishWrite(e.chunk)), Local(id, Mark(e.chunk))]
  }

  function AfterExchange(hash: Hasher, w: World, id: string, e: Exchange): World {
    Run(hash, Run(hash, w, e.between), Take(id, e))
  }

  function AfterExchanges(hash: Hasher, w: World, id: string, es: seq<Exchange>): World
    decreases |es|
  {
    if es == [] then w else AfterExchanges(hash, AfterExchange(hash, w, id, es[0]), id, es[1..])
  }

  ghost predicate AllEnabled(hash: Hasher, w: World, id: string, es: seq<Exchange>)
    decreases |es|
  {
    es != [] ==>
      && Enabled(Run(hash, w, es[0].between), id, es[0])
      && AllEnabled(hash, AfterExchange(hash, w, id, es[0]), id, es[1..])
  }

  function MissingAt(w: World, id: string): nat
    requires id in w.nodes
  {
    |MissingIn(w.nodes[id].bitmap)|
  }

  // ----- a peer that can be asked is named

  lemma PeerIds(peers: seq<CandidatePeer>) returns (ids: seq<string>)
    requires DistinctPeers(peers)
    ensures NoDuplicates(ids) && |Elements(ids)| == |peers|
    ensures forall id :: id in Elements(ids) <==> exists p :: p in peers && p.nodeId == id
  {
    ids := seq(|peers|, t requires 0 <= t < |peers| => peers[t].nodeId);
    ElementsSize(ids);
    forall id | exists p :: p in peers && p.nodeId == id ensures id in ids {
      var p :| p in peers && p.nodeId == id;
      var t :| 0 <= t < |peers| && peers[t] == p;
      assert ids[t] == id;
    }
  }

  /** Asked for enough peers, the tracker names every other node it knows to hold the
    * chunk: seeds included. */
  lemma {:induction false} HoldersAreNamed(hash: Hasher, w: World, order: seq<string>, requester: string, rack: string,
                                           chunk: nat, topN: nat, id: string)
    requires Inv(hash, w) && Enumerates(order, w.job.nodes) && |order| <= topN
    requires id in w.job.nodes && id != requester
    requires Readable(w.job.nodes[id].bitmap, chunk) && Holds(w.job.nodes[id].bitmap, chunk)
    ensures forall x :: x in order ==> x in w.job.nodes
    ensures ReadableFor(Entries(w.job.nodes, order), requester, chunk)
    ensures exists p :: p in PeersFor(w.job, order, requester, rack, chunk, topN) && p.nodeId == id
  {
    QueriesDoNotPanic(hash, w, order, requester, chunk);
    PeersAreBest(w.job, order, requester, rack, chunk, topN);
    var peers := PeersFor(w.job, order, requester, rack, chunk, topN);
    var holders := set x | x in w.job.nodes && x != requester && Holds(w.job.nodes[x].bitmap, chunk);
    var ids := PeerIds(peers);
    ElementsSize(order);
    SubsetSize(holders, Elements(order));
    assert Elements(ids) <= holders;
    SubsetSize(Elements(ids), holders);
    assert id in Elements(ids);
  }

  /** So a live node that is fetching a chunk can take it from any live node the
    * tracker knows to hold it. */
  lemma {:induction false} KnownHolderServes(hash: Hasher, w: World, id: string, peer: string, chunk: nat,
                                             order: seq<string>, rack: string)
    requires Inv(hash, w) && Enumerates(order, w.job.nodes)
    requires id in w.nodes && w.nodes[id].alive && Fetches(w.nodes[id], chunk)
    requires peer in w.nodes && w.nodes[peer].alive && peer != id
    requires peer in w.job.nodes && Readable(w.job.nodes[peer].bitmap, chunk) && Holds(w.job.nodes[peer].bitmap, chunk)
    ensures FileOf(w, peer, chunk).Some? && |FileOf(w, peer, chunk).value| < U64_LIMIT
    ensures Enabled(w, id, Exchange([], peer, chunk, EncodeReply(FileOf(w, peer, chunk)), order, rack, |order|))
  {
    HoldersAreNamed(hash, w, order, id, rack, chunk, |order|, peer);
    assert Known(w, w.job.nodes[peer], peer);
    MarkedIsBacked(hash, w, peer, chunk);
    LengthFits(w.job.manifest, chunk);
  }

  // ----- one exchange

  lemma NamedIsGood(hash: Hasher, w: World, id: string, e: Exchange)
    requires Inv(hash, w) && Names(w, id, e) && e.peer in w.nodes
    ensures GoodIn(hash, w, e.peer, e.chunk)
  {
    var p :| p in PeersFor(w.job, e.order, id, e.rack, e.chunk, e.topN) && p.nodeId == e.peer;
    QueriesDoNotPanic(hash, w, e.order, id, e.chunk);
    PeersAreBest(w.job, e.order, id, e.rack, e.chunk, e.topN);
    assert Known(w, w.job.nodes[e.peer], e.peer);
    MarkedIsBacked(hash, w, e.peer, e.chunk);
  }

  lemma ReplyWins(hash: Hasher, w: World, id: string, e: Exchange)
    requires Inv(hash, w) && Enabled(w, id, e)
    ensures e.chunk < |w.job.manifest.chunkHashes|
    ensures Wins(hash, w.job.manifest, e.chunk, Answered(e.wire, Done))
  {
    NamedIsGood(hash, w, id, e);
    GoodServes(hash, w.job.manifest, DiskOf(w, e.peer), e.chunk);
  }

  /** The chunk is marked, and one less is missing. */
  lemma {:induction false} ExchangeMarks(hash: Hasher, w: World, id: string, e: Exchange)
    requires Inv(hash, w) && Enabled(w, id, e)
    ensures var after := Run(hash, w, Take(id, e));
      && id in after.nodes && after.nodes[id].bitmap == Marked(w.nodes[id].bitmap, e.chunk)
      && MissingAt(after, id) + 1 == MissingAt(w, id)
  {
    var m, n, f := w.job.manifest, w.nodes[id], Answered(e.wire, Done);
    assert NodeOk(hash, m, n);
    ReplyWins(hash, w, id, e);
    ThreeLocal(hash, w, id, Receive(e.chunk, e.wire), FinishWrite(e.chunk), Mark(e.chunk));
    assert IsFetch(hash, m, e.chunk, f, [Receive(e.chunk, e.wire), FinishWrite(e.chunk), Mark(e.chunk)]);
    FetchIsSteps(hash, m, n, e.chunk, f, [Receive(e.chunk, e.wire), FinishWrite(e.chunk), Mark(e.chunk)]);
    assert Open(n.bitmap, e.chunk);
    MarkedEffect(n.bitmap, e.chunk);
  }

  // ----- many

  lemma {:induction false} OnesWithin(a: seq<bool>, b: seq<bool>)
    requires |a| == |b| && forall i :: 0 <= i < |a| && a[i] ==> b[i]
    ensures Ones(a) <= Ones(b)
  {
    if |a| > 0 {
      OnesWithin(a[1..], b[1..]);
    }
  }

  lemma WithinMissing(a: Bitmap, b: Bitmap)
    requires Within(a, b)
    ensures |MissingIn(b)| <= |MissingIn(a)|
  {
    OnesWithin(a.bits, b.bits);
    MissingComplement(a.bits, 0);
    MissingComplement(b.bits, 0);
    assert a.bits[0..] == a.bits && b.bits[0..] == b.bits;
  }

  lemma {:induction false} RunKeepsProgress(hash: Hasher, w: World, actions: seq<Action>, id: string)
    requires Inv(hash, w) && id in w.nodes && id in Run(hash, w, actions).nodes
    ensures MissingAt(Run(hash, w, actions), id) <= MissingAt(w, id)
  {
    RunKeeps(hash, w, actions);
    assert LaterAt(w, Run(hash, w, actions), id);
    WithinMissing(w.nodes[id].bitmap, Run(hash, w, actions).nodes[id].bitmap);
  }

  lemma {:induction false} OneExchange(hash: Hasher, w: World, id: string, e: Exchange)
    requires Inv(hash, w) && id in w.nodes && Enabled(Run(hash, w, e.between), id, e)
    ensures var after := AfterExchange(hash, w, id, e);
      Inv(hash, after) && id in after.nodes && MissingAt(after, id) + 1 <= MissingAt(w, id)
  {
    var v := Run(hash, w, e.between);
    RunKeeps(hash, w, e.between);
    RunKeepsProgress(hash, w, e.between, id);
    ExchangeMarks(hash, v, id, e);
    RunKeeps(hash, v, Take(id, e));
  }

  lemma {:induction false} ManyExchanges(hash: Hasher, w: World, id: string, es: seq<Exchange>)
    requires Inv(hash, w) && id in w.nodes && AllEnabled(hash, w, id, es)
    ensures var after := AfterExchanges(hash, w, id, es);
      Inv(hash, after) && id in after.nodes && MissingAt(after, id) + |es| <= MissingAt(w, id)
    decreases |es|
  {
    if es != [] {
      OneExchange(hash, w, id, es[0]);
      ManyExchanges(hash, AfterExchange(hash, w, id, es[0]), id, es[1..]);
    }
  }

  /** From every reachable state: there can be no more exchanges than chunks a node
    * misses, whatever happens in between, and that many give it the whole file. */
  lemma {:induction false} ExchangesFinish(hash: Hasher, start: World, actions: seq<Action>, id: string,
                                           es: seq<Exchange>)
    requires Initial(hash, start) && id in Run(hash, start, actions).nodes
    requires AllEnabled(hash, Run(hash, start, actions), id, es)
    ensures var w := Run(hash, start, actions);
      var after := AfterExchanges(hash, w, id, es);
      && id in after.nodes && MissingAt(after, id) + |es| <= MissingAt(w, id)
      && (|es| == MissingAt(w, id) ==>
            Full(after.nodes[id].bitmap) && HoldsFile(hash, after.job.manifest, after.nodes[id].disk))
  {
    var w := Run(hash, start, actions);
    Safe(hash, start, actions);
    ManyExchanges(hash, w, id, es);
    var after := AfterExchanges(hash, w, id, es);
    assert NodeOk(hash, after.job.manifest, after.nodes[id]);
    CompleteIffNothingMissing(after.nodes[id].bitmap);
    if |es| == MissingAt(w, id) {
      SoundFullHoldsFile(hash, after.job.manifest, after.nodes[id].disk, after.nodes[id].bitmap);
    }
  }
}
