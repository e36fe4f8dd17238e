/** Peer selection and rarity, over the node entries in the order the tracker's
  * map yields them. */
module Schedulers {
  import opened Sequences
  import opened Bitmaps
  import opened StableSorts

  /** The tracker's record of one node. `lastSeen` is in milliseconds. */
  datatype NodeInfo = NodeInfo(
    nodeId: string, rackId: string, peerAddr: string,
    bitmap: Bitmap, uploadBw: nat, lastSeen: nat)

  datatype CandidatePeer = CandidatePeer(nodeId: string, peerAddr: string, rackId: string, uploadBw: nat)

  function Candidate(ns: NodeInfo): CandidatePeer {
    CandidatePeer(ns.nodeId, ns.peerAddr, ns.rackId, ns.uploadBw)
  }

  /** Reading the bitmaps of the other nodes does not panic. */
  ghost predicate ReadableFor(entries: seq<NodeInfo>, requester: string, chunk: nat) {
    forall t :: 0 <= t < |entries| && entries[t].nodeId != requester ==> Readable(entries[t].bitmap, chunk)
  }

  /** Another node that holds the chunk. */
  predicate OtherHolder(ns: NodeInfo, requester: string, chunk: nat)
    requires ns.nodeId != requester ==> Readable(ns.bitmap, chunk)
  {
    ns.nodeId != requester && Holds(ns.bitmap, chunk)
  }

  /** The other holders, in order. */
  function Candidates(entries: seq<NodeInfo>, requester: string, chunk: nat): (peers: seq<CandidatePeer>)
    requires ReadableFor(entries, requester, chunk)
  {
    if |entries| == 0 then [] else
      (if OtherHolder(entries[0], requester, chunk) then [Candidate(entries[0])] else [])
      + Candidates(entries[1..], requester, chunk)
  }

  predicate FasterFirst(a: CandidatePeer, b: CandidatePeer) {
    a.uploadBw >= b.uploadBw
  }

  /** Same rack before others, then by bandwidth. */
  function LocalFirst(rack: string): (CandidatePeer, CandidatePeer) -> bool {
    (a: CandidatePeer, b: CandidatePeer) =>
      if (a.rackId == rack) == (b.rackId == rack) then FasterFirst(a, b) else a.rackId == rack
  }

  // ----- the two selectors

  /** Filters and maps the entries one by one. */
  method Collect(entries: seq<NodeInfo>, requester: string, chunk: nat) returns (peers: seq<CandidatePeer>)
    requires ReadableFor(entries, requester, chunk)
    ensures peers == Candidates(entries, requester, chunk)
  {
    peers := [];
    ghost var all := Candidates(entries, requester, chunk);
    assert entries[0..] == entries;
    for t := 0 to |entries|
      invariant all == peers + Candidates(entries[t..], requester, chunk)
    {
      CandidatesStep(entries, requester, chunk, t);
      Shift(peers, Candidate(entries[t]), Candidates(entries[t + 1..], requester, chunk));
      if OtherHolder(entries[t], requester, chunk) {
        peers := peers + [Candidate(entries[t])];
      }
    }
    assert Candidates(entries[|entries|..], requester, chunk) == [];
  }

  lemma Shift(done: seq<CandidatePeer>, p: CandidatePeer, rest: seq<CandidatePeer>)
    ensures done + ([p] + rest) == done + [p] + rest
  {
  }

  method RarityFirst(entries: seq<NodeInfo>, requester: string, chunk: nat, topN: nat)
    returns (peers: seq<CandidatePeer>)
    requires ReadableFor(entries, requester, chunk)
    ensures peers == Truncate(Sort(FasterFirst, Candidates(entries, requester, chunk)), topN)
    ensures DistinctIds(entries) ==> BestChoice(FasterFirst, entries, requester, chunk, topN, peers)
  {
    peers := Collect(entries, requester, chunk);
    FasterIsPreorder();
    if DistinctIds(entries) {
      SelectionIsBest(FasterFirst, entries, requester, chunk, topN);
    }
    peers := Sort(FasterFirst, peers);
    peers := Truncate(peers, topN);
  }

  predicate IsLocal(rack: string, p: CandidatePeer) {
    p.rackId == rack
  }

  /** The peers on the requester's rack, or those elsewhere. */
  function Group(rack: string, local: bool, all: seq<CandidatePeer>): (g: seq<CandidatePeer>)
    ensures forall p :: p in g ==> IsLocal(rack, p) == local
  {
    if |all| == 0 then [] else
      (if IsLocal(rack, all[0]) == local then [all[0]] else []) + Group(rack, local, all[1..])
  }

  /** `group` has collected its part of `all` up to `rest`. */
  ghost predicate Grouped(rack: string, local: bool, all: seq<CandidatePeer>,
                          group: seq<CandidatePeer>, rest: seq<CandidatePeer>)
  {
    Group(rack, local, all) == group + Group(rack, local, rest)
  }

  lemma GroupStep(rack: string, local: bool, all: seq<CandidatePeer>,
                  group: seq<CandidatePeer>, p: CandidatePeer, rest: seq<CandidatePeer>)
    requires Grouped(rack, local, all, group, [p] + rest)
    ensures Grouped(rack, local, all, if IsLocal(rack, p) == local then group + [p] else group, rest)
  {
    assert ([p] + rest)[1..] == rest;
  }

  /** The candidates from entry `t` on. */
  lemma {:induction false} CandidatesStep(entries: seq<NodeInfo>, requester: string, chunk: nat, t: nat)
    requires ReadableFor(entries, requester, chunk) && t < |entries|
    ensures Candidates(entries[t..], requester, chunk) ==
      if OtherHolder(entries[t], requester, chunk)
      then [Candidate(entries[t])] + Candidates(entries[t + 1..], requester, chunk)
      else Candidates(entries[t + 1..], requester, chunk)
  {
    assert entries[t..][1..] == entries[t + 1..];
    var rest := Candidates(entries[t + 1..], requester, chunk);
    assert [] + rest == rest;
  }

  method Partition(entries: seq<NodeInfo>, requester: string, rack: string, chunk: nat)
    returns (local: seq<CandidatePeer>, remote: seq<CandidatePeer>)
    requires ReadableFor(entries, requester, chunk)
    ensures local == Group(rack, true, Candidates(entries, requester, chunk))
    ensures remote == Group(rack, false, Candidates(entries, requester, chunk))
  {
    local, remote := [], [];
    ghost var all := Candidates(entries, requester, chunk);
    assert entries[0..] == entries;
    for t := 0 to |entries|
      invariant Grouped(rack, true, all, local, Candidates(entries[t..], requester, chunk))
      invariant Grouped(rack, false, all, remote, Candidates(entries[t..], requester, chunk))
    {
      var ns := entries[t];
      CandidatesStep(entries, requester, chunk, t);
      if ns.nodeId == requester || !Holds(ns.bitmap, chunk) {
        continue;
      }
      var peer := Candidate(ns);
      GroupStep(rack, true, all, local, peer, Candidates(entries[t + 1..], requester, chunk));
      GroupStep(rack, false, all, remote, peer, Candidates(entries[t + 1..], requester, chunk));
      if ns.rackId == rack {
        local := local + [peer];
      } else {
        remote := remote + [peer];
      }
    }
  }

  method TopologyAware(entries: seq<NodeInfo>, requester: string, rack: string, chunk: nat, topN: nat)
    returns (peers: seq<CandidatePeer>)
    requires ReadableFor(entries, requester, chunk)
    ensures peers == Truncate(Sort(LocalFirst(rack), Candidates(entries, requester, chunk)), topN)
    ensures DistinctIds(entries) ==> BestChoice(LocalFirst(rack), entries, requester, chunk, topN, peers)
  {
    LocalIsPreorder(rack);
    if DistinctIds(entries) {
      SelectionIsBest(LocalFirst(rack), entries, requester, chunk, topN);
    }
    var local, remote := Partition(entries, requester, rack, chunk);
    local := Sort(FasterFirst, local);
    remote := Sort(FasterFirst, remote);
    PartitionedSort(rack, Candidates(entries, requester, chunk));
    peers := Truncate(local + remote, topN);
  }

  lemma FasterIsPreorder()
    ensures TotalPreorder(FasterFirst)
  {
  }

  lemma LocalIsPreorder(rack: string)
    ensures TotalPreorder(LocalFirst(rack))
  {
  }

  /** Sorting the two groups apart and joining them is one stable sort. */
  lemma {:induction false} PartitionedSort(rack: string, all: seq<CandidatePeer>)
    ensures Sort(FasterFirst, Group(rack, true, all)) + Sort(FasterFirst, Group(rack, false, all))
         == Sort(LocalFirst(rack), all)
  {
    var ls, rs := Group(rack, true, all), Group(rack, false, all);
    var sl, sr := Sort(FasterFirst, ls), Sort(FasterFirst, rs);
    FasterIsPreorder();
    LocalIsPreorder(rack);
    SortIsStable(FasterFirst, ls);
    SortIsStable(FasterFirst, rs);
    SortIsStable(LocalFirst(rack), all);
    SameMembers(FasterFirst, ls);
    SameMembers(FasterFirst, rs);
    JoinOrdered(rack, sl, sr);
    forall x ensures Ties(LocalFirst(rack), x, sl + sr) == Ties(LocalFirst(rack), x, all) {
      JoinTies(rack, x, all, sl, sr);
    }
    StableSortUnique(LocalFirst(rack), sl + sr, Sort(LocalFirst(rack), all));
  }

  /** Joining the groups keeps the order among equals, if sorting each did. */
  lemma {:induction false} JoinTies(rack: string, x: CandidatePeer, all: seq<CandidatePeer>,
                                    sl: seq<CandidatePeer>, sr: seq<CandidatePeer>)
    requires forall p :: p in sl ==> IsLocal(rack, p)
    requires forall p :: p in sr ==> !IsLocal(rack, p)
    requires Ties(FasterFirst, x, sl) == Ties(FasterFirst, x, Group(rack, true, all))
    requires Ties(FasterFirst, x, sr) == Ties(FasterFirst, x, Group(rack, false, all))
    ensures Ties(LocalFirst(rack), x, sl + sr) == Ties(LocalFirst(rack), x, all)
  {
    FilterAppend(y => Tied(LocalFirst(rack), x, y), sl, sr);
    GroupTies(rack, x, sl, true);
    GroupTies(rack, x, sr, false);
    SplitTies(rack, x, all);
  }

  lemma JoinOrdered(rack: string, sl: seq<CandidatePeer>, sr: seq<CandidatePeer>)
    requires Ordered(FasterFirst, sl) && Ordered(FasterFirst, sr)
    requires forall p :: p in sl ==> IsLocal(rack, p)
    requires forall p :: p in sr ==> !IsLocal(rack, p)
    ensures Ordered(LocalFirst(rack), sl + sr)
  {
    var s, le := sl + sr, LocalFirst(rack);
    forall i, j | 0 <= i < j < |s| ensures le(s[i], s[j]) {
      assert i < |sl| ==> s[i] in sl;
      assert i >= |sl| ==> s[i] in sr;
      assert j < |sl| ==> s[j] in sl;
      assert j >= |sl| ==> s[j] in sr;
    }
  }

  /** Within one group the two orders tie alike; across groups nothing ties. */
  lemma {:induction false} GroupTies(rack: string, x: CandidatePeer, s: seq<CandidatePeer>, local: bool)
    requires forall p :: p in s ==> IsLocal(rack, p) == local
    ensures Ties(LocalFirst(rack), x, s) == if IsLocal(rack, x) == local then Ties(FasterFirst, x, s) else []
  {
    if |s| > 0 {
      assert s[0] in s;
      assert forall p :: p in s[1..] ==> p in s;
      GroupTies(rack, x, s[1..], local);
    }
  }

  lemma {:induction false} SplitTies(rack: string, x: CandidatePeer, all: seq<CandidatePeer>)
    ensures Ties(LocalFirst(rack), x, all) == Ties(FasterFirst, x, Group(rack, IsLocal(rack, x), all))
  {
    if |all| > 0 {
      var rest := Group(rack, IsLocal(rack, x), all[1..]);
      SplitTies(rack, x, all[1..]);
      TiesCons(FasterFirst, x, all[0], rest);
      assert [] + rest == rest;
      assert [] + Ties(FasterFirst, x, rest) == Ties(FasterFirst, x, rest);
      TiesCons(LocalFirst(rack), x, all[0], all[1..]);
      assert all == [all[0]] + all[1..];
    }
  }

  lemma TiesCons(le: (CandidatePeer, CandidatePeer) -> bool, x: CandidatePeer, p: CandidatePeer, s: seq<CandidatePeer>)
    ensures Ties(le, x, [p] + s) == (if Tied(le, x, p) then [p] else []) + Ties(le, x, s)
  {
    assert ([p] + s)[1..] == s;
  }

  // ----- what a selection is worth

  /** Every entry of the tracker's map has its own node id. */
  ghost predicate DistinctIds(entries: seq<NodeInfo>) {
    forall t, u :: 0 <= t < u < |entries| ==> entries[t].nodeId != entries[u].nodeId
  }

  ghost predicate DistinctPeers(peers: seq<CandidatePeer>) {
    forall i, j :: 0 <= i < j < |peers| ==> peers[i].nodeId != peers[j].nodeId
  }

  /** `p` describes another holder of the chunk. */
  ghost predicate Eligible(entries: seq<NodeInfo>, requester: string, chunk: nat, p: CandidatePeer)
    requires ReadableFor(entries, requester, chunk)
  {
    exists ns :: ns in entries && ns.nodeId != requester && Holds(ns.bitmap, chunk) && p == Candidate(ns)
  }

  /** The positions from `from` on of the other holders. */
  ghost function HolderPositions(entries: seq<NodeInfo>, requester: string, chunk: nat, from: nat): set<nat>
    requires ReadableFor(entries, requester, chunk)
  {
    set t | from <= t < |entries| && entries[t].nodeId != requester && Holds(entries[t].bitmap, chunk)
  }

  /** The selection is a best choice: as many distinct other holders as asked
    * for, best first, and none left out outranks one taken. */
  ghost predicate BestChoice(le: (CandidatePeer, CandidatePeer) -> bool, entries: seq<NodeInfo>,
                             requester: string, chunk: nat, topN: nat, peers: seq<CandidatePeer>)
    requires ReadableFor(entries, requester, chunk)
  {
    && |peers| == Min(topN, |HolderPositions(entries, requester, chunk, 0)|)
    && DistinctPeers(peers)
    && Ordered(le, peers)
    && (forall p :: p in peers ==> Eligible(entries, requester, chunk, p))
    && (forall p, q :: p in peers && Eligible(entries, requester, chunk, q) && q !in peers ==> le(p, q))
  }

  lemma {:induction false} CandidatesAreEligible(entries: seq<NodeInfo>, requester: string, chunk: nat)
    requires ReadableFor(entries, requester, chunk)
    ensures forall p :: p in Candidates(entries, requester, chunk) <==> Eligible(entries, requester, chunk, p)
  {
    if |entries| > 0 {
      CandidatesAreEligible(entries[1..], requester, chunk);
      forall p ensures p in Candidates(entries, requester, chunk) <==> Eligible(entries, requester, chunk, p) {
        if Eligible(entries[1..], requester, chunk, p) {
          var ns :| ns in entries[1..] && OtherHolder(ns, requester, chunk) && p == Candidate(ns);
          assert ns in entries;
        }
        if ns :| ns in entries && OtherHolder(ns, requester, chunk) && p == Candidate(ns) {
          assert ns == entries[0] || ns in entries[1..];
        }
        assert entries[0] in entries;
      }
    }
  }

  /** There are as many candidates as other holders. */
  lemma {:induction false} CandidateCount(entries: seq<NodeInfo>, requester: string, chunk: nat)
    requires ReadableFor(entries, requester, chunk)
    ensures |Candidates(entries, requester, chunk)| == |HolderPositions(entries, requester, chunk, 0)|
  {
    CandidateCountFrom(entries, requester, chunk, 0);
    assert entries[0..] == entries;
  }

  lemma HolderPositionsStep(entries: seq<NodeInfo>, requester: string, chunk: nat, from: nat)
    requires ReadableFor(entries, requester, chunk) && from < |entries|
    ensures var next := HolderPositions(entries, requester, chunk, from + 1);
      && from !in next
      && HolderPositions(entries, requester, chunk, from) ==
           if OtherHolder(entries[from], requester, chunk) then next + {from} else next
  {
  }

  lemma {:induction false} CandidateCountFrom(entries: seq<NodeInfo>, requester: string, chunk: nat, from: nat)
    requires from <= |entries| && ReadableFor(entries, requester, chunk)
    ensures |Candidates(entries[from..], requester, chunk)| == |HolderPositions(entries, requester, chunk, from)|
    decreases |entries| - from
  {
    if from < |entries| {
      CandidateCountFrom(entries, requester, chunk, from + 1);
      CandidatesStep(entries, requester, chunk, from);
      HolderPositionsStep(entries, requester, chunk, from);
    } else {
      assert HolderPositions(entries, requester, chunk, from) == {};
    }
  }

  lemma {:induction false} CandidatesDistinct(entries: seq<NodeInfo>, requester: string, chunk: nat)
    requires ReadableFor(entries, requester, chunk) && DistinctIds(entries)
    ensures DistinctPeers(Candidates(entries, requester, chunk))
  {
    if |entries| > 0 {
      var rest := Candidates(entries[1..], requester, chunk);
      CandidatesDistinct(entries[1..], requester, chunk);
      CandidatesAreEligible(entries[1..], requester, chunk);
      forall j | 0 <= j < |rest| ensures entries[0].nodeId != rest[j].nodeId {
        assert rest[j] in rest;
        var ns :| ns in entries[1..] && OtherHolder(ns, requester, chunk) && rest[j] == Candidate(ns);
        var u :| 0 <= u < |entries[1..]| && entries[1..][u] == ns;
        assert entries[u + 1] == ns;
      }
    }
  }

  /** Sorting by any preorder and truncating makes a best choice. */
  lemma {:induction false} SelectionIsBest(le: (CandidatePeer, CandidatePeer) -> bool, entries: seq<NodeInfo>,
                        requester: string, chunk: nat, topN: nat)
    requires TotalPreorder(le)
    requires ReadableFor(entries, requester, chunk) && DistinctIds(entries)
    ensures BestChoice(le, entries, requester, chunk, topN,
                       Truncate(Sort(le, Candidates(entries, requester, chunk)), topN))
  {
    var all := Candidates(entries, requester, chunk);
    var sorted := Sort(le, all);
    CandidateCount(entries, requester, chunk);
    CandidatesAreEligible(entries, requester, chunk);
    CandidatesDistinct(entries, requester, chunk);
    SortIsStable(le, all);
    SameMembers(le, all);
    PeersStayDistinct(all, sorted);
    TakenOutrankLeft(le, sorted, topN);
  }

  lemma TakenOutrankLeft(le: (CandidatePeer, CandidatePeer) -> bool, sorted: seq<CandidatePeer>, topN: nat)
    requires Ordered(le, sorted)
    ensures var peers := Truncate(sorted, topN);
      && (forall p :: p in peers ==> p in sorted)
      && (forall p, q :: p in peers && q in sorted && q !in peers ==> le(p, q))
  {
    var peers := Truncate(sorted, topN);
    forall p, q | p in peers && q in sorted && q !in peers ensures le(p, q) {
      var i :| 0 <= i < |peers| && peers[i] == p;
      var j :| 0 <= j < |sorted| && sorted[j] == q;
      assert sorted[i] == p;
      assert forall t :: 0 <= t < |peers| ==> sorted[t] == peers[t] && peers[t] in peers;
    }
  }

  lemma PeersStayDistinct(a: seq<CandidatePeer>, b: seq<CandidatePeer>)
    requires multiset(a) == multiset(b) && DistinctPeers(a)
    ensures DistinctPeers(b)
  {
    assert NoDuplicates(a);
    RearrangedDistinct(a, b);
    forall i, j | 0 <= i < j < |b| ensures b[i].nodeId != b[j].nodeId {
      assert b[i] in multiset(b) && b[j] in multiset(b);
      assert b[i] in a && b[j] in a;
    }
  }

  // ----- rarity

  /** How many entries hold chunk `i`. */
  function Holders(entries: seq<NodeInfo>, i: nat): (n: nat)
    requires forall t :: 0 <= t < |entries| ==> Readable(entries[t].bitmap, i)
    ensures n <= |entries|
  {
    if |entries| == 0 then 0 else
      (if Holds(entries[0].bitmap, i) then 1 else 0) + Holders(entries[1..], i)
  }

  /** Every entry's bitmap covers the job's `n` chunks. */
  ghost predicate WholeEntries(entries: seq<NodeInfo>, n: nat) {
    forall t :: 0 <= t < |entries| ==> Whole(entries[t].bitmap) && entries[t].bitmap.chunkCount == n
  }

  function HolderCounts(entries: seq<NodeInfo>, n: nat): (counts: seq<nat>)
    requires WholeEntries(entries, n)
    ensures |counts| == n
  {
    seq(n, i requires 0 <= i < n => Holders(entries, i))
  }

  method ReplicaCounts(entries: seq<NodeInfo>, n: nat) returns (counts: seq<nat>)
    requires WholeEntries(entries, n)
    ensures counts == HolderCounts(entries, n)
  {
    var tally := new nat[n](_ => 0);
    for t := 0 to |entries|
      invariant forall i :: 0 <= i < n ==> tally[i] + Holders(entries[t..], i) == Holders(entries, i)
    {
      assert entries[t..][1..] == entries[t + 1..];
      for i := 0 to n
        invariant forall j :: 0 <= j < i ==> tally[j] + Holders(entries[t + 1..], j) == Holders(entries, j)
        invariant forall j :: i <= j < n ==> tally[j] + Holders(entries[t..], j) == Holders(entries, j)
      {
        if Holds(entries[t].bitmap, i) {
          tally[i] := tally[i] + 1;
        }
      }
    }
    counts := tally[..];
  }

  function CompletedCounts(entries: seq<NodeInfo>): seq<nat> {
    seq(|entries|, t requires 0 <= t < |entries| => entries[t].bitmap.complete)
  }

  /** Conservation: counting by chunk and counting by node agree. */
  lemma {:induction false} ReplicaConservation(entries: seq<NodeInfo>, n: nat)
    requires WholeEntries(entries, n)
    ensures Sum(HolderCounts(entries, n)) == Sum(CompletedCounts(entries))
  {
    if |entries| == 0 {
      SumZeros(HolderCounts(entries, n));
    } else {
      var rest := HolderCounts(entries[1..], n);
      ReplicaConservation(entries[1..], n);
      AddOnes(rest, entries[0].bitmap.bits, HolderCounts(entries, n));
      assert CompletedCounts(entries)[1..] == CompletedCounts(entries[1..]);
    }
  }

  lemma {:induction false} SumZeros(s: seq<nat>)
    requires forall i :: 0 <= i < |s| ==> s[i] == 0
    ensures Sum(s) == 0
  {
    if |s| > 0 {
      SumZeros(s[1..]);
    }
  }

  lemma {:induction false} AddOnes(a: seq<nat>, bits: seq<bool>, b: seq<nat>)
    requires |a| == |bits| == |b|
    requires forall i :: 0 <= i < |a| ==> b[i] == a[i] + if bits[i] then 1 else 0
    ensures Sum(b) == Sum(a) + Ones(bits)
  {
    if |a| > 0 {
      AddOnes(a[1..], bits[1..], b[1..]);
    }
  }

  /** A chunk and how many nodes hold it. */
  datatype Ranked = Ranked(chunk: nat, holders: nat)

  predicate RarerFirst(a: Ranked, b: Ranked) {
    a.holders <= b.holders
  }

  /** A chunk outside the counts ranks as held by none. */
  function Rank(counts: seq<nat>, missing: seq<nat>): (ranked: seq<Ranked>)
    ensures |ranked| == |missing|
  {
    seq(|missing|, t requires 0 <= t < |missing| =>
      Ranked(missing[t], if missing[t] < |counts| then counts[missing[t]] else 0))
  }

  /** The missing chunks, rarest first, each with the number of nodes that hold
    * it, and as missing lists them among equally rare ones. */
  method RarityOrder(entries: seq<NodeInfo>, n: nat, missing: seq<nat>) returns (ranked: seq<Ranked>)
    requires WholeEntries(entries, n)
    ensures multiset(ChunksOf(ranked)) == multiset(missing)
    ensures forall r :: r in ranked ==> r.holders == |HoldingEntries(entries, r.chunk, 0)|
    ensures forall s, t :: 0 <= s < t < |ranked| ==>
      |HoldingEntries(entries, ranked[s].chunk, 0)| <= |HoldingEntries(entries, ranked[t].chunk, 0)|
    ensures forall c: nat :: HeldBy(entries, n, c, ChunksOf(ranked)) == HeldBy(entries, n, c, missing)
    ensures IsStableSort(RarerFirst, Rank(HolderCounts(entries, n), missing), ranked)
    ensures ranked == Sort(RarerFirst, Rank(HolderCounts(entries, n), missing))
  {
    var counts := ReplicaCounts(entries, n);
    ranked := [];
    for t := 0 to |missing|
      invariant ranked == Rank(counts, missing)[..t]
    {
      ranked := ranked + [Ranked(missing[t], if missing[t] < |counts| then counts[missing[t]] else 0)];
    }
    assert ranked == Rank(counts, missing);
    RankedHolders(entries, n, missing);
    RarityOrderIsStable(counts, missing);
    SameMembers(RarerFirst, Rank(counts, missing));
    RarestFirst(entries, n, missing);
    ranked := Sort(RarerFirst, ranked);
  }

  /** The chunks of the list that exactly `c` entries hold, in order. */
  ghost function HeldBy(entries: seq<NodeInfo>, n: nat, c: nat, chunks: seq<nat>): seq<nat>
    requires WholeEntries(entries, n)
  {
    if |chunks| == 0 then []
    else (if |HoldingEntries(entries, chunks[0], 0)| == c then [chunks[0]] else [])
         + HeldBy(entries, n, c, chunks[1..])
  }

  /** The holder counts the ranking carries are those of the entries. */
  ghost predicate CountsHolders(entries: seq<NodeInfo>, n: nat, ranked: seq<Ranked>)
    requires WholeEntries(entries, n)
  {
    forall r :: r in ranked ==> r.holders == |HoldingEntries(entries, r.chunk, 0)|
  }

  /** Chunks with one count are those that tie. */
  lemma {:induction false} HeldByTies(entries: seq<NodeInfo>, n: nat, x: Ranked, ranked: seq<Ranked>)
    requires WholeEntries(entries, n) && CountsHolders(entries, n, ranked)
    ensures HeldBy(entries, n, x.holders, ChunksOf(ranked)) == ChunksOf(Ties(RarerFirst, x, ranked))
  {
    if |ranked| > 0 {
      var rest := ranked[1..];
      assert ranked[0] in ranked && forall r :: r in rest ==> r in ranked;
      HeldByTies(entries, n, x, rest);
      assert ranked == [ranked[0]] + rest;
      ChunksOfCons(ranked[0], rest);
      assert ChunksOf(ranked)[1..] == ChunksOf(rest);
      ChunksOfCons(ranked[0], Ties(RarerFirst, x, rest));
      assert [] + Ties(RarerFirst, x, rest) == Ties(RarerFirst, x, rest);
      assert [] + ChunksOf(Ties(RarerFirst, x, rest)) == ChunksOf(Ties(RarerFirst, x, rest));
    }
  }

  /** Rarest first, and as listed among equally rare ones. */
  lemma {:induction false} RarestFirst(entries: seq<NodeInfo>, n: nat, missing: seq<nat>)
    requires WholeEntries(entries, n)
    ensures var ranked := Sort(RarerFirst, Rank(HolderCounts(entries, n), missing));
      && (forall s, t :: 0 <= s < t < |ranked| ==>
            |HoldingEntries(entries, ranked[s].chunk, 0)| <= |HoldingEntries(entries, ranked[t].chunk, 0)|)
      && forall c: nat :: HeldBy(entries, n, c, ChunksOf(ranked)) == HeldBy(entries, n, c, missing)
  {
    var given := Rank(HolderCounts(entries, n), missing);
    var ranked := Sort(RarerFirst, given);
    RankedHolders(entries, n, missing);
    RarityOrderIsStable(HolderCounts(entries, n), missing);
    SameMembers(RarerFirst, given);
    forall s, t | 0 <= s < t < |ranked|
      ensures |HoldingEntries(entries, ranked[s].chunk, 0)| <= |HoldingEntries(entries, ranked[t].chunk, 0)|
    {
      assert ranked[s] in ranked && ranked[t] in ranked;
    }
    assert ChunksOf(given) == missing;
    forall c: nat ensures HeldBy(entries, n, c, ChunksOf(ranked)) == HeldBy(entries, n, c, missing) {
      HeldByTies(entries, n, Ranked(0, c), ranked);
      HeldByTies(entries, n, Ranked(0, c), given);
    }
  }

  /** The positions from `from` on of the entries that hold chunk `i`. */
  ghost function HoldingEntries(entries: seq<NodeInfo>, i: nat, from: nat): set<nat>
    requires forall t :: 0 <= t < |entries| ==> Readable(entries[t].bitmap, i)
  {
    set t | from <= t < |entries| && Holds(entries[t].bitmap, i)
  }

  lemma HoldingEntriesStep(entries: seq<NodeInfo>, i: nat, from: nat)
    requires forall t :: 0 <= t < |entries| ==> Readable(entries[t].bitmap, i)
    requires from < |entries|
    ensures var next := HoldingEntries(entries, i, from + 1);
      && from !in next
      && HoldingEntries(entries, i, from) == if Holds(entries[from].bitmap, i) then next + {from} else next
  {
  }

  lemma {:induction false} HoldersFrom(entries: seq<NodeInfo>, i: nat, from: nat)
    requires forall t :: 0 <= t < |entries| ==> Readable(entries[t].bitmap, i)
    requires from <= |entries|
    ensures Holders(entries[from..], i) == |HoldingEntries(entries, i, from)|
    decreases |entries| - from
  {
    if from < |entries| {
      assert entries[from..][1..] == entries[from + 1..];
      HoldersFrom(entries, i, from + 1);
      HoldingEntriesStep(entries, i, from);
    } else {
      assert HoldingEntries(entries, i, from) == {};
    }
  }

  /** The count a chunk is ranked with is the number of nodes that hold it; of a
    * chunk the job does not have, none do. */
  lemma RankedHolders(entries: seq<NodeInfo>, n: nat, missing: seq<nat>)
    requires WholeEntries(entries, n)
    ensures forall r :: r in Rank(HolderCounts(entries, n), missing) ==>
      r.holders == |HoldingEntries(entries, r.chunk, 0)|
  {
    var ranked := Rank(HolderCounts(entries, n), missing);
    forall r | r in ranked ensures r.holders == |HoldingEntries(entries, r.chunk, 0)| {
      assert entries[0..] == entries;
      if r.chunk < n {
        HoldersFrom(entries, r.chunk, 0);
      } else {
        assert HoldingEntries(entries, r.chunk, 0) == {};
      }
    }
  }

  function ChunksOf(ranked: seq<Ranked>): seq<nat> {
    seq(|ranked|, t requires 0 <= t < |ranked| => ranked[t].chunk)
  }

  /** The order is a stable ascending rearrangement of what is missing. */
  lemma RarityOrderIsStable(counts: seq<nat>, missing: seq<nat>)
    ensures IsStableSort(RarerFirst, Rank(counts, missing), Sort(RarerFirst, Rank(counts, missing)))
    ensures var ranked := Sort(RarerFirst, Rank(counts, missing));
      && multiset(ChunksOf(ranked)) == multiset(missing)
      && forall s, t :: 0 <= s < t < |ranked| ==> ranked[s].holders <= ranked[t].holders
  {
    assert TotalPreorder(RarerFirst);
    SortIsStable(RarerFirst, Rank(counts, missing));
    assert ChunksOf(Rank(counts, missing)) == missing;
    SortChunks(Rank(counts, missing));
  }

  lemma ChunksOfCons(x: Ranked, s: seq<Ranked>)
    ensures ChunksOf([x] + s) == [x.chunk] + ChunksOf(s)
  {
  }

  lemma {:induction false} InsertChunks(x: Ranked, s: seq<Ranked>)
    ensures multiset(ChunksOf(Insert(RarerFirst, x, s))) == multiset{x.chunk} + multiset(ChunksOf(s))
  {
    ChunksOfCons(x, s);
    if |s| > 0 && !RarerFirst(x, s[0]) {
      InsertChunks(x, s[1..]);
      ChunksOfCons(s[0], Insert(RarerFirst, x, s[1..]));
      ChunksOfCons(s[0], s[1..]);
      assert s == [s[0]] + s[1..];
    }
  }

  lemma {:induction false} SortChunks(s: seq<Ranked>)
    ensures multiset(ChunksOf(Sort(RarerFirst, s))) == multiset(ChunksOf(s))
  {
    if |s| > 0 {
      SortChunks(s[1..]);
      InsertChunks(s[0], Sort(RarerFirst, s[1..]));
      ChunksOfCons(s[0], s[1..]);
      assert s == [s[0]] + s[1..];
    }
  }

  /** The entries of the other nodes. */
  function Others(entries: seq<NodeInfo>, requester: string): (others: seq<NodeInfo>)
    ensures forall ns :: ns in others ==> ns in entries
  {
    if |entries| == 0 then [] else
      assert entries == [entries[0]] + entries[1..];
      (if entries[0].nodeId != requester then [entries[0]] else []) + Others(entries[1..], requester)
  }

  /** The requester's own entries that hold chunk `i`. */
  function Own(entries: seq<NodeInfo>, requester: string, i: nat): nat
    requires forall t :: 0 <= t < |entries| ==> Readable(entries[t].bitmap, i)
  {
    if |entries| == 0 then 0 else
      (if entries[0].nodeId == requester && Holds(entries[0].bitmap, i) then 1 else 0)
      + Own(entries[1..], requester, i)
  }

  lemma {:induction false} HoldersElsewhere(entries: seq<NodeInfo>, requester: string, i: nat)
    requires forall ns :: ns in entries ==> Readable(ns.bitmap, i)
    ensures Holders(entries, i) == Holders(Others(entries, requester), i) + Own(entries, requester, i)
  {
    if |entries| > 0 {
      var rest := Others(entries[1..], requester);
      HoldersElsewhere(entries[1..], requester, i);
      assert Others(entries, requester) ==
        if entries[0].nodeId != requester then [entries[0]] + rest else rest;
      assert ([entries[0]] + rest)[1..] == rest;
    }
  }

  lemma {:induction false} OwnNone(entries: seq<NodeInfo>, requester: string, i: nat)
    requires forall t :: 0 <= t < |entries| ==> Readable(entries[t].bitmap, i)
    ensures Own(entries, requester, i) == 0 <==>
      forall ns :: ns in entries && ns.nodeId == requester ==> !Holds(ns.bitmap, i)
  {
    if |entries| > 0 {
      OwnNone(entries[1..], requester, i);
      assert entries[0] in entries;
      assert forall ns :: ns in entries <==> ns == entries[0] || ns in entries[1..];
    }
  }

  lemma {:induction false} OthersWhole(entries: seq<NodeInfo>, n: nat, requester: string)
    requires WholeEntries(entries, n)
    ensures WholeEntries(Others(entries, requester), n)
  {
    var others := Others(entries, requester);
    forall t | 0 <= t < |others| ensures Whole(others[t].bitmap) && others[t].bitmap.chunkCount == n {
      assert others[t] in others;
    }
  }

  /** The tracker shows the requester holding none of these chunks. */
  ghost predicate HoldsNone(entries: seq<NodeInfo>, requester: string, missing: seq<nat>)
    requires forall ns, i :: ns in entries && i in missing ==> Readable(ns.bitmap, i)
  {
    forall ns, i :: ns in entries && ns.nodeId == requester && i in missing ==> !Holds(ns.bitmap, i)
  }

  /** Excluding the requester changes no count of a missing chunk exactly when
    * the tracker shows the requester holding none of them; and then the chunks
    * come in the same order. */
  lemma {:induction false} ExcludingRequester(entries: seq<NodeInfo>, n: nat, requester: string, missing: seq<nat>)
    requires WholeEntries(entries, n)
    requires forall i :: i in missing ==> i < n
    ensures WholeEntries(Others(entries, requester), n)
    ensures var all, others := HolderCounts(entries, n), HolderCounts(Others(entries, requester), n);
      && (Rank(all, missing) == Rank(others, missing) <==> HoldsNone(entries, requester, missing))
      && (HoldsNone(entries, requester, missing) ==>
            ChunksOf(Sort(RarerFirst, Rank(all, missing))) == ChunksOf(Sort(RarerFirst, Rank(others, missing))))
  {
    OthersWhole(entries, n, requester);
    var all, others := HolderCounts(entries, n), HolderCounts(Others(entries, requester), n);
    forall i | i in missing
      ensures all[i] == others[i] <==>
        forall ns :: ns in entries && ns.nodeId == requester ==> !Holds(ns.bitmap, i)
    {
      HoldersElsewhere(entries, requester, i);
      OwnNone(entries, requester, i);
    }
    SameRank(all, others, missing);
  }

  /** Equal ranks are equal counts. */
  lemma SameRank(a: seq<nat>, b: seq<nat>, missing: seq<nat>)
    requires |a| == |b| && forall i :: i in missing ==> i < |a|
    ensures Rank(a, missing) == Rank(b, missing) <==> forall i :: i in missing ==> a[i] == b[i]
  {
    if Rank(a, missing) == Rank(b, missing) {
      forall i | i in missing ensures a[i] == b[i] {
        var u :| 0 <= u < |missing| && missing[u] == i;
        assert Rank(a, missing)[u] == Rank(b, missing)[u];
      }
    }
  }
}
