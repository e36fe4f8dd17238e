/** The usual start of a distribution: one node that has the whole file. */
module Seeds {
  import opened Bytes
  import opened Wrappers
  import opened Sequences
  import opened Bitmaps
  import opened Manifests
  import opened ChunkStores
  import opened Nodes
  import opened NodeSteps
  import opened JobStates
  import opened Protocol

  /** A disk with these chunk files. */
  function Spread(fileId: string, pieces: seq<Bytes>): Disk {
    if |pieces| == 0 then map[]
    else Store(Spread(fileId, pieces[..|pieces| - 1]), fileId, |pieces| - 1, pieces[|pieces| - 1])
  }

  lemma {:induction false} SpreadStored(fileId: string, pieces: seq<Bytes>, i: nat)
    requires i < |pieces|
    ensures Stored(Spread(fileId, pieces), fileId, i) == Some(pieces[i])
    decreases |pieces|
  {
    var last := |pieces| - 1;
    StoreElsewhere(Spread(fileId, pieces[..last]), fileId, last, pieces[last], i);
    if i < last {
      SpreadStored(fileId, pieces[..last], i);
    }
  }

  function AllMarked(chunkCount: nat): (b: Bitmap)
    ensures Whole(b) && Full(b)
  {
    AllOnes(Repeat(true, chunkCount));
    Bitmap(Repeat(true, chunkCount), chunkCount, chunkCount)
  }

  function Seed(m: Manifest, data: Bytes, rackId: string, peerAddr: string): Node
    requires m.chunkSize > 0
  {
    Node(rackId, peerAddr, 0, true, Spread(m.fileId, Chunks(data, m.chunkSize)), AllMarked(m.chunkCount), [], map[])
  }

  lemma SeedIsOk(hash: Hasher, m: Manifest, data: Bytes, rackId: string, peerAddr: string)
    requires ManifestOf(hash, m, data)
    ensures NodeOk(hash, m, Seed(m, data, rackId, peerAddr))
  {
    var n := Seed(m, data, rackId, peerAddr);
    BuildHashesPieces(hash, m, data);
    forall i | 0 <= i < m.chunkCount ensures StoredGood(hash, m, n.disk, i) {
      SpreadStored(m.fileId, Chunks(data, m.chunkSize), i);
      ExpectedLength(hash, m, data, i);
    }
  }

  /** Publishing a file on one seed node is a legal start, so everything proved
    * of runs holds of the runs that begin so. */
  lemma SeededStart(hash: Hasher, m: Manifest, data: Bytes, policy: SchedulingPolicy,
                    id: string, rackId: string, peerAddr: string)
    requires ManifestOf(hash, m, data)
    ensures Initial(hash, World(map[id := Seed(m, data, rackId, peerAddr)], map[], {}, NewJob(m, policy), 0))
  {
    SeedIsOk(hash, m, data, rackId, peerAddr);
    BuildHashesPieces(hash, m, data);
  }
}
