/** What a node may claim: a set bit stands for a verified file on its disk. */
module Nodes {
  import opened Bytes
  import opened Sequences
  import opened Bitmaps
  import opened Manifests
  import opened ChunkStores
  import opened Wire

  /** Chunk `i` is on disk with the length and digest the manifest promises. */
  ghost predicate StoredGood(hash: Hasher, m: Manifest, disk: Disk, i: nat) {
    var file := Stored(disk, m.fileId, i);
    i < |m.chunkHashes| && file.Some? && Matches(hash, m, i, file.value)
  }

  /** The file of chunk `i` has the length the manifest promises. */
  predicate RightLength(m: Manifest, disk: Disk, i: nat) {
    Stored(disk, m.fileId, i).Some? && |Stored(disk, m.fileId, i).value| == LengthOf(m, i)
  }

  /** The file of chunk `i` is there, and it is good unless it is too short. */
  ghost predicate GoodUnlessShort(hash: Hasher, m: Manifest, disk: Disk, i: nat) {
    && Stored(disk, m.fileId, i).Some?
    && |Stored(disk, m.fileId, i).value| <= LengthOf(m, i)
    && (RightLength(m, disk, i) ==> StoredGood(hash, m, disk, i))
  }

  /** Every marked chunk is stored as the manifest promises. */
  ghost predicate Sound(hash: Hasher, m: Manifest, disk: Disk, b: Bitmap) {
    && Whole(b) && b.chunkCount == m.chunkCount
    && forall i :: 0 <= i < b.chunkCount && b.bits[i] ==> StoredGood(hash, m, disk, i)
  }

  /** How writing a chunk file can go: it succeeds, it fails with a prefix
    * written, or it fails before the file is touched. */
  datatype Write = Done | Torn(kept: nat) | Refused

  function AfterWrite(disk: Disk, fileId: string, i: nat, data: Bytes, w: Write): Disk {
    match w
    case Done => Store(disk, fileId, i, data)
    case Torn(kept) => Store(disk, fileId, i, Truncate(data, kept))
    case Refused => disk
  }

  /** Whatever becomes of the file of an unmarked chunk, the claim stands; and
    * once verified data has been written the chunk may be marked. */
  lemma SoundWrite(hash: Hasher, m: Manifest, disk: Disk, b: Bitmap, i: nat, data: Bytes, w: Write)
    requires Sound(hash, m, disk, b) && i < b.chunkCount && !b.bits[i]
    ensures Sound(hash, m, AfterWrite(disk, m.fileId, i, data, w), b)
    ensures w.Done? && i < |m.chunkHashes| && Matches(hash, m, i, data) ==>
      Sound(hash, m, AfterWrite(disk, m.fileId, i, data, w), Marked(b, i))
  {
    var after := AfterWrite(disk, m.fileId, i, data, w);
    forall j: nat ensures j != i ==> Stored(after, m.fileId, j) == Stored(disk, m.fileId, j) {
      StoreElsewhere(disk, m.fileId, i, data, j);
      if w.Torn? {
        StoreElsewhere(disk, m.fileId, i, Truncate(data, w.kept), j);
      }
    }
    MarkedEffect(b, i);
  }

  /** Whatever file the manifest was built from, the disk joins to it, unless
    * two of the strings compared share a digest. */
  ghost predicate HoldsFile(hash: Hasher, m: Manifest, disk: Disk) {
    forall data ::
      ManifestOf(hash, m, data) && CollisionFree(hash, Compared(disk, m, data)) ==> Joined(disk, m) == data
  }

  ghost predicate AllGood(hash: Hasher, m: Manifest, disk: Disk) {
    forall i :: 0 <= i < m.chunkCount ==> StoredGood(hash, m, disk, i)
  }

  predicate AllRightLength(m: Manifest, disk: Disk) {
    forall i :: 0 <= i < m.chunkCount ==> RightLength(m, disk, i)
  }

  /** A node whose bitmap is complete has all chunks, */
  lemma SoundFullIsGood(hash: Hasher, m: Manifest, disk: Disk, b: Bitmap)
    requires Sound(hash, m, disk, b) && Full(b)
    ensures AllGood(hash, m, disk)
  {
    CompleteIffNothingMissing(b);
    forall i | 0 <= i < m.chunkCount ensures StoredGood(hash, m, disk, i) {
      assert Holds(b, i);
    }
  }

  /** and so the whole file. */
  lemma SoundFullHoldsFile(hash: Hasher, m: Manifest, disk: Disk, b: Bitmap)
    requires Sound(hash, m, disk, b) && Full(b)
    ensures HoldsFile(hash, m, disk)
  {
    SoundFullIsGood(hash, m, disk, b);
    GoodHoldsFile(hash, m, disk);
  }

  lemma GoodHoldsFile(hash: Hasher, m: Manifest, disk: Disk)
    requires AllGood(hash, m, disk)
    ensures HoldsFile(hash, m, disk)
  {
    forall i | 0 <= i < m.chunkCount ensures Verifies(hash, m, disk, i) {
      assert StoredGood(hash, m, disk, i);
    }
    forall data | ManifestOf(hash, m, data) && CollisionFree(hash, Compared(disk, m, data))
      ensures Joined(disk, m) == data
    {
      VerifiedDiskIsFile(hash, m, data, disk);
    }
  }
}
