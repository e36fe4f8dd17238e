/** Manifests: how a file is cut into chunks, and how a chunk is verified. */
module Manifests {
  import opened Bytes
  import opened Wrappers
  import opened Sequences

  /** SHA-256 with hex encoding; nothing is assumed of it. */
  type Hasher = Bytes -> string

  datatype Manifest = Manifest(
    fileId: string, version: string,
    totalSize: nat, chunkSize: nat, chunkCount: nat,
    chunkHashes: seq<string>)

  /** The sizes for which the ceiling does not overflow a u64. */
  predicate SizesOk(totalSize: nat, chunkSize: nat) {
    0 < chunkSize && totalSize + chunkSize - 1 < U64_LIMIT
  }

  /** The number of chunks it takes, before the cast to u32. */
  function Ceiling(totalSize: nat, chunkSize: nat): nat
    requires 0 < chunkSize
  {
    (totalSize + chunkSize - 1) / chunkSize
  }

  /** The cast keeps the low 32 bits. */
  function ChunksNeeded(totalSize: nat, chunkSize: nat): nat
    requires SizesOk(totalSize, chunkSize)
  {
    Ceiling(totalSize, chunkSize) % U32_LIMIT
  }

  /** The byte range [start, end) of chunk `index`. */
  function ChunkRange(index: nat, chunkSize: nat, totalSize: nat): (int, int) {
    var start := index * chunkSize;
    (start, Min(start + chunkSize, totalSize))
  }

  // ----- chunk arithmetic

  lemma CeilingBounds(totalSize: nat, chunkSize: nat)
    requires 0 < chunkSize
    ensures var q := Ceiling(totalSize, chunkSize);
      && 0 <= q && totalSize <= q * chunkSize
      && (q - 1) * chunkSize < totalSize
      && (q == 0 <==> totalSize == 0)
  {
    var q := Ceiling(totalSize, chunkSize);
    assert totalSize + chunkSize - 1 == q * chunkSize + (totalSize + chunkSize - 1) % chunkSize;
    assert (q - 1) * chunkSize == q * chunkSize - chunkSize;
    if totalSize > 0 && q == 0 {
      assert false;
    }
  }

  /** The ceiling is the only number with these bounds. */
  lemma CeilingUnique(totalSize: nat, chunkSize: nat, n: nat)
    requires 0 < chunkSize
    requires totalSize <= n * chunkSize
    requires n > 0 ==> (n - 1) * chunkSize < totalSize
    ensures n == Ceiling(totalSize, chunkSize)
  {
    CeilingBounds(totalSize, chunkSize);
    var q := Ceiling(totalSize, chunkSize);
    if n > 0 {
      LessFromProducts(n - 1, q, chunkSize);
    }
    if q > 0 {
      LessFromProducts(q - 1, n, chunkSize);
    }
  }

  /** The ranges of the first `count` chunks are nonempty, adjacent, and cover
    * [0, totalSize) exactly. */
  ghost predicate Tiles(totalSize: nat, chunkSize: nat, count: nat) {
    && (forall i :: 0 <= i < count ==>
          ChunkRange(i, chunkSize, totalSize).0 < ChunkRange(i, chunkSize, totalSize).1)
    && (forall i, j :: 0 <= i < count && j == i + 1 && j < count ==>
          ChunkRange(i, chunkSize, totalSize).1 == ChunkRange(j, chunkSize, totalSize).0)
    && (if count == 0 then totalSize == 0 else
          && ChunkRange(0, chunkSize, totalSize).0 == 0
          && ChunkRange(count - 1, chunkSize, totalSize).1 == totalSize)
  }

  lemma RangeInside(totalSize: nat, chunkSize: nat, i: nat)
    requires SizesOk(totalSize, chunkSize) && i < Ceiling(totalSize, chunkSize)
    ensures 0 <= i * chunkSize < totalSize
    ensures i * chunkSize + chunkSize < U64_LIMIT
    ensures i + 1 < Ceiling(totalSize, chunkSize) ==> (i + 1) * chunkSize == i * chunkSize + chunkSize < totalSize
    ensures i + 1 == Ceiling(totalSize, chunkSize) ==> totalSize <= i * chunkSize + chunkSize
  {
    CeilingBounds(totalSize, chunkSize);
    var q := Ceiling(totalSize, chunkSize);
    MulMono(i, q - 1, chunkSize);
    MulSucc(i, chunkSize);
    MulMono(0, i, chunkSize);
    if i + 1 < q {
      MulMono(i + 1, q - 1, chunkSize);
    }
  }

  /** The chunks tile the file exactly when their number fits a u32. */
  lemma TilesIffCountFits(totalSize: nat, chunkSize: nat)
    requires SizesOk(totalSize, chunkSize)
    ensures Tiles(totalSize, chunkSize, ChunksNeeded(totalSize, chunkSize))
       <==> Ceiling(totalSize, chunkSize) < U32_LIMIT
  {
    var q, count := Ceiling(totalSize, chunkSize), ChunksNeeded(totalSize, chunkSize);
    CeilingBounds(totalSize, chunkSize);
    if q < U32_LIMIT {
      forall i | 0 <= i < count
        ensures ChunkRange(i, chunkSize, totalSize).0 < ChunkRange(i, chunkSize, totalSize).1
        ensures i + 1 < count ==>
          ChunkRange(i, chunkSize, totalSize).1 == ChunkRange(i + 1, chunkSize, totalSize).0
      {
        RangeInside(totalSize, chunkSize, i);
      }
      if count > 0 {
        RangeInside(totalSize, chunkSize, count - 1);
      }
    } else if count > 0 {
      RangeInside(totalSize, chunkSize, count - 1);
    }
  }

  /** 2^32 one-byte chunks are counted as none. */
  lemma TruncatedCountDoesNotTile()
    ensures SizesOk(U32_LIMIT, 1) && ChunksNeeded(U32_LIMIT, 1) == 0
    ensures !Tiles(U32_LIMIT, 1, ChunksNeeded(U32_LIMIT, 1))
  {
    TilesIffCountFits(U32_LIMIT, 1);
  }

  /** No step of the arithmetic leaves a u64. */
  lemma RangeFitsU64(totalSize: nat, chunkSize: nat, i: nat)
    requires SizesOk(totalSize, chunkSize) && i < ChunksNeeded(totalSize, chunkSize)
    ensures i * chunkSize < U64_LIMIT && i * chunkSize + chunkSize < U64_LIMIT
  {
    CeilingBounds(totalSize, chunkSize);
    RangeInside(totalSize, chunkSize, i);
  }

  // ----- building and verifying

  function Hashes(hash: Hasher, pieces: seq<Bytes>): (hs: seq<string>)
    ensures |hs| == |pieces|
  {
    seq(|pieces|, i requires 0 <= i < |pieces| => hash(pieces[i]))
  }

  /** The bytes of chunk `i`. */
  function Slice(data: Bytes, chunkSize: nat, i: nat): Bytes
    requires SizesOk(|data|, chunkSize) && i < ChunksNeeded(|data|, chunkSize)
  {
    RangeInside(|data|, chunkSize, i);
    var (start, end) := ChunkRange(i, chunkSize, |data|);
    data[start..end]
  }

  function Build(hash: Hasher, fileId: string, version: string, data: Bytes, chunkSize: nat): (m: Manifest)
    requires SizesOk(|data|, chunkSize)
  {
    var count := ChunksNeeded(|data|, chunkSize);
    Manifest(fileId, version, |data|, chunkSize, count,
             seq(count, i requires 0 <= i < count => hash(Slice(data, chunkSize, i))))
  }

  /** A manifest can be made for every file, id, version and chunk size whose chunk
    * count fits. */
  lemma BuildIsManifestOf(hash: Hasher, fileId: string, version: string, data: Bytes, chunkSize: nat)
    requires SizesOk(|data|, chunkSize)
    ensures var m := Build(hash, fileId, version, data, chunkSize);
      && m.fileId == fileId && m.version == version && m.totalSize == |data| && m.chunkSize == chunkSize
      && (ManifestOf(hash, m, data) <==> Ceiling(|data|, chunkSize) < U32_LIMIT)
  {
  }

  /** `m` was built from `data`, and its chunk count was not truncated. */
  ghost predicate ManifestOf(hash: Hasher, m: Manifest, data: Bytes) {
    && SizesOk(|data|, m.chunkSize)
    && Ceiling(|data|, m.chunkSize) < U32_LIMIT
    && m == Build(hash, m.fileId, m.version, data, m.chunkSize)
  }

  lemma {:induction false} PieceCount(data: Bytes, chunkSize: nat)
    requires 0 < chunkSize
    ensures |Chunks(data, chunkSize)| == Ceiling(|data|, chunkSize)
  {
    ChunksCount(data, chunkSize);
    CeilingUnique(|data|, chunkSize, |Chunks(data, chunkSize)|);
  }

  lemma {:induction false} SliceIsPiece(data: Bytes, chunkSize: nat, i: nat)
    requires SizesOk(|data|, chunkSize) && i < ChunksNeeded(|data|, chunkSize)
    ensures i < |Chunks(data, chunkSize)| && Slice(data, chunkSize, i) == Chunks(data, chunkSize)[i]
  {
    PieceCount(data, chunkSize);
    ChunksSlice(data, chunkSize, i);
  }

  /** The hashes are those of the consecutive pieces of the file. */
  lemma {:induction false} BuildHashesPieces(hash: Hasher, m: Manifest, data: Bytes)
    requires ManifestOf(hash, m, data)
    ensures m.totalSize == |data| && m.chunkCount == |Chunks(data, m.chunkSize)| < U32_LIMIT
    ensures m.chunkHashes == Hashes(hash, Chunks(data, m.chunkSize))
  {
    var pieces := Chunks(data, m.chunkSize);
    PieceCount(data, m.chunkSize);
    forall i | 0 <= i < m.chunkCount ensures m.chunkHashes[i] == hash(pieces[i]) {
      SliceIsPiece(data, m.chunkSize, i);
    }
  }

  /** The length the downloader expects of chunk `i` is that of the piece. */
  lemma {:induction false} ExpectedLength(hash: Hasher, m: Manifest, data: Bytes, i: nat)
    requires ManifestOf(hash, m, data) && i < m.chunkCount
    ensures i < |Chunks(data, m.chunkSize)|
    ensures var (start, end) := ChunkRange(i, m.chunkSize, m.totalSize);
      end - start == |Chunks(data, m.chunkSize)[i]|
  {
    BuildHashesPieces(hash, m, data);
    ChunksSlice(data, m.chunkSize, i);
  }

  function VerifyChunk(hash: Hasher, m: Manifest, index: nat, data: Bytes): (r: Outcome)
    requires index < |m.chunkHashes|
    ensures r.Pass? <==> hash(data) == m.chunkHashes[index]
  {
    if hash(data) != m.chunkHashes[index]
    then Fail(HashMismatch(index, m.chunkHashes[index], hash(data)))
    else Pass
  }

  /** No two of these strings share a digest. */
  ghost predicate CollisionFree(hash: Hasher, strings: set<Bytes>) {
    forall x, y :: x in strings && y in strings && hash(x) == hash(y) ==> x == y
  }

  lemma {:induction false} VerifiedIsOriginal(hash: Hasher, m: Manifest, data: Bytes, i: nat, x: Bytes,
                                              strings: set<Bytes>)
    requires ManifestOf(hash, m, data) && i < m.chunkCount
    requires hash(x) == m.chunkHashes[i]
    requires CollisionFree(hash, strings) && x in strings
    requires Elements(Chunks(data, m.chunkSize)) <= strings
    ensures i < |Chunks(data, m.chunkSize)| && x == Chunks(data, m.chunkSize)[i]
  {
    BuildHashesPieces(hash, m, data);
    var piece := Chunks(data, m.chunkSize)[i];
    assert piece in Elements(Chunks(data, m.chunkSize));
  }

  /** Chunks that verify join to the file. */
  lemma {:induction false} VerifiedJoin(hash: Hasher, m: Manifest, data: Bytes, stored: seq<Bytes>, strings: set<Bytes>)
    requires ManifestOf(hash, m, data) && |stored| == m.chunkCount
    requires forall i :: 0 <= i < |stored| ==> hash(stored[i]) == m.chunkHashes[i]
    requires CollisionFree(hash, strings)
    requires Elements(stored) <= strings && Elements(Chunks(data, m.chunkSize)) <= strings
    ensures Flatten(stored) == data
  {
    BuildHashesPieces(hash, m, data);
    forall i | 0 <= i < |stored| ensures stored[i] == Chunks(data, m.chunkSize)[i] {
      assert stored[i] in Elements(stored);
      VerifiedIsOriginal(hash, m, data, i, stored[i], strings);
    }
    assert stored == Chunks(data, m.chunkSize);
    ChunksCover(data, m.chunkSize);
  }

  // ----- building from a reader

  /** What a reader hands out in reads of these lengths. */
  function ReadPieces(file: Bytes, lens: seq<nat>): (pieces: seq<Bytes>)
    requires Sum(lens) <= |file|
    ensures |pieces| == |lens|
  {
    if |lens| == 0 then [] else [file[..lens[0]]] + ReadPieces(file[lens[0]..], lens[1..])
  }

  /** The first `i` reads have returned `done` and left the reader at `pos`. */
  ghost predicate ReadSoFar(file: Bytes, lens: seq<nat>, i: nat, pos: nat, done: seq<Bytes>)
    requires i <= |lens| && Sum(lens) <= |file|
  {
    && pos + Sum(lens[i..]) <= |file|
    && ReadPieces(file, lens) == done + ReadPieces(file[pos..], lens[i..])
  }

  lemma ReadNext(file: Bytes, lens: seq<nat>, i: nat, pos: nat)
    requires i < |lens| && pos + Sum(lens[i..]) <= |file|
    ensures pos + lens[i] + Sum(lens[i + 1..]) <= |file|
    ensures ReadPieces(file[pos..], lens[i..]) ==
      [file[pos..pos + lens[i]]] + ReadPieces(file[pos + lens[i]..], lens[i + 1..])
  {
    assert lens[i..][1..] == lens[i + 1..];
    assert file[pos..][..lens[i]] == file[pos..pos + lens[i]];
    assert file[pos..][lens[i]..] == file[pos + lens[i]..];
  }

  lemma {:induction false} ReadStep(file: Bytes, lens: seq<nat>, i: nat, pos: nat, done: seq<Bytes>)
    requires i < |lens| && Sum(lens) <= |file| && ReadSoFar(file, lens, i, pos, done)
    ensures pos + lens[i] <= |file|
    ensures ReadSoFar(file, lens, i + 1, pos + lens[i], done + [file[pos..pos + lens[i]]])
  {
    ReadNext(file, lens, i, pos);
    Regroup(done, file[pos..pos + lens[i]], ReadPieces(file[pos + lens[i]..], lens[i + 1..]));
  }

  lemma Regroup(done: seq<Bytes>, x: Bytes, rest: seq<Bytes>)
    ensures done + ([x] + rest) == done + [x] + rest
  {
  }

  /** `lens[i]` is the number of bytes the i-th read returned. */
  method BuildFromFile(hash: Hasher, fileId: string, version: string, file: Bytes, chunkSize: nat, lens: seq<nat>)
    returns (m: Manifest)
    requires SizesOk(|file|, chunkSize)
    requires |lens| == ChunksNeeded(|file|, chunkSize) && Sum(lens) <= |file|
    requires forall i :: 0 <= i < |lens| ==> lens[i] <= chunkSize
    ensures m == Manifest(fileId, version, |file|, chunkSize, |lens|, Hashes(hash, ReadPieces(file, lens)))
  {
    var chunkCount := ChunksNeeded(|file|, chunkSize);
    var hashes: seq<string> := [];
    var pos: nat := 0;
    ghost var done: seq<Bytes> := [];
    for i := 0 to chunkCount
      invariant ReadSoFar(file, lens, i, pos, done)
      invariant hashes == Hashes(hash, done)
    {
      var n := lens[i];
      ReadStep(file, lens, i, pos, done);
      var buf := file[pos..pos + n];
      hashes := hashes + [hash(buf)];
      done := done + [buf];
      pos := pos + n;
    }
    assert done == ReadPieces(file, lens);
    m := Manifest(fileId, version, |file|, chunkSize, chunkCount, hashes);
  }

  /** Every read filled its buffer, up to the end of the file. */
  ghost predicate FullReads(file: Bytes, chunkSize: nat, lens: seq<nat>)
    requires 0 < chunkSize
  {
    && |lens| == |Chunks(file, chunkSize)|
    && forall i :: 0 <= i < |lens| ==> lens[i] == |Chunks(file, chunkSize)[i]|
  }

  lemma {:induction false} FullReadsGivePieces(file: Bytes, chunkSize: nat, lens: seq<nat>)
    requires 0 < chunkSize && Sum(lens) <= |file|
    ensures FullReads(file, chunkSize, lens) <==> ReadPieces(file, lens) == Chunks(file, chunkSize)
    decreases |lens|
  {
    var pieces, chunks := ReadPieces(file, lens), Chunks(file, chunkSize);
    if pieces == chunks {
      assert forall i :: 0 <= i < |lens| ==> |pieces[i]| == |chunks[i]|;
      PieceLengths(file, lens);
    }
    if FullReads(file, chunkSize, lens) && |lens| > 0 {
      FullReadsGivePieces(file[lens[0]..], chunkSize, lens[1..]);
      assert chunks[1..] == Chunks(file[lens[0]..], chunkSize);
      assert FullReads(file[lens[0]..], chunkSize, lens[1..]);
    }
  }

  lemma {:induction false} PieceLengths(file: Bytes, lens: seq<nat>)
    requires Sum(lens) <= |file|
    ensures forall i :: 0 <= i < |lens| ==> |ReadPieces(file, lens)[i]| == lens[i]
  {
    if |lens| > 0 {
      PieceLengths(file[lens[0]..], lens[1..]);
    }
  }

  /** Streaming builds the same manifest exactly when no read is short. */
  lemma {:induction false} StreamingAgrees(hash: Hasher, m: Manifest, file: Bytes, lens: seq<nat>)
    requires ManifestOf(hash, m, file)
    requires |lens| == m.chunkCount && Sum(lens) <= |file|
    requires CollisionFree(hash, Elements(ReadPieces(file, lens)) + Elements(Chunks(file, m.chunkSize)))
    ensures FullReads(file, m.chunkSize, lens) <==>
      m == Manifest(m.fileId, m.version, |file|, m.chunkSize, |lens|, Hashes(hash, ReadPieces(file, lens)))
  {
    var pieces, chunks := ReadPieces(file, lens), Chunks(file, m.chunkSize);
    BuildHashesPieces(hash, m, file);
    FullReadsGivePieces(file, m.chunkSize, lens);
    if Hashes(hash, pieces) == Hashes(hash, chunks) {
      forall i | 0 <= i < |lens| ensures pieces[i] == chunks[i] {
        assert Hashes(hash, pieces)[i] == Hashes(hash, chunks)[i];
        assert pieces[i] in Elements(pieces) && chunks[i] in Elements(chunks);
      }
      assert pieces == chunks;
    }
  }

  /** A digest that tells lengths apart. */
  function LengthDigest(data: Bytes): string {
    Repeat('x', |data|)
  }

  /** One read that returns one byte of a two-byte chunk. */
  lemma ShortReadBreaksStreaming()
    ensures var file, lens := [ZERO, ZERO], [1];
      var m := Build(LengthDigest, "f", "1", file, 2);
      && ManifestOf(LengthDigest, m, file)
      && |lens| == m.chunkCount && Sum(lens) <= |file|
      && m.chunkHashes != Hashes(LengthDigest, ReadPieces(file, lens))
  {
    var file, lens: seq<nat> := [ZERO, ZERO], [1];
    var m := Build(LengthDigest, "f", "1", file, 2);
    BuildHashesPieces(LengthDigest, m, file);
    assert Sum(lens) == 1 + Sum(lens[1..]);
    var pieces := ReadPieces(file, lens);
    assert pieces[0] == file[..1];
    assert Chunks(file, 2)[0] == file[..2];
    assert |Hashes(LengthDigest, pieces)[0]| == 1 && |m.chunkHashes[0]| == 2;
  }
}
