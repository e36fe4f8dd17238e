/** Delta patches between two versions of a file, and their application to a
  * node's chunk store. */
module DeltaPatches {
  import opened Bytes
  import opened Wrappers
  import opened Sequences
  import opened StableSorts
  import opened Manifests
  import opened ChunkStores

  datatype DeltaPatch = DeltaPatch(
    oldVersion: string, newVersion: string, fileId: string,
    unaltered: set<nat>, changed: map<nat, string>, deleted: set<nat>)

  /** A digest for every chunk. */
  predicate Hashed(m: Manifest) {
    |m.chunkHashes| == m.chunkCount
  }

  /** Chunk `i` has the same digest in both versions. */
  predicate SameChunk(old_: Manifest, new_: Manifest, i: nat)
    requires Hashed(old_) && Hashed(new_) && i < new_.chunkCount
  {
    i < old_.chunkCount && old_.chunkHashes[i] == new_.chunkHashes[i]
  }

  function Delta(old_: Manifest, new_: Manifest): DeltaPatch
    requires Hashed(old_) && Hashed(new_)
  {
    DeltaPatch(
      old_.version, new_.version, new_.fileId,
      set i: nat | i in Below(new_.chunkCount) && SameChunk(old_, new_, i),
      map i: nat | i in Below(new_.chunkCount) && !SameChunk(old_, new_, i) :: new_.chunkHashes[i],
      Below(old_.chunkCount) - Below(new_.chunkCount))
  }

  /** The three parts, index by index. */
  lemma DeltaParts(old_: Manifest, new_: Manifest, unaltered: set<nat>, changed: map<nat, string>, deleted: set<nat>)
    requires Hashed(old_) && Hashed(new_)
    requires forall j: nat :: j in unaltered <==> j < new_.chunkCount && SameChunk(old_, new_, j)
    requires forall j: nat :: j in changed <==> j < new_.chunkCount && !SameChunk(old_, new_, j)
    requires forall j: nat :: j in changed ==> changed[j] == new_.chunkHashes[j]
    requires forall j: nat :: j in deleted <==> new_.chunkCount <= j < old_.chunkCount
    ensures DeltaPatch(old_.version, new_.version, new_.fileId, unaltered, changed, deleted) == Delta(old_, new_)
  {
    var d := Delta(old_, new_);
    assert changed.Keys == d.changed.Keys;
    assert unaltered == d.unaltered;
    assert deleted == d.deleted;
  }

  /** Differing file ids make the source panic. */
  method Compute(old_: Manifest, new_: Manifest) returns (p: DeltaPatch)
    requires old_.fileId == new_.fileId
    requires Hashed(old_) && Hashed(new_)
    ensures p == Delta(old_, new_)
    ensures p.oldVersion == old_.version && p.newVersion == new_.version && p.fileId == new_.fileId
    ensures forall i: nat :: i in p.unaltered <==>
      i < old_.chunkCount && i < new_.chunkCount && old_.chunkHashes[i] == new_.chunkHashes[i]
    ensures forall i: nat :: i in p.changed <==> i < new_.chunkCount && i !in p.unaltered
    ensures forall i: nat :: i in p.changed ==> p.changed[i] == new_.chunkHashes[i]
    ensures forall i: nat :: i in p.deleted <==> new_.chunkCount <= i < old_.chunkCount
  {
    var unaltered: set<nat>, changed: map<nat, string>, deleted: set<nat> := {}, map[], {};
    for i := 0 to new_.chunkCount
      invariant forall j: nat :: j in unaltered <==> j < i && SameChunk(old_, new_, j)
      invariant forall j: nat :: j in changed <==> j < i && !SameChunk(old_, new_, j)
      invariant forall j: nat :: j in changed ==> changed[j] == new_.chunkHashes[j]
    {
      if i < old_.chunkCount && old_.chunkHashes[i] == new_.chunkHashes[i] {
        unaltered := unaltered + {i};
      } else {
        changed := changed[i := new_.chunkHashes[i]];
      }
    }
    var i := new_.chunkCount;
    while i < old_.chunkCount
      invariant new_.chunkCount <= i
      invariant i > new_.chunkCount ==> i <= old_.chunkCount
      invariant forall j: nat :: j in deleted <==> new_.chunkCount <= j < i
    {
      deleted := deleted + {i};
      i := i + 1;
    }
    DeltaParts(old_, new_, unaltered, changed, deleted);
    p := DeltaPatch(old_.version, new_.version, new_.fileId, unaltered, changed, deleted);
  }

  /** The listing of a set in ascending order. */
  ghost predicate Ascending(idx: seq<nat>, ids: set<nat>) {
    && Elements(idx) == ids
    && forall t, u :: 0 <= t < u < |idx| ==> idx[t] < idx[u]
  }

  predicate AtMost(a: nat, b: nat) {
    a <= b
  }

  /** Collects the ids in the order the set yields them, then sorts. */
  method SortedIds(ids: set<nat>) returns (idx: seq<nat>)
    ensures Ascending(idx, ids)
  {
    var listed: seq<nat> := [];
    var rest := ids;
    while rest != {}
      invariant rest <= ids && Elements(listed) == ids - rest && NoDuplicates(listed)
    {
      var i :| i in rest;
      assert Elements(listed + [i]) == Elements(listed) + {i};
      assert forall j :: j in listed ==> j in Elements(listed);
      listed := listed + [i];
      rest := rest - {i};
    }
    idx := Sort(AtMost, listed);
    SortIsStable(AtMost, listed);
    SameMembers(AtMost, listed);
    assert Elements(idx) == Elements(listed);
    RearrangedDistinct(listed, idx);
    forall t, u | 0 <= t < u < |idx| ensures idx[t] < idx[u] {
      assert AtMost(idx[t], idx[u]);
    }
  }

  method ChunksToFetch(p: DeltaPatch) returns (idx: seq<nat>)
    ensures Ascending(idx, p.changed.Keys)
  {
    idx := SortedIds(p.changed.Keys);
  }

  method ChunksToDelete(p: DeltaPatch) returns (idx: seq<nat>)
    ensures Ascending(idx, p.deleted)
  {
    idx := SortedIds(p.deleted);
  }

  function VerifyPatchChunk(hash: Hasher, p: DeltaPatch, index: nat, data: Bytes): Outcome {
    if index !in p.changed then Fail(ProtoError)
    else if hash(data) != p.changed[index] then Fail(HashMismatch(index, p.changed[index], hash(data)))
    else Pass
  }

  /** The patch accepts what the new manifest accepts, but only for changed chunks. */
  lemma PatchVerification(hash: Hasher, old_: Manifest, new_: Manifest, index: nat, data: Bytes)
    requires Hashed(old_) && Hashed(new_)
    ensures VerifyPatchChunk(hash, Delta(old_, new_), index, data).Pass? <==>
      && index < new_.chunkCount
      && !SameChunk(old_, new_, index)
      && VerifyChunk(hash, new_, index, data).Pass?
  {
  }

  /** A chunk the patch keeps is refused whatever its bytes are, so also when it
    * is fetched to replace a corrupt copy. */
  lemma KeptChunkIsRefused(hash: Hasher, old_: Manifest, new_: Manifest, index: nat, data: Bytes)
    requires Hashed(old_) && Hashed(new_) && index in Delta(old_, new_).unaltered
    ensures VerifyPatchChunk(hash, Delta(old_, new_), index, data) == Fail(ProtoError)
  {
  }

  // ----- what an update does to a store

  /** The store without these chunks. */
  function Without(disk: Disk, fileId: string, ids: set<nat>): Disk {
    disk - set i: nat | i in ids :: ChunkPath(fileId, i)
  }

  /** The store with these chunks written. */
  function With(disk: Disk, fileId: string, fetched: map<nat, Bytes>): Disk {
    disk + PathMap(fileId, fetched)
  }

  function PathMap(fileId: string, fetched: map<nat, Bytes>): (r: Disk)
    ensures forall i :: i in fetched ==> ChunkPath(fileId, i) in r && r[ChunkPath(fileId, i)] == fetched[i]
    ensures forall p :: p in r ==> exists i :: i in fetched && p == ChunkPath(fileId, i)
  {
    PathsInjective(fileId);
    map i | i in fetched :: ChunkPath(fileId, i) := fetched[i]
  }

  lemma PathsInjective(fileId: string)
    ensures forall i, j :: ChunkPath(fileId, i) == ChunkPath(fileId, j) ==> i == j
  {
    forall i, j | ChunkPath(fileId, i) == ChunkPath(fileId, j) ensures i == j {
      PathsDistinct(fileId, i, fileId, j);
    }
  }

  lemma StoredWithout(disk: Disk, fileId: string, ids: set<nat>, i: nat)
    ensures Stored(Without(disk, fileId, ids), fileId, i) == if i in ids then None else Stored(disk, fileId, i)
  {
    PathsInjective(fileId);
  }

  lemma StoredWith(disk: Disk, fileId: string, fetched: map<nat, Bytes>, i: nat)
    ensures Stored(With(disk, fileId, fetched), fileId, i) ==
      if i in fetched then Some(fetched[i]) else Stored(disk, fileId, i)
  {
    PathsInjective(fileId);
  }

  /** The unaltered chunks that are missing or do not verify. */
  ghost function Corrupt(hash: Hasher, new_: Manifest, disk: Disk, unaltered: set<nat>): set<nat> {
    set i | i in unaltered && !Verifies(hash, new_, disk, i)
  }

  /** The chunks an update fetches: the changed ones and the corrupt ones. */
  ghost function ToFetch(hash: Hasher, old_: Manifest, new_: Manifest, disk: Disk): set<nat>
    requires Hashed(old_) && Hashed(new_)
  {
    var p := Delta(old_, new_);
    p.changed.Keys + Corrupt(hash, new_, Without(disk, new_.fileId, p.deleted), p.unaltered)
  }

  /** Deletes the stale chunks, then writes what was fetched. */
  function Updated(old_: Manifest, new_: Manifest, disk: Disk, fetched: map<nat, Bytes>): Disk
    requires Hashed(old_) && Hashed(new_)
  {
    With(Without(disk, new_.fileId, Delta(old_, new_).deleted), new_.fileId, fetched)
  }

  lemma StoredUpdated(old_: Manifest, new_: Manifest, disk: Disk, fetched: map<nat, Bytes>, i: nat)
    requires Hashed(old_) && Hashed(new_)
    ensures Stored(Updated(old_, new_, disk, fetched), new_.fileId, i) ==
      if i in fetched then Some(fetched[i])
      else if new_.chunkCount <= i < old_.chunkCount then None
      else Stored(disk, new_.fileId, i)
  {
    var p := Delta(old_, new_);
    StoredWith(Without(disk, new_.fileId, p.deleted), new_.fileId, fetched, i);
    StoredWithout(disk, new_.fileId, p.deleted, i);
  }

  /** All that was asked for was fetched, perhaps more, and it verifies. */
  ghost predicate Fetched(hash: Hasher, new_: Manifest, fetched: map<nat, Bytes>, ids: set<nat>) {
    && ids <= fetched.Keys
    && forall i :: i in fetched ==> i < |new_.chunkHashes| && hash(fetched[i]) == new_.chunkHashes[i]
  }

  /** From any disk contents, an update leaves a store that verifies against the new version. */
  lemma UpdateVerifies(hash: Hasher, old_: Manifest, new_: Manifest, disk: Disk, fetched: map<nat, Bytes>)
    requires Hashed(old_) && Hashed(new_)
    requires Fetched(hash, new_, fetched, ToFetch(hash, old_, new_, disk))
    ensures AllVerify(hash, new_, Updated(old_, new_, disk, fetched))
  {
    var p := Delta(old_, new_);
    forall i | 0 <= i < new_.chunkCount
      ensures Verifies(hash, new_, Updated(old_, new_, disk, fetched), i)
    {
      StoredUpdated(old_, new_, disk, fetched, i);
      if i !in fetched {
        assert i in p.unaltered;
        StoredWithout(disk, new_.fileId, p.deleted, i);
      }
    }
  }

  /** Self-healing: the updated store joins to the new version's bytes, whatever
    * the disk held before and whatever chunk size the old version had. */
  lemma UpdateHeals(hash: Hasher, old_: Manifest, new_: Manifest, data: Bytes, disk: Disk, fetched: map<nat, Bytes>)
    requires Hashed(old_) && ManifestOf(hash, new_, data)
    requires Fetched(hash, new_, fetched, ToFetch(hash, old_, new_, disk))
    requires CollisionFree(hash, Compared(Updated(old_, new_, disk, fetched), new_, data))
    ensures Joined(Updated(old_, new_, disk, fetched), new_) == data
  {
    UpdateVerifies(hash, old_, new_, disk, fetched);
    VerifiedDiskIsFile(hash, new_, data, Updated(old_, new_, disk, fetched));
  }

  // ----- composition

  lemma PatchesCompose(a: Manifest, b: Manifest, c: Manifest)
    requires Hashed(a) && Hashed(b) && Hashed(c)
    ensures Delta(a, c).changed.Keys <= Delta(a, b).changed.Keys + Delta(b, c).changed.Keys
    ensures Delta(a, c).deleted <= Delta(a, b).deleted + Delta(b, c).deleted
    ensures Delta(a, b).unaltered * Delta(b, c).unaltered <= Delta(a, c).unaltered
  {
  }

  /** Two stores with the same chunk files and the same other files are equal. */
  lemma SameStore(d: Disk, e: Disk, fileId: string)
    requires forall i: nat :: Stored(d, fileId, i) == Stored(e, fileId, i)
    requires SameElsewhere(d, e, fileId)
    ensures d == e
  {
    forall p ensures p in d <==> p in e
             ensures p in d && p in e ==> d[p] == e[p]
    {
      if i: nat :| p == ChunkPath(fileId, i) {
        assert Stored(d, fileId, i) == Stored(e, fileId, i);
      } else {
        assert Elsewhere(p, fileId);
      }
    }
  }

  /** Not the path of a chunk of this file. */
  ghost predicate Elsewhere(p: string, fileId: string) {
    forall i: nat :: p != ChunkPath(fileId, i)
  }

  ghost predicate SameElsewhere(d: Disk, e: Disk, fileId: string) {
    forall p :: Elsewhere(p, fileId) ==> (p in d <==> p in e) && (p in d && p in e ==> d[p] == e[p])
  }

  lemma UpdatedElsewhere(old_: Manifest, new_: Manifest, disk: Disk, fetched: map<nat, Bytes>)
    requires Hashed(old_) && Hashed(new_)
    ensures SameElsewhere(Updated(old_, new_, disk, fetched), disk, new_.fileId)
  {
  }

  lemma ElsewhereChain(d: Disk, e: Disk, f: Disk, fileId: string)
    requires SameElsewhere(d, e, fileId) && SameElsewhere(e, f, fileId)
    ensures SameElsewhere(d, f, fileId)
  {
  }

  /** Chunk `i` of a verified store is the original chunk. */
  lemma {:induction false} StoredOriginal(hash: Hasher, m: Manifest, data: Bytes, disk: Disk, i: nat,
                                          strings: set<Bytes>)
    requires ManifestOf(hash, m, data) && AllVerify(hash, m, disk) && i < m.chunkCount
    requires CollisionFree(hash, strings) && Compared(disk, m, data) <= strings
    ensures i < |Chunks(data, m.chunkSize)| && Stored(disk, m.fileId, i) == Some(Chunks(data, m.chunkSize)[i])
  {
    assert Verifies(hash, m, disk, i);
    var files := Files(disk, m.fileId, m.chunkCount);
    assert files[i] in Elements(files);
    VerifiedIsOriginal(hash, m, data, i, files[i], strings);
  }

  /** The updates a -> b -> c and a -> c of one disk, with what each fetched. */
  datatype Updates = Updates(
    a: Manifest, b: Manifest, c: Manifest, disk: Disk,
    f1: map<nat, Bytes>, f2: map<nat, Bytes>, f3: map<nat, Bytes>)
  {
    ghost predicate Hashes() {
      Hashed(a) && Hashed(b) && Hashed(c) && a.fileId == b.fileId == c.fileId
    }

    function Middle(): Disk
      requires Hashes()
    {
      Updated(a, b, disk, f1)
    }

    function TwoSteps(): Disk
      requires Hashes()
    {
      Updated(b, c, Middle(), f2)
    }

    function Direct(): Disk
      requires Hashes()
    {
      Updated(a, c, disk, f3)
    }

    ghost predicate Valid(hash: Hasher, data: Bytes) {
      && Hashes() && ManifestOf(hash, c, data)
      && Fetched(hash, b, f1, ToFetch(hash, a, b, disk))
      && Fetched(hash, c, f2, ToFetch(hash, b, c, Middle()))
      && Fetched(hash, c, f3, ToFetch(hash, a, c, disk))
    }
  }

  /** Updating in two steps leaves the store the direct update leaves, chunk by
    * chunk of the final version; beyond it, the stale files that only the
    * middle version covers are gone as well. */
  lemma TwoStepStore(hash: Hasher, data: Bytes, u: Updates, i: nat)
    requires u.Valid(hash, data)
    requires CollisionFree(hash, Compared(u.TwoSteps(), u.c, data) + Compared(u.Direct(), u.c, data))
    ensures var twoSteps := Stored(u.TwoSteps(), u.c.fileId, i);
      var direct := Stored(u.Direct(), u.c.fileId, i);
      if i < u.c.chunkCount || i < u.a.chunkCount || i >= u.b.chunkCount
      then twoSteps == direct
      else twoSteps == None && direct == Stored(u.disk, u.c.fileId, i)
  {
    var strings := Compared(u.TwoSteps(), u.c, data) + Compared(u.Direct(), u.c, data);
    if i < u.c.chunkCount {
      UpdateVerifies(hash, u.b, u.c, u.Middle(), u.f2);
      UpdateVerifies(hash, u.a, u.c, u.disk, u.f3);
      StoredOriginal(hash, u.c, data, u.TwoSteps(), i, strings);
      StoredOriginal(hash, u.c, data, u.Direct(), i, strings);
    } else {
      StoredUpdated(u.a, u.b, u.disk, u.f1, i);
      StoredUpdated(u.b, u.c, u.Middle(), u.f2, i);
      StoredUpdated(u.a, u.c, u.disk, u.f3, i);
    }
  }

  lemma UpdatesElsewhere(u: Updates)
    requires u.Hashes()
    ensures SameElsewhere(u.TwoSteps(), u.disk, u.c.fileId)
    ensures SameElsewhere(u.Direct(), u.disk, u.c.fileId)
  {
    UpdatedElsewhere(u.a, u.b, u.disk, u.f1);
    UpdatedElsewhere(u.b, u.c, u.Middle(), u.f2);
    ElsewhereChain(u.TwoSteps(), u.Middle(), u.disk, u.c.fileId);
    UpdatedElsewhere(u.a, u.c, u.disk, u.f3);
  }

  /** The two stores are equal exactly when no stale file lies beyond both the
    * first and the last version but inside the middle one. */
  lemma PatchesComposeOnStores(hash: Hasher, data: Bytes, u: Updates)
    requires u.Valid(hash, data)
    requires CollisionFree(hash, Compared(u.TwoSteps(), u.c, data) + Compared(u.Direct(), u.c, data))
    ensures u.TwoSteps() == u.Direct() <==>
      forall i: nat :: u.a.chunkCount <= i && u.c.chunkCount <= i < u.b.chunkCount ==>
        Stored(u.disk, u.c.fileId, i).None?
  {
    var d2, d3, fileId := u.TwoSteps(), u.Direct(), u.c.fileId;
    forall i: nat
      ensures if i < u.c.chunkCount || i < u.a.chunkCount || i >= u.b.chunkCount
              then Stored(d2, fileId, i) == Stored(d3, fileId, i)
              else Stored(d2, fileId, i) == None && Stored(d3, fileId, i) == Stored(u.disk, fileId, i)
    {
      TwoStepStore(hash, data, u, i);
    }
    UpdatesElsewhere(u);
    EqualIffNoneStale(d2, d3, u.disk, fileId, u.a.chunkCount, u.b.chunkCount, u.c.chunkCount);
  }

  lemma EqualIffNoneStale(d2: Disk, d3: Disk, disk: Disk, fileId: string, a: nat, b: nat, c: nat)
    requires SameElsewhere(d2, disk, fileId) && SameElsewhere(d3, disk, fileId)
    requires forall i: nat :: i < c || i < a || i >= b ==> Stored(d2, fileId, i) == Stored(d3, fileId, i)
    requires forall i: nat :: a <= i && c <= i < b ==>
      Stored(d2, fileId, i) == None && Stored(d3, fileId, i) == Stored(disk, fileId, i)
    ensures d2 == d3 <==> forall i: nat :: a <= i && c <= i < b ==> Stored(disk, fileId, i).None?
  {
    if forall i: nat :: a <= i && c <= i < b ==> Stored(disk, fileId, i).None? {
      SameStore(d2, d3, fileId);
    }
  }

  /** From an empty version over a one-chunk version to an empty one, on a disk
    * with a stale file at index 0. */
  function StaleUpdates(hash: Hasher): Updates {
    Updates(Build(hash, "f", "1", [], 1), Build(hash, "f", "2", [ZERO], 1), Build(hash, "f", "3", [], 1),
            Store(map[], "f", 0, [ZERO]), map[0 := [ZERO]], map[], map[])
  }

  /** The shape of those updates. */
  ghost predicate OverOneChunk(hash: Hasher, u: Updates) {
    && u.Hashes() && ManifestOf(hash, u.c, [])
    && u.a.chunkCount == u.c.chunkCount == 0 && u.b.chunkCount == 1
    && Stored(u.disk, u.c.fileId, 0).Some?
    && u.f1.Keys == {0} && hash(u.f1[0]) == u.b.chunkHashes[0]
    && u.f2 == map[] && u.f3 == map[]
  }

  lemma StaleManifests(hash: Hasher)
    ensures OverOneChunk(hash, StaleUpdates(hash))
  {
    assert Slice([ZERO], 1, 0) == [ZERO];
  }

  /** With nothing in common, only the changed chunks are fetched. */
  lemma NothingKept(hash: Hasher, old_: Manifest, new_: Manifest, disk: Disk)
    requires Hashed(old_) && Hashed(new_) && (old_.chunkCount == 0 || new_.chunkCount == 0)
    ensures ToFetch(hash, old_, new_, disk) == Below(new_.chunkCount)
  {
    var p := Delta(old_, new_);
    assert p.unaltered == {} && p.changed.Keys == Below(new_.chunkCount);
  }

  /** Everything asked of two updates and a direct one holds, and they differ. */
  ghost predicate SetsApart(hash: Hasher, u: Updates) {
    && u.Valid(hash, [])
    && CollisionFree(hash, Compared(u.TwoSteps(), u.c, []) + Compared(u.Direct(), u.c, []))
    && u.TwoSteps() != u.Direct()
  }

  lemma OverOneChunkApart(hash: Hasher, u: Updates)
    requires OverOneChunk(hash, u)
    ensures SetsApart(hash, u)
  {
    assert Compared(u.TwoSteps(), u.c, []) == {} && Compared(u.Direct(), u.c, []) == {};
    NothingKept(hash, u.a, u.b, u.disk);
    NothingKept(hash, u.b, u.c, u.Middle());
    NothingKept(hash, u.a, u.c, u.disk);
    StoredUpdated(u.b, u.c, u.Middle(), u.f2, 0);
    StoredUpdated(u.a, u.c, u.disk, u.f3, 0);
  }

  /** The direct update leaves that file. */
  lemma StaleFileSetsUpdatesApart(hash: Hasher)
    ensures SetsApart(hash, StaleUpdates(hash))
  {
    StaleManifests(hash);
    OverOneChunkApart(hash, StaleUpdates(hash));
  }

  // ----- minimality

  /** The store holds exactly the old version's chunks. */
  ghost predicate ExactStore(hash: Hasher, m: Manifest, disk: Disk) {
    && AllVerify(hash, m, disk)
    && forall i: nat :: i >= m.chunkCount ==> Stored(disk, m.fileId, i).None?
  }

  ghost predicate AgreeOutside(d: Disk, e: Disk, fileId: string, ids: set<nat>) {
    forall i: nat :: i !in ids ==> Stored(d, fileId, i) == Stored(e, fileId, i)
  }

  /** Replacing the chunks `ids` can turn the old store into one that verifies
    * against the new version exactly when `ids` contains every changed chunk. */
  lemma ChangedIsLeast(hash: Hasher, old_: Manifest, new_: Manifest, data: Bytes, disk: Disk, ids: set<nat>)
    requires Hashed(old_) && ManifestOf(hash, new_, data) && old_.fileId == new_.fileId
    requires ExactStore(hash, old_, disk)
    ensures Delta(old_, new_).changed.Keys <= ids <==>
      exists after :: AllVerify(hash, new_, after) && AgreeOutside(after, disk, new_.fileId, ids)
  {
    var changed := Delta(old_, new_).changed.Keys;
    BuildHashesPieces(hash, new_, data);
    if changed <= ids {
      var fetched := Genuine(new_, data, changed);
      var after := With(disk, new_.fileId, fetched);
      GenuineIsFetched(hash, new_, data, changed);
      WithGenuine(hash, old_, new_, disk, fetched);
      assert AgreeOutside(after, disk, new_.fileId, ids);
    }
    if after :| AllVerify(hash, new_, after) && AgreeOutside(after, disk, new_.fileId, ids) {
      NeedsChanged(hash, old_, new_, disk, after, ids);
    }
  }

  lemma NeedsChanged(hash: Hasher, old_: Manifest, new_: Manifest, disk: Disk, after: Disk, ids: set<nat>)
    requires Hashed(old_) && Hashed(new_) && old_.fileId == new_.fileId && ExactStore(hash, old_, disk)
    requires AllVerify(hash, new_, after) && AgreeOutside(after, disk, new_.fileId, ids)
    ensures Delta(old_, new_).changed.Keys <= ids
  {
    forall i | i in Delta(old_, new_).changed ensures i in ids {
      assert Verifies(hash, new_, after, i);
      if i < old_.chunkCount {
        assert Verifies(hash, old_, disk, i);
      }
    }
  }

  /** The original chunks with these indices. */
  function Genuine(new_: Manifest, data: Bytes, ids: set<nat>): map<nat, Bytes>
    requires new_.chunkSize > 0
  {
    map i | i in ids && i < |Chunks(data, new_.chunkSize)| :: Chunks(data, new_.chunkSize)[i]
  }

  /** A fetch from honest peers is one that verifies. */
  lemma GenuineIsFetched(hash: Hasher, new_: Manifest, data: Bytes, ids: set<nat>)
    requires ManifestOf(hash, new_, data) && ids <= Below(new_.chunkCount)
    ensures Fetched(hash, new_, Genuine(new_, data, ids), ids) && Genuine(new_, data, ids).Keys == ids
  {
    BuildHashesPieces(hash, new_, data);
  }

  /** Writing just the changed chunks is enough. */
  lemma {:induction false} WithGenuine(hash: Hasher, old_: Manifest, new_: Manifest, disk: Disk,
                                       fetched: map<nat, Bytes>)
    requires Hashed(old_) && Hashed(new_) && old_.fileId == new_.fileId
    requires AllVerify(hash, old_, disk)
    requires fetched.Keys == Delta(old_, new_).changed.Keys && Fetched(hash, new_, fetched, fetched.Keys)
    ensures AllVerify(hash, new_, With(disk, new_.fileId, fetched))
    ensures AgreeOutside(With(disk, new_.fileId, fetched), disk, new_.fileId, fetched.Keys)
  {
    var after := With(disk, new_.fileId, fetched);
    forall i: nat
      ensures Stored(after, new_.fileId, i) == if i in fetched then Some(fetched[i]) else Stored(disk, new_.fileId, i)
    {
      StoredWith(disk, new_.fileId, fetched, i);
    }
    forall i | 0 <= i < new_.chunkCount ensures Verifies(hash, new_, after, i) {
      if i !in fetched {
        assert Verifies(hash, old_, disk, i);
      }
    }
  }
}
