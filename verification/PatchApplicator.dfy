/** Applies a delta patch to the chunk files of one node. */
module PatchApplicators {
  import opened Bytes
  import opened Wrappers
  import opened Sequences
  import opened Manifests
  import opened ChunkStores
  import opened DeltaPatches

  class PatchApplicator {
    var disk: Disk
    const fileId: string

    constructor (disk: Disk, fileId: string)
      ensures this.disk == disk && this.fileId == fileId
    {
      this.disk := disk;
      this.fileId := fileId;
    }

    /** The removal of a stored file in `locked` fails; a missing file is skipped. */
    ghost predicate Blocked(i: nat, locked: set<nat>)
      reads this
    {
      i in locked && Stored(disk, fileId, i).Some?
    }

    method DeleteStaleChunks(patch: DeltaPatch, locked: set<nat>) returns (r: Result<nat>)
      modifies this
      ensures r.Success? <==> forall i :: i in patch.deleted ==> !old(Blocked(i, locked))
      ensures r.Success? ==>
        && disk == Without(old(disk), fileId, patch.deleted)
        && r.value == |set i | i in patch.deleted && Stored(old(disk), fileId, i).Some?|
      ensures r.Failure? ==> r.error == IoError && exists first ::
        && first in patch.deleted && old(Blocked(first, locked))
        && (forall i :: i in patch.deleted && i < first ==> !old(Blocked(i, locked)))
        && disk == Without(old(disk), fileId, set i | i in patch.deleted && i < first)
    {
      var idx := ChunksToDelete(patch);
      ghost var gone: set<nat> := {};
      var count := 0;
      for t := 0 to |idx|
        invariant gone == Elements(idx[..t])
        invariant disk == Without(old(disk), fileId, gone)
        invariant forall i :: i in gone ==> !old(Blocked(i, locked))
        invariant count == |Found(old(disk), fileId, gone)|
      {
        var i := idx[t];
        assert i in Elements(idx);
        assert i !in gone;
        StoredWithout(old(disk), fileId, gone, i);
        WithoutOneMore(old(disk), fileId, gone, i);
        assert Elements(idx[..t + 1]) == gone + {i} by { assert idx[..t + 1] == idx[..t] + [i]; }
        if ChunkPath(fileId, i) in disk {
          if i in locked {
            assert gone == set j | j in patch.deleted && j < i by { AscendingPrefix(idx, patch.deleted, t); }
            return Failure(IoError);
          }
          disk := disk - {ChunkPath(fileId, i)};
          count := count + 1;
        }
        gone := gone + {i};
      }
      assert idx[..|idx|] == idx;
      assert Found(old(disk), fileId, gone) == set i | i in patch.deleted && Stored(old(disk), fileId, i).Some?;
      return Success(count);
    }

    static function Found(disk: Disk, fileId: string, ids: set<nat>): set<nat> {
      set i | i in ids && Stored(disk, fileId, i).Some?
    }

    /** Removing one more file, or finding it missing. */
    static lemma WithoutOneMore(disk: Disk, fileId: string, gone: set<nat>, i: nat)
      requires i !in gone
      ensures Without(disk, fileId, gone) - {ChunkPath(fileId, i)} == Without(disk, fileId, gone + {i})
      ensures Stored(disk, fileId, i).None? ==> Without(disk, fileId, gone) == Without(disk, fileId, gone + {i})
      ensures |Found(disk, fileId, gone + {i})| ==
        |Found(disk, fileId, gone)| + if Stored(disk, fileId, i).Some? then 1 else 0
    {
      var before, after := Found(disk, fileId, gone), Found(disk, fileId, gone + {i});
      assert after == if Stored(disk, fileId, i).Some? then before + {i} else before;
    }

    static lemma AscendingPrefix(idx: seq<nat>, ids: set<nat>, t: nat)
      requires Ascending(idx, ids) && t < |idx|
      ensures Elements(idx[..t]) == set j | j in ids && j < idx[t]
    {
      forall j | j in ids && j < idx[t] ensures j in idx[..t] {
        assert j in Elements(idx);
        var u :| 0 <= u < |idx| && idx[u] == j;
      }
      forall j | j in idx[..t] ensures j in ids && j < idx[t] {
        assert j in Elements(idx);
      }
    }

    /** Reading a file in `unreadable` fails; such a chunk counts as corrupt. */
    method VerifyUnaltered(hash: Hasher, patch: DeltaPatch, manifest: Manifest, unreadable: set<nat>)
      returns (corrupt: seq<nat>)
      requires manifest.fileId == fileId
      requires forall i :: i in patch.unaltered ==> i < |manifest.chunkHashes|
      ensures NoDuplicates(corrupt)
      ensures Elements(corrupt) == Corrupt(hash, manifest, disk, patch.unaltered) + patch.unaltered * unreadable
    {
      corrupt := [];
      var rest := patch.unaltered;
      ghost var seen: set<nat> := {};
      while rest != {}
        invariant rest <= patch.unaltered && seen == patch.unaltered - rest
        invariant NoDuplicates(corrupt)
        invariant Elements(corrupt) == Corrupt(hash, manifest, disk, seen) + seen * unreadable
      {
        var i :| i in rest;
        assert i !in corrupt by { assert i in corrupt ==> i in Elements(corrupt); }
        assert Elements(corrupt + [i]) == Elements(corrupt) + {i};
        var path := ChunkPath(fileId, i);
        if path in disk && i !in unreadable {
          if VerifyChunk(hash, manifest, i, disk[path]).Fail? {
            corrupt := corrupt + [i];
          }
        } else {
          corrupt := corrupt + [i];
        }
        rest := rest - {i};
        seen := seen + {i};
      }
      assert seen == patch.unaltered;
    }
  }

  /** Deleting the stale chunks, checking the rest, and fetching the changed
    * chunks and the reported ones restores the new version, from any disk. */
  lemma ReportHeals(hash: Hasher, old_: Manifest, new_: Manifest, data: Bytes, disk: Disk,
                    unreadable: set<nat>, corrupt: seq<nat>, fetched: map<nat, Bytes>)
    requires Hashed(old_) && ManifestOf(hash, new_, data)
    requires var p := Delta(old_, new_);
      && Elements(corrupt) ==
           Corrupt(hash, new_, Without(disk, new_.fileId, p.deleted), p.unaltered) + p.unaltered * unreadable
      && Fetched(hash, new_, fetched, p.changed.Keys + Elements(corrupt))
    requires CollisionFree(hash, Compared(Updated(old_, new_, disk, fetched), new_, data))
    ensures Joined(Updated(old_, new_, disk, fetched), new_) == data
  {
    UpdateHeals(hash, old_, new_, data, disk, fetched);
  }
}
