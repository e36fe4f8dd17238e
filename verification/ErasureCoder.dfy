/** The coder: splitting a file into shards, encoding in place, restoring in
  * place, and merging. */
module ErasureCoders {
  import opened Bytes
  import opened Wrappers
  import opened Sequences
  import opened ErasureCodes
  import opened Gf256

  /** The shapes the kernel accepts: nonempty shards of one size. */
  ghost predicate WellShaped(shards: seq<Bytes>) {
    && |shards| > 0
    && |shards[0]| > 0
    && Rectangular(shards, |shards[0]|)
  }

  /** The present shards are nonempty and of one size. */
  ghost predicate PresentWellShaped(recv: seq<Option<Bytes>>) {
    exists size: nat :: size > 0 && UniformlySized(recv, size)
  }

  datatype ErasureCoder = ErasureCoder(dataShards: nat, parityShards: nat) {

    predicate Valid() {
      dataShards >= 1 && parityShards >= 1 && dataShards + parityShards <= 256
    }

    function TotalShards(): nat {
      dataShards + parityShards
    }

    static function New(dataShards: nat, parityShards: nat): (r: Result<ErasureCoder>)
      ensures r.Success? <==> 1 <= dataShards && 1 <= parityShards && dataShards + parityShards <= 256
      ensures r.Success? ==> r.value.dataShards == dataShards && r.value.parityShards == parityShards
    {
      var coder := ErasureCoder(dataShards, parityShards);
      if coder.Valid() then Success(coder) else Failure(ErasureError)
    }

    /** The shards the coder makes of its data shards. */
    function Code(data: seq<Bytes>, size: nat): (code: seq<Bytes>)
      requires Valid() && |data| == dataShards && Rectangular(data, size)
      ensures |code| == dataShards + parityShards && Rectangular(code, size) && code[..dataShards] == data
    {
      Encoded(Gf(), Points(), data, size, TotalShards())
    }

    /** The slots after a successful reconstruction. */
    function Restored(recv: seq<Option<Bytes>>, size: nat): (code: seq<Option<Bytes>>)
      requires Valid() && |recv| == TotalShards() && UniformlySized(recv, size)
      requires dataShards <= |Present(recv, 0)|
      ensures |code| == |recv| && forall i :: 0 <= i < |code| ==> code[i].Some? && |code[i].value| == size
      ensures forall i :: 0 <= i < |recv| && recv[i].Some? ==> code[i] == recv[i]
    {
      Reconstructed(Gf(), Points(), recv, size, dataShards)
    }

    /** Writes the parity slots in place. */
    method Encode(shards: array<Bytes>) returns (r: Outcome)
      requires Valid()
      modifies shards
      ensures r.Pass? <==> shards.Length == dataShards + parityShards && WellShaped(old(shards[..]))
      ensures r.Fail? ==> r.error == ErasureError && shards[..] == old(shards[..])
      ensures r.Pass? ==> shards[..] == Code(old(shards[..dataShards]), |old(shards[0])|)
    {
      if shards.Length != TotalShards() {
        return Fail(ErasureError);
      }
      var size := |shards[0]|;
      if size == 0 {
        return Fail(ErasureError);
      }
      for i := 0 to shards.Length
        invariant forall j :: 0 <= j < i ==> |shards[j]| == size
      {
        if |shards[i]| != size {
          return Fail(ErasureError);
        }
      }
      var data := shards[..dataShards];
      for i := dataShards to shards.Length
        invariant shards[..dataShards] == data
        invariant forall j :: dataShards <= j < i ==> shards[j] == CodeShard(Gf(), Points(), data, size, j)
      {
        shards[i] := CodeShard(Gf(), Points(), data, size, i);
      }
      assert shards[..] == Code(data, size);
      return Pass;
    }

    /** Fills the missing slots in place. */
    method Reconstruct(shards: array<Option<Bytes>>) returns (r: Outcome)
      requires Valid()
      modifies shards
      ensures r.Pass? <==>
        && |Present(old(shards[..]), 0)| >= dataShards
        && shards.Length == dataShards + parityShards
        && PresentWellShaped(old(shards[..]))
      ensures r.Fail? ==> r.error == ErasureError && shards[..] == old(shards[..])
      ensures r.Pass? ==> forall size: nat :: UniformlySized(old(shards[..]), size) ==>
        shards[..] == Restored(old(shards[..]), size)
    {
      var present := Present(shards[..], 0);
      if |present| < dataShards || shards.Length != TotalShards() {
        return Fail(ErasureError);
      }
      var recv := shards[..];
      var uniform := PresentSize(recv);
      if uniform.None? {
        return Fail(ErasureError);
      }
      var size := uniform.value;
      OneSize(recv, present[0], size);
      if |present| == shards.Length {
        AllPresent(recv, 0);
        assert recv == Restored(recv, size);
        return Pass;
      }
      FillMissing(shards, size);
      return Pass;
    }

    method FillMissing(shards: array<Option<Bytes>>, size: nat)
      requires Valid() && shards.Length == TotalShards() && UniformlySized(shards[..], size)
      requires dataShards <= |Present(shards[..], 0)|
      modifies shards
      ensures shards[..] == Restored(old(shards[..]), size)
    {
      ghost var restored := Restored(shards[..], size);
      var recv := shards[..];
      var data := Recovered(recv, size);
      for i := 0 to shards.Length
        invariant forall j :: i <= j < shards.Length ==> shards[j] == recv[j]
        invariant forall j :: 0 <= j < i ==> shards[j] == restored[j]
      {
        RestoredAt(recv, size, i);
        if shards[i].None? {
          shards[i] := Some(Shard(data, size, i));
        }
      }
      assert shards[..] == restored;
    }

    /** The data shards, recovered first. */
    function Recovered(recv: seq<Option<Bytes>>, size: nat): (data: seq<Bytes>)
      requires Valid() && |recv| == TotalShards() && UniformlySized(recv, size)
      requires dataShards <= |Present(recv, 0)|
      ensures |data| == dataShards && Rectangular(data, size)
    {
      RecoveredData(Gf(), Points(), recv, size, dataShards)
    }

    /** Shard `i` of the code over `data`. */
    function Shard(data: seq<Bytes>, size: nat, i: nat): Bytes
      requires Valid() && |data| == dataShards && Rectangular(data, size) && i < TotalShards()
    {
      CodeShard(Gf(), Points(), data, size, i)
    }

    lemma {:induction false} RestoredAt(recv: seq<Option<Bytes>>, size: nat, i: nat)
      requires Valid() && |recv| == TotalShards() && UniformlySized(recv, size)
      requires dataShards <= |Present(recv, 0)| && i < |recv|
      ensures Restored(recv, size)[i] ==
        if recv[i].Some? then recv[i] else Some(Shard(Recovered(recv, size), size, i))
    {
    }

    /** A present shard leaves no choice of size. */
    static lemma OneSize(recv: seq<Option<Bytes>>, i: nat, size: nat)
      requires i < |recv| && recv[i].Some? && UniformlySized(recv, size)
      ensures forall other: nat :: UniformlySized(recv, other) ==> other == size
    {
      forall other: nat | UniformlySized(recv, other) ensures other == size {
        assert |recv[i].value| == size;
      }
    }

    /** The size the present shards share, if they share a positive one. */
    static method PresentSize(recv: seq<Option<Bytes>>) returns (r: Option<nat>)
      requires |Present(recv, 0)| > 0
      ensures r.Some? <==> PresentWellShaped(recv)
      ensures r.Some? ==> UniformlySized(recv, r.value)
    {
      var present := Present(recv, 0);
      var size := |recv[present[0]].value|;
      for t := 0 to |present|
        invariant forall u :: 0 <= u < t ==> |recv[present[u]].value| == size > 0
      {
        var len := |recv[present[t]].value|;
        if len == 0 || len != size {
          NotUniform(recv, present[0], present[t]);
          return None;
        }
      }
      SizesAgree(recv, size);
      return Some(size);
    }

    static lemma NotUniform(recv: seq<Option<Bytes>>, i: nat, j: nat)
      requires i < |recv| && j < |recv| && recv[i].Some? && recv[j].Some?
      requires |recv[j].value| == 0 || |recv[i].value| != |recv[j].value|
      ensures !PresentWellShaped(recv)
    {
    }

    static lemma {:induction false} SizesAgree(recv: seq<Option<Bytes>>, size: nat)
      requires forall u :: 0 <= u < |Present(recv, 0)| ==> |recv[Present(recv, 0)[u]].value| == size
      ensures UniformlySized(recv, size)
    {
      forall i | 0 <= i < |recv| && recv[i].Some? ensures |recv[i].value| == size {
        PresentIsAll(recv, 0, i);
      }
    }

    /** `shards` cuts `data` into `dataShards` equal pieces, the last ones
      * zero-padded, and no smaller size would do. */
    ghost predicate IsSplit(data: Bytes, shards: seq<Bytes>, size: nat) {
      && |shards| == dataShards
      && Rectangular(shards, size)
      && (size - 1) * dataShards < |data| <= size * dataShards
      && Flatten(shards) == data + Repeat(ZERO, size * dataShards - |data|)
    }

    /** The first `pos` bytes of the zero-padded data have been cut into `shards`. */
    static ghost predicate Cut(data: Bytes, shards: seq<Bytes>, size: nat, pos: nat) {
      && pos == |shards| * size
      && Rectangular(shards, size)
      && Flatten(shards) == Resize(data, pos, ZERO)
    }

    method SplitIntoShards(data: Bytes) returns (shards: seq<Bytes>)
      requires Valid() && |data| > 0
      ensures |shards| > 0 && IsSplit(data, shards, |shards[0]|)
    {
      var size := (|data| + dataShards - 1) / dataShards;
      CeilingBounds(|data|, dataShards, size);
      shards := [];
      var pos := 0;
      while pos < |data|
        invariant Cut(data, shards, size, pos) && |shards| <= dataShards
        decreases |data| - pos
      {
        var block := Resize(data[pos..Min(pos + size, |data|)], size, ZERO);
        CutBlock(data, shards, block, pos, size);
        LessFromProducts(|shards|, dataShards, size);
        shards := shards + [block];
        pos := pos + size;
      }
      shards, pos := AppendZeroShards(data, shards, size, pos);
      CutIsSplit(data, shards, size, pos);
    }

    /** Exactly `dataShards` pieces, even of very short data. */
    method AppendZeroShards(data: Bytes, pieces: seq<Bytes>, size: nat, end: nat)
      returns (shards: seq<Bytes>, pos: nat)
      requires |data| <= end && Cut(data, pieces, size, end) && |pieces| <= dataShards
      ensures |shards| == dataShards && |data| <= pos && Cut(data, shards, size, pos)
    {
      shards, pos := pieces, end;
      while |shards| < dataShards
        invariant |data| <= pos
        invariant Cut(data, shards, size, pos) && |shards| <= dataShards
      {
        CutPadding(data, shards, pos, size);
        shards := shards + [Repeat(ZERO, size)];
        pos := pos + size;
      }
    }

    lemma CutIsSplit(data: Bytes, shards: seq<Bytes>, size: nat, pos: nat)
      requires |shards| == dataShards && |data| <= pos && Cut(data, shards, size, pos)
      requires (size - 1) * dataShards < |data|
      ensures IsSplit(data, shards, size)
    {
    }

    static lemma CutSnoc(data: Bytes, shards: seq<Bytes>, block: Bytes, pos: nat, size: nat)
      requires Cut(data, shards, size, pos) && |block| == size
      ensures Resize(data, pos, ZERO) + block == Resize(data, pos + size, ZERO) ==>
        Cut(data, shards + [block], size, pos + size)
    {
      FlattenSnoc(shards, block);
      MulSucc(|shards|, size);
    }

    static lemma CutBlock(data: Bytes, shards: seq<Bytes>, block: Bytes, pos: nat, size: nat)
      requires pos < |data| && Cut(data, shards, size, pos)
      requires block == Resize(data[pos..Min(pos + size, |data|)], size, ZERO)
      ensures Cut(data, shards + [block], size, pos + size)
    {
      CutSnoc(data, shards, block, pos, size);
      var piece := data[pos..Min(pos + size, |data|)];
      assert data[..pos] + piece == data[..Min(pos + size, |data|)];
      if pos + size <= |data| {
        assert block == piece;
      } else {
        assert data[..pos] + (piece + Repeat(ZERO, size - |piece|)) == data + Repeat(ZERO, pos + size - |data|);
      }
    }

    static lemma CutPadding(data: Bytes, shards: seq<Bytes>, pos: nat, size: nat)
      requires |data| <= pos && Cut(data, shards, size, pos)
      ensures Cut(data, shards + [Repeat(ZERO, size)], size, pos + size)
    {
      CutSnoc(data, shards, Repeat(ZERO, size), pos, size);
      assert data + Repeat(ZERO, pos - |data|) + Repeat(ZERO, size) == data + Repeat(ZERO, pos + size - |data|);
    }

    static lemma CeilingBounds(n: nat, k: nat, size: nat)
      requires n > 0 && k > 0 && size == (n + k - 1) / k
      ensures size > 0 && (size - 1) * k < n <= size * k
    {
      assert n + k - 1 == size * k + (n + k - 1) % k;
      assert (size - 1) * k == size * k - k;
    }

    /** The present ones among the first `k` slots, joined and cut. */
    static function Merged(shards: seq<Option<Bytes>>, originalLen: nat, k: nat): Bytes {
      var firsts := Truncate(shards, k);
      Truncate(Flatten(Values(firsts)), originalLen)
    }

    static function Values(shards: seq<Option<Bytes>>): seq<Bytes> {
      if |shards| == 0 then []
      else (if shards[0].Some? then [shards[0].value] else []) + Values(shards[1..])
    }

    static lemma {:induction false} ValuesSnoc(shards: seq<Option<Bytes>>, s: Option<Bytes>)
      ensures Values(shards + [s]) == Values(shards) + (if s.Some? then [s.value] else [])
    {
      if |shards| > 0 {
        assert (shards + [s])[1..] == shards[1..] + [s];
        ValuesSnoc(shards[1..], s);
      } else {
        assert (shards + [s])[1..] == [];
      }
    }

    static lemma {:induction false} ValuesOfAll(shards: seq<Option<Bytes>>, values: seq<Bytes>)
      requires |shards| == |values| && forall i :: 0 <= i < |shards| ==> shards[i] == Some(values[i])
      ensures Values(shards) == values
    {
      if |shards| > 0 {
        ValuesOfAll(shards[1..], values[1..]);
      }
    }

    static method MergeShards(shards: seq<Option<Bytes>>, originalLen: nat, k: nat) returns (out: Bytes)
      ensures out == Merged(shards, originalLen, k)
    {
      out := [];
      for i := 0 to Min(k, |shards|)
        invariant out == Flatten(Values(shards[..i]))
      {
        assert shards[..i + 1] == shards[..i] + [shards[i]];
        ValuesSnoc(shards[..i], shards[i]);
        if shards[i].Some? {
          FlattenSnoc(Values(shards[..i]), shards[i].value);
          out := out + shards[i].value;
        } else {
          assert Values(shards[..i]) + [] == Values(shards[..i]);
        }
      }
      out := Truncate(out, originalLen);
    }

    /** The empty slots from `from` on. */
    static ghost function Lost(recv: seq<Option<Bytes>>, from: nat): set<nat> {
      set i | from <= i < |recv| && recv[i].None?
    }

    static lemma LostStep(recv: seq<Option<Bytes>>, from: nat)
      requires from < |recv|
      ensures from !in Lost(recv, from + 1)
      ensures Lost(recv, from) == Lost(recv, from + 1) + if recv[from].None? then {from} else {}
    {
    }

    /** A slot is present or lost. */
    static lemma {:induction false} PresentOrLost(recv: seq<Option<Bytes>>, from: nat)
      requires from <= |recv|
      ensures |Present(recv, from)| + |Lost(recv, from)| == |recv| - from
      decreases |recv| - from
    {
      if from < |recv| {
        LostStep(recv, from);
        PresentOrLost(recv, from + 1);
      } else {
        assert Lost(recv, from) == {};
      }
    }

    /** Any `dataShards` of the shards restore all of them, data and parity, and
      * what was present is left as it was: up to `parityShards` of them may be lost. */
    lemma {:induction false} AnyKRestore(data: seq<Bytes>, size: nat, recv: seq<Option<Bytes>>)
      requires Valid() && |data| == dataShards && Rectangular(data, size)
      requires |recv| == dataShards + parityShards && Erasure(recv, Code(data, size))
      requires |Lost(recv, 0)| <= parityShards
      ensures |Present(recv, 0)| >= dataShards
      ensures |Code(data, size)| == dataShards + parityShards
      ensures forall i :: 0 <= i < |recv| ==> Restored(recv, size)[i] == Some(Code(data, size)[i])
    {
      PresentOrLost(recv, 0);
      GfIsField();
      AnyKSuffice(Gf(), Points(), data, size, recv);
    }

    /** Restoring and merging gives the data shards, end to end. */
    lemma {:induction false} LoseMerge(data: seq<Bytes>, size: nat, recv: seq<Option<Bytes>>)
      requires Valid() && |data| == dataShards && Rectangular(data, size)
      requires Erasure(recv, Code(data, size))
      requires |Present(recv, 0)| >= dataShards
      ensures Merged(Restored(recv, size), size * dataShards, dataShards) == Flatten(data)
    {
      PresentOrLost(recv, 0);
      AnyKRestore(data, size, recv);
      var firsts := Truncate(Restored(recv, size), dataShards);
      ValuesOfAll(firsts, data);
      FlattenLength(data, size);
    }

    /** Splitting, encoding, losing at most `parityShards` shards, restoring and
      * merging gives the data back. */
    lemma {:induction false} SplitEncodeLoseMerge(data: Bytes, shards: seq<Bytes>, size: nat, recv: seq<Option<Bytes>>)
      requires Valid() && IsSplit(data, shards, size)
      requires |recv| == dataShards + parityShards && Erasure(recv, Code(shards, size))
      requires |Lost(recv, 0)| <= parityShards
      ensures |Present(recv, 0)| >= dataShards
      ensures Merged(Restored(recv, size), |data|, dataShards) == data
    {
      PresentOrLost(recv, 0);
      LoseMerge(shards, size, recv);
    }

    /** Merging the split undoes it. */
    lemma SplitMerge(data: Bytes, shards: seq<Bytes>, wrapped: seq<Option<Bytes>>, size: nat)
      requires IsSplit(data, shards, size)
      requires |wrapped| == |shards| && forall i :: 0 <= i < |shards| ==> wrapped[i] == Some(shards[i])
      ensures Merged(wrapped, |data|, dataShards) == data
    {
      ValuesOfAll(wrapped, shards);
      assert Truncate(wrapped, dataShards) == wrapped;
    }
  }
}
