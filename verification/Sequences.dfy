/** Facts about sequences that the modules share. */
module Sequences {

  function Min(a: int, b: int): (m: int)
    ensures m == a || m == b
    ensures m <= a && m <= b
  {
    if a <= b then a else b
  }

  /** `Vec::truncate`. */
  function Truncate<T>(s: seq<T>, n: nat): (r: seq<T>)
    ensures |r| == Min(n, |s|) && r <= s
  {
    s[..Min(n, |s|)]
  }

  function Repeat<T>(x: T, n: nat): (s: seq<T>)
    ensures |s| == n && forall i :: 0 <= i < n ==> s[i] == x
  {
    seq(n, i => x)
  }

  /** `Vec::resize`. */
  function Resize<T>(s: seq<T>, n: nat, fill: T): (r: seq<T>)
    ensures |r| == n
    ensures |s| <= n ==> s <= r
  {
    if |s| >= n then s[..n] else s + Repeat(fill, n - |s|)
  }

  function Flatten<T>(ss: seq<seq<T>>): seq<T> {
    if |ss| == 0 then [] else ss[0] + Flatten(ss[1..])
  }

  lemma {:induction false} FlattenAppend<T>(a: seq<seq<T>>, b: seq<seq<T>>)
    ensures Flatten(a + b) == Flatten(a) + Flatten(b)
  {
    if |a| == 0 {
      assert a + b == b;
    } else {
      assert (a + b)[1..] == a[1..] + b;
      FlattenAppend(a[1..], b);
    }
  }

  lemma {:induction false} FlattenSnoc<T>(a: seq<seq<T>>, x: seq<T>)
    ensures Flatten(a + [x]) == Flatten(a) + x
  {
    FlattenAppend(a, [x]);
    assert Flatten([x]) == x + Flatten([]);
  }

  /** The blocks of a flattened rectangle sit where they should. */
  lemma {:induction false} FlattenBlock<T>(ss: seq<seq<T>>, size: nat, j: nat)
    requires j < |ss| && forall i :: 0 <= i < |ss| ==> |ss[i]| == size
    ensures |Flatten(ss)| == |ss| * size
    ensures 0 <= j * size <= j * size + size <= |ss| * size
    ensures Flatten(ss)[j * size..j * size + size] == ss[j]
  {
    FlattenLength(ss, size);
    var rest := Flatten(ss[1..]);
    if j > 0 {
      FlattenBlock(ss[1..], size, j - 1);
      assert j * size == size + (j - 1) * size;
      assert Flatten(ss)[j * size..j * size + size] == rest[(j - 1) * size..(j - 1) * size + size];
    } else {
      assert |ss| * size == size + (|ss| - 1) * size;
      assert (|ss| - 1) * size >= 0;
    }
  }

  /** Where the start of a block is read from the flattened rectangle. */
  lemma {:induction false} FlattenPrefix<T>(ss: seq<seq<T>>, size: nat, j: nat, p: seq<T>)
    requires j < |ss| && forall i :: 0 <= i < |ss| ==> |ss[i]| == size
    requires p <= ss[j]
    ensures 0 <= j * size <= j * size + |p| <= |Flatten(ss)|
    ensures Flatten(ss)[j * size..j * size + |p|] == p
  {
    FlattenBlock(ss, size, j);
    SlicePrefix(Flatten(ss), j * size, size, p);
  }

  lemma SlicePrefix<T>(flat: seq<T>, start: nat, size: nat, p: seq<T>)
    requires start + size <= |flat| && p <= flat[start..start + size]
    ensures flat[start..start + |p|] == p
  {
    assert flat[start..start + |p|] == flat[start..start + size][..|p|];
  }

  lemma {:induction false} FlattenLength<T>(ss: seq<seq<T>>, size: nat)
    requires forall i :: 0 <= i < |ss| ==> |ss[i]| == size
    ensures |Flatten(ss)| == |ss| * size
  {
    if |ss| > 0 {
      FlattenLength(ss[1..], size);
      assert |ss| * size == size + (|ss| - 1) * size;
    }
  }

  function Sum(s: seq<nat>): nat {
    if |s| == 0 then 0 else s[0] + Sum(s[1..])
  }

  /** The naturals below `n`. */
  function Below(n: nat): (s: set<nat>)
    ensures forall i: nat :: i in s <==> i < n
    ensures |s| == n
  {
    if n == 0 then {} else Below(n - 1) + {n - 1}
  }

  /** A repetition-free listing has as many entries as elements. */
  ghost predicate NoDuplicates<T(!new)>(s: seq<T>) {
    forall i, j :: 0 <= i < j < |s| ==> s[i] != s[j]
  }

  function Elements<T>(s: seq<T>): (e: set<T>) {
    set x | x in s
  }

  lemma {:induction false} ElementsSize<T(!new)>(s: seq<T>)
    requires NoDuplicates(s)
    ensures |Elements(s)| == |s|
  {
    if |s| > 0 {
      ElementsSize(s[1..]);
      assert s == [s[0]] + s[1..];
      assert s[0] !in s[1..];
      assert Elements(s) == {s[0]} + Elements(s[1..]);
    }
  }

  lemma CountTwice<T>(s: seq<T>, i: nat, j: nat)
    requires i < j < |s| && s[i] == s[j]
    ensures multiset(s)[s[i]] >= 2
  {
    assert s == s[..j] + [s[j]] + s[j + 1..];
    assert s[..j][i] == s[i];
    assert s[i] in multiset(s[..j]);
  }

  lemma {:induction false} CountOnce<T(!new)>(s: seq<T>, x: T)
    requires NoDuplicates(s)
    ensures multiset(s)[x] <= 1
  {
    if |s| > 0 {
      assert s == [s[0]] + s[1..];
      CountOnce(s[1..], x);
      assert s[0] !in s[1..];
      assert s[0] !in multiset(s[1..]);
    }
  }

  /** A rearrangement repeats nothing either. */
  lemma RearrangedDistinct<T(!new)>(a: seq<T>, b: seq<T>)
    requires multiset(a) == multiset(b) && NoDuplicates(a)
    ensures NoDuplicates(b)
  {
    forall i, j | 0 <= i < j < |b| ensures b[i] != b[j] {
      if b[i] == b[j] {
        CountTwice(b, i, j);
        CountOnce(a, b[i]);
      }
    }
  }

  lemma SubsetSize<T>(a: set<T>, b: set<T>)
    requires a <= b
    ensures |a| <= |b|
    ensures |a| == |b| ==> a == b
  {
    assert b == a + (b - a);
  }

  lemma MulMono(a: int, b: int, k: nat)
    requires a <= b
    ensures a * k <= b * k
  {
    assert b * k - a * k == (b - a) * k;
  }

  lemma MulSucc(a: int, k: nat)
    ensures (a + 1) * k == a * k + k
  {
  }

  lemma LessFromProducts(a: nat, b: nat, size: nat)
    requires a * size < b * size
    ensures a < b
  {
    assert (b - a) * size == b * size - a * size;
    assert (b - a) * size > 0;
  }

  /** `slice::chunks`: pieces of `k`, the last one shorter if need be. */
  function Chunks<T>(s: seq<T>, k: nat): (pieces: seq<seq<T>>)
    requires k > 0
    ensures forall t :: 0 <= t < |pieces| ==> 0 < |pieces[t]| <= k
  {
    if |s| == 0 then [] else
      var w := Min(k, |s|);
      [s[..w]] + Chunks(s[w..], k)
  }

  /** Piece `t` is the slice from `t k` to `t k + k`, cut at the end. */
  lemma {:induction false} ChunksSlice<T>(s: seq<T>, k: nat, t: nat)
    requires k > 0 && t < |Chunks(s, k)|
    ensures 0 <= t * k < |s|
    ensures Chunks(s, k)[t] == s[t * k..Min(t * k + k, |s|)]
    decreases t
  {
    if t > 0 {
      ChunksSlice(s[k..], k, t - 1);
      MulSucc(t - 1, k);
      SliceShift(s, k, (t - 1) * k);
    }
  }

  lemma SliceShift<T>(s: seq<T>, k: nat, start: nat)
    requires k <= |s| && start + k < |s|
    ensures s[k..][start..Min(start + k, |s| - k)] == s[start + k..Min(start + k + k, |s|)]
  {
  }

  /** Nothing is left out. */
  lemma {:induction false} ChunksCover<T>(s: seq<T>, k: nat)
    requires k > 0
    ensures Flatten(Chunks(s, k)) == s
    decreases |s|
  {
    if |s| > 0 {
      ChunksCover(s[Min(k, |s|)..], k);
    }
  }

  /** There are as many pieces as it takes. */
  lemma {:induction false} ChunksCount<T>(s: seq<T>, k: nat)
    requires k > 0
    ensures |s| <= |Chunks(s, k)| * k
    ensures |Chunks(s, k)| > 0 ==> (|Chunks(s, k)| - 1) * k < |s|
    decreases |s|
  {
    var n := |Chunks(s, k)|;
    if |s| > 0 {
      ChunksCount(s[Min(k, |s|)..], k);
      assert n * k == k + (n - 1) * k;
      if n > 1 {
        assert (n - 1) * k == k + (n - 2) * k;
      }
    }
  }
}
