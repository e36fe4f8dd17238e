/** The code the Galois kernel computes. Byte `j` of the `k` data shards fixes
  * the polynomial with `k` coefficients that takes those values at the first
  * `k` points; byte `j` of shard `i` is its value at point `i`. */
module ErasureCodes {
  import opened Wrappers
  import opened Fields
  import opened Polynomials

  /** All shards have `size` bytes. */
  ghost predicate Rectangular<E>(shards: seq<seq<E>>, size: nat) {
    forall i :: 0 <= i < |shards| ==> |shards[i]| == size
  }

  function Column<E>(shards: seq<seq<E>>, size: nat, j: nat): (c: seq<E>)
    requires Rectangular(shards, size) && j < size
    ensures |c| == |shards|
  {
    seq(|shards|, i requires 0 <= i < |shards| => shards[i][j])
  }

  /** The value at `x` of the polynomial through byte `j` of `shards` at `xs`. */
  function Extend<E>(f: Field<E>, xs: seq<E>, shards: seq<seq<E>>, size: nat, j: nat, x: E): E
    requires |xs| == |shards|
    requires Rectangular(shards, size) && j < size
  {
    Eval(f, Interpolate(f, xs, Column(shards, size, j)), x)
  }

  function ExtendRow<E>(f: Field<E>, xs: seq<E>, shards: seq<seq<E>>, size: nat, x: E): (row: seq<E>)
    requires |xs| == |shards|
    requires Rectangular(shards, size)
    ensures |row| == size
  {
    seq(size, j requires 0 <= j < size => Extend(f, xs, shards, size, j, x))
  }

  /** Shard `i` of the code over `data`; the code is systematic. */
  function CodeShard<E>(f: Field<E>, pts: seq<E>, data: seq<seq<E>>, size: nat, i: nat): (s: seq<E>)
    requires |data| <= |pts| && i < |pts|
    requires Rectangular(data, size)
    ensures |s| == size
  {
    if i < |data| then data[i] else ExtendRow(f, pts[..|data|], data, size, pts[i])
  }

  /** All `n` shards. */
  function Encoded<E>(f: Field<E>, pts: seq<E>, data: seq<seq<E>>, size: nat, n: nat): (code: seq<seq<E>>)
    requires |data| <= n <= |pts|
    requires Rectangular(data, size)
    ensures |code| == n && Rectangular(code, size)
    ensures code[..|data|] == data
  {
    seq(n, i requires 0 <= i < n => CodeShard(f, pts, data, size, i))
  }

  /** Every byte of every shard lies on the polynomial of its column. */
  lemma CodeOnPolynomial<E(!new)>(f: Field<E>, pts: seq<E>, data: seq<seq<E>>, size: nat, i: nat, j: nat)
    requires IsField(f) && Distinct(pts)
    requires |data| <= |pts| && i < |pts|
    requires Rectangular(data, size) && j < size
    ensures CodeShard(f, pts, data, size, i)[j] == Extend(f, pts[..|data|], data, size, j, pts[i])
  {
    if i < |data| {
      InterpolateHits(f, pts[..|data|], Column(data, size, j), i);
    }
  }

  // ----- what survives

  /** The indices from `from` on that hold a shard, in order. */
  function Present<T>(recv: seq<Option<T>>, from: nat): (idx: seq<nat>)
    requires from <= |recv|
    ensures forall t :: 0 <= t < |idx| ==> from <= idx[t] < |recv| && recv[idx[t]].Some?
    ensures forall t, u :: 0 <= t < u < |idx| ==> idx[t] < idx[u]
    ensures |idx| <= |recv| - from
    decreases |recv| - from
  {
    if from == |recv| then []
    else if recv[from].Some? then [from] + Present(recv, from + 1)
    else Present(recv, from + 1)
  }

  lemma {:induction false} AllPresent<T>(recv: seq<Option<T>>, from: nat)
    requires from <= |recv|
    ensures |Present(recv, from)| == |recv| - from <==> forall i :: from <= i < |recv| ==> recv[i].Some?
    decreases |recv| - from
  {
    if from < |recv| {
      AllPresent(recv, from + 1);
    }
  }

  lemma {:induction false} PresentIsAll<T>(recv: seq<Option<T>>, from: nat, i: nat)
    requires from <= i < |recv| && recv[i].Some?
    ensures i in Present(recv, from)
    decreases |recv| - from
  {
    if from < i {
      PresentIsAll(recv, from + 1, i);
    }
  }

  ghost predicate UniformlySized<E>(recv: seq<Option<seq<E>>>, size: nat) {
    forall i :: 0 <= i < |recv| && recv[i].Some? ==> |recv[i].value| == size
  }

  function PickPoints<E>(pts: seq<E>, idx: seq<nat>): (xs: seq<E>)
    requires forall t :: 0 <= t < |idx| ==> idx[t] < |pts|
    ensures |xs| == |idx|
  {
    seq(|idx|, t requires 0 <= t < |idx| => pts[idx[t]])
  }

  function PickShards<E>(recv: seq<Option<seq<E>>>, idx: seq<nat>, size: nat): (shards: seq<seq<E>>)
    requires UniformlySized(recv, size)
    requires forall t :: 0 <= t < |idx| ==> idx[t] < |recv| && recv[idx[t]].Some?
    ensures |shards| == |idx| && Rectangular(shards, size)
  {
    seq(|idx|, t requires 0 <= t < |idx| => recv[idx[t]].value)
  }

  /** Shard `i`, kept when present, else recovered from the first `k` present shards. */
  function RecoveredShard<E>(f: Field<E>, pts: seq<E>, recv: seq<Option<seq<E>>>, size: nat, k: nat,
                             i: nat): (s: seq<E>)
    requires i < |recv| <= |pts|
    requires UniformlySized(recv, size)
    requires k <= |Present(recv, 0)|
    ensures |s| == size
  {
    if recv[i].Some? then recv[i].value else
      var idx := Present(recv, 0)[..k];
      ExtendRow(f, PickPoints(pts, idx), PickShards(recv, idx, size), size, pts[i])
  }

  /** The kernel recovers the data shards first, then re-encodes the lost parity. */
  function RecoveredData<E>(f: Field<E>, pts: seq<E>, recv: seq<Option<seq<E>>>, size: nat, k: nat): (data: seq<seq<E>>)
    requires |recv| <= |pts|
    requires UniformlySized(recv, size)
    requires k <= |Present(recv, 0)|
    ensures |data| == k && Rectangular(data, size)
  {
    seq(k, i requires 0 <= i < k => RecoveredShard(f, pts, recv, size, k, i))
  }

  function Reconstructed<E>(f: Field<E>, pts: seq<E>, recv: seq<Option<seq<E>>>, size: nat,
                            k: nat): (code: seq<Option<seq<E>>>)
    requires |recv| <= |pts|
    requires UniformlySized(recv, size)
    requires k <= |Present(recv, 0)|
    ensures |code| == |recv|
    ensures forall i :: 0 <= i < |recv| ==> code[i].Some? && |code[i].value| == size
    ensures forall i :: 0 <= i < |recv| && recv[i].Some? ==> code[i] == recv[i]
  {
    var data := RecoveredData(f, pts, recv, size, k);
    seq(|recv|, i requires 0 <= i < |recv| =>
      if recv[i].Some? then recv[i] else Some(CodeShard(f, pts, data, size, i)))
  }

  /** `recv` is `code` with some shards erased. */
  ghost predicate Erasure<E>(recv: seq<Option<seq<E>>>, code: seq<seq<E>>) {
    && |recv| == |code|
    && forall i :: 0 <= i < |recv| && recv[i].Some? ==> recv[i].value == code[i]
  }

  lemma {:induction false} RecoverShard<E(!new)>(f: Field<E>, pts: seq<E>, data: seq<seq<E>>, size: nat,
                              recv: seq<Option<seq<E>>>, i: nat)
    requires IsField(f) && Distinct(pts)
    requires Rectangular(data, size) && |data| <= |recv| <= |pts|
    requires Erasure(recv, Encoded(f, pts, data, size, |recv|))
    requires |data| <= |Present(recv, 0)|
    requires i < |recv|
    ensures RecoveredShard(f, pts, recv, size, |data|, i) == CodeShard(f, pts, data, size, i)
  {
    if recv[i].None? {
      var k := |data|;
      var idx := Present(recv, 0)[..k];
      var xs, got := PickPoints(pts, idx), PickShards(recv, idx, size);
      assert Distinct(xs);
      forall j | 0 <= j < size
        ensures RecoveredShard(f, pts, recv, size, k, i)[j] == CodeShard(f, pts, data, size, i)[j]
      {
        var c := Interpolate(f, pts[..k], Column(data, size, j));
        forall t | 0 <= t < k ensures Column(got, size, j)[t] == Eval(f, c, xs[t]) {
          CodeOnPolynomial(f, pts, data, size, idx[t], j);
        }
        InterpolateRecovers(f, c, xs, Column(got, size, j), pts[i]);
        CodeOnPolynomial(f, pts, data, size, i, j);
      }
    }
  }

  /** The code is maximum-distance separable: any `k` of the `n` shards restore all `n`. */
  lemma {:induction false} AnyKSuffice<E(!new)>(f: Field<E>, pts: seq<E>, data: seq<seq<E>>, size: nat,
                                                recv: seq<Option<seq<E>>>)
    requires IsField(f) && Distinct(pts)
    requires Rectangular(data, size) && |data| <= |recv| <= |pts|
    requires Erasure(recv, Encoded(f, pts, data, size, |recv|))
    requires |data| <= |Present(recv, 0)|
    ensures forall i :: 0 <= i < |recv| ==>
      Reconstructed(f, pts, recv, size, |data|)[i] == Some(Encoded(f, pts, data, size, |recv|)[i])
  {
    var k := |data|;
    forall i | 0 <= i < k ensures RecoveredData(f, pts, recv, size, k)[i] == data[i] {
      RecoverShard(f, pts, data, size, recv, i);
    }
    assert RecoveredData(f, pts, recv, size, k) == data;
  }
}
