/** Polynomials over a field, by coefficients, lowest first. */
module Polynomials {
  import opened Fields

  ghost predicate Distinct<E(!new)>(xs: seq<E>) {
    forall i, j :: 0 <= i < j < |xs| ==> xs[i] != xs[j]
  }

  function Eval<E>(f: Field<E>, c: seq<E>, x: E): E {
    if |c| == 0 then f.zero else f.add(c[0], f.mul(x, Eval(f, c[1..], x)))
  }

  /** The quotient of `c - c(a)` by `x - a`. */
  function Deflate<E>(f: Field<E>, c: seq<E>, a: E): (q: seq<E>)
    ensures |q| == if |c| == 0 then 0 else |c| - 1
  {
    if |c| <= 1 then [] else [Eval(f, c[1..], a)] + Deflate(f, c[1..], a)
  }

  /** The coefficients of `v + (x - a) q(x)`. */
  function Inflate<E>(f: Field<E>, v: E, a: E, q: seq<E>): (c: seq<E>)
    ensures |c| == |q| + 1
  {
    if |q| == 0 then [v] else [Sub(f, v, f.mul(a, q[0]))] + Inflate(f, q[0], a, q[1..])
  }

  /** `p + (x - a) r == (p - a s) + x (s + (x - a) t)` when `r == s + x t`. */
  lemma Regroup<E(!new)>(f: Field<E>, p: E, a: E, x: E, s: E, t: E)
    requires IsField(f)
    ensures f.add(p, f.mul(Sub(f, x, a), f.add(s, f.mul(x, t))))
         == f.add(Sub(f, p, f.mul(a, s)), f.mul(x, f.add(s, f.mul(Sub(f, x, a), t))))
  {
    var d, xd := Sub(f, x, a), f.mul(x, f.mul(Sub(f, x, a), t));
    // the left side is p + (d s + x d t)
    Distribute(f, d, s, f.mul(x, t));
    MulAssoc(f, d, x, t);
    MulComm(f, d, x);
    MulAssoc(f, x, d, t);
    // the right side is (p - a s) + (x s + x d t)
    Distribute(f, x, s, f.mul(d, t));
    // and x s == d s + a s
    SubAdd(f, x, a);
    Distribute(f, s, d, a);
    var as_, ds, xs := f.mul(a, s), f.mul(d, s), f.mul(x, s);
    assert xs == f.add(ds, as_);
    AddComm(f, ds, as_);
    AddAssoc(f, as_, ds, xd);
    AddAssoc(f, Sub(f, p, as_), as_, f.add(ds, xd));
    SubAdd(f, p, as_);
  }

  lemma {:induction false} EvalInflate<E(!new)>(f: Field<E>, v: E, a: E, q: seq<E>, x: E)
    requires IsField(f)
    ensures Eval(f, Inflate(f, v, a, q), x) == f.add(v, f.mul(Sub(f, x, a), Eval(f, q, x)))
  {
    if |q| == 0 {
      MulZero(f, x);
      MulZero(f, Sub(f, x, a));
      assert Inflate(f, v, a, q)[1..] == [];
    } else {
      var c := Inflate(f, v, a, q);
      assert c[1..] == Inflate(f, q[0], a, q[1..]);
      EvalInflate(f, q[0], a, q[1..], x);
      Regroup(f, v, a, x, q[0], Eval(f, q[1..], x));
    }
  }

  /** The remainder theorem. */
  lemma {:induction false} EvalDeflate<E(!new)>(f: Field<E>, c: seq<E>, a: E, x: E)
    requires IsField(f)
    ensures Eval(f, c, x) == f.add(Eval(f, c, a), f.mul(Sub(f, x, a), Eval(f, Deflate(f, c, a), x)))
  {
    var d := Sub(f, x, a);
    if |c| <= 1 {
      MulZero(f, d);
      MulZero(f, x);
      MulZero(f, a);
      AddZero(f, Eval(f, c, a));
      if |c| == 1 { assert c[1..] == []; }
    } else {
      var c', q' := c[1..], Deflate(f, c[1..], a);
      assert Deflate(f, c, a)[1..] == q';
      EvalDeflate(f, c', a, x);
      // with s == c'(a) and t == q'(x):  c(x) == c0 + x (s + d t)  and  c(a) == c0 + a s
      var s, t := Eval(f, c', a), Eval(f, q', x);
      var p := f.add(c[0], f.mul(a, s));
      Regroup(f, p, a, x, s, t);
      AddAssoc(f, c[0], f.mul(a, s), f.neg(f.mul(a, s)));
      AddNeg(f, f.mul(a, s));
      AddZero(f, c[0]);
    }
  }

  /** Two polynomials with `k` coefficients that agree at `k` distinct points are equal everywhere. */
  lemma {:induction false} Unique<E(!new)>(f: Field<E>, c: seq<E>, d: seq<E>, xs: seq<E>, x: E)
    requires IsField(f) && Distinct(xs)
    requires |c| == |d| == |xs|
    requires forall i :: 0 <= i < |xs| ==> Eval(f, c, xs[i]) == Eval(f, d, xs[i])
    ensures Eval(f, c, x) == Eval(f, d, x)
    decreases |xs|
  {
    if |xs| > 0 {
      var a := xs[0];
      var c', d' := Deflate(f, c, a), Deflate(f, d, a);
      forall i | 0 <= i < |xs| - 1 ensures Eval(f, c', xs[1..][i]) == Eval(f, d', xs[1..][i]) {
        var b := xs[i + 1];
        EvalDeflate(f, c, a, b);
        EvalDeflate(f, d, a, b);
        AddCancel(f, Eval(f, c, a), f.mul(Sub(f, b, a), Eval(f, c', b)), f.mul(Sub(f, b, a), Eval(f, d', b)));
        SubZero(f, b, a);
        MulCancel(f, Sub(f, b, a), Eval(f, c', b), Eval(f, d', b));
      }
      Unique(f, c', d', xs[1..], x);
      EvalDeflate(f, c, a, x);
      EvalDeflate(f, d, a, x);
    }
  }

  /** `(y - v) / (x - a)` */
  function Slope<E>(f: Field<E>, a: E, v: E, x: E, y: E): E {
    f.mul(Sub(f, y, v), f.inv(Sub(f, x, a)))
  }

  /** The polynomial with `|xs|` coefficients that takes the value `ys[i]` at `xs[i]`. */
  function Interpolate<E>(f: Field<E>, xs: seq<E>, ys: seq<E>): (c: seq<E>)
    requires |xs| == |ys|
    ensures |c| == |xs|
    decreases |xs|
  {
    if |xs| == 0 then [] else
      var slopes := seq(|xs| - 1, i requires 0 <= i < |xs| - 1 => Slope(f, xs[0], ys[0], xs[i + 1], ys[i + 1]));
      Inflate(f, ys[0], xs[0], Interpolate(f, xs[1..], slopes))
  }

  lemma SlopeTimesRun<E(!new)>(f: Field<E>, a: E, v: E, x: E, y: E)
    requires IsField(f) && x != a
    ensures f.add(v, f.mul(Sub(f, x, a), Slope(f, a, v, x, y))) == y
  {
    var run, rise := Sub(f, x, a), Sub(f, y, v);
    SubZero(f, x, a);
    MulInv(f, run);
    MulComm(f, run, Slope(f, a, v, x, y));
    MulComm(f, run, f.inv(run));
    MulAssoc(f, rise, f.inv(run), run);
    MulOne(f, rise);
    SubAdd(f, y, v);
  }

  lemma {:induction false} InterpolateHits<E(!new)>(f: Field<E>, xs: seq<E>, ys: seq<E>, i: nat)
    requires IsField(f) && Distinct(xs)
    requires i < |xs| == |ys|
    ensures Eval(f, Interpolate(f, xs, ys), xs[i]) == ys[i]
    decreases |xs|
  {
    var a, v := xs[0], ys[0];
    var slopes := seq(|xs| - 1, j requires 0 <= j < |xs| - 1 => Slope(f, a, v, xs[j + 1], ys[j + 1]));
    var q := Interpolate(f, xs[1..], slopes);
    EvalInflate(f, v, a, q, xs[i]);
    if i == 0 {
      AddNeg(f, a);
      MulZero(f, Eval(f, q, a));
      AddZero(f, v);
    } else {
      InterpolateHits(f, xs[1..], slopes, i - 1);
      SlopeTimesRun(f, a, v, xs[i], ys[i]);
    }
  }

  /** Reading any `k` points of a polynomial with `k` coefficients gives it back. */
  lemma {:induction false} InterpolateRecovers<E(!new)>(f: Field<E>, c: seq<E>, xs: seq<E>, ys: seq<E>, x: E)
    requires IsField(f) && Distinct(xs)
    requires |c| == |xs| == |ys|
    requires forall i :: 0 <= i < |xs| ==> ys[i] == Eval(f, c, xs[i])
    ensures Eval(f, Interpolate(f, xs, ys), x) == Eval(f, c, x)
  {
    var p := Interpolate(f, xs, ys);
    forall i | 0 <= i < |xs| ensures Eval(f, p, xs[i]) == Eval(f, c, xs[i]) {
      InterpolateHits(f, xs, ys, i);
    }
    Unique(f, p, c, xs, x);
  }
}
