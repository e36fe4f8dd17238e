/** Fields, as a record of operations. The axioms are stated over marked
  * tuples, so that they are used only through the lemmas below. */
module Fields {

  datatype Field<!E> = Field(
    zero: E, one: E,
    add: (E, E) -> E, neg: E -> E,
    mul: (E, E) -> E, inv: E -> E)

  ghost predicate Mark1<E>(a: E) { true }
  ghost predicate Mark2<E>(a: E, b: E) { true }
  ghost predicate Mark3<E>(a: E, b: E, c: E) { true }

  ghost predicate AdditiveGroup<E(!new)>(f: Field<E>) {
    && (forall a, b {:trigger Mark2(a, b)} :: Mark2(a, b) ==> f.add(a, b) == f.add(b, a))
    && (forall a, b, c {:trigger Mark3(a, b, c)} ::
          Mark3(a, b, c) ==> f.add(f.add(a, b), c) == f.add(a, f.add(b, c)))
    && (forall a {:trigger Mark1(a)} :: Mark1(a) ==> f.add(a, f.zero) == a)
    && (forall a {:trigger Mark1(a)} :: Mark1(a) ==> f.add(a, f.neg(a)) == f.zero)
  }

  ghost predicate CommutativeMonoid<E(!new)>(f: Field<E>) {
    && (forall a, b {:trigger Mark2(a, b)} :: Mark2(a, b) ==> f.mul(a, b) == f.mul(b, a))
    && (forall a, b, c {:trigger Mark3(a, b, c)} ::
          Mark3(a, b, c) ==> f.mul(f.mul(a, b), c) == f.mul(a, f.mul(b, c)))
    && (forall a {:trigger Mark1(a)} :: Mark1(a) ==> f.mul(a, f.one) == a)
  }

  /** A commutative ring: a field, but for the inverses. */
  ghost predicate IsRing<E(!new)>(f: Field<E>) {
    && AdditiveGroup(f)
    && CommutativeMonoid(f)
    && (forall a, b, c {:trigger Mark3(a, b, c)} ::
          Mark3(a, b, c) ==> f.mul(a, f.add(b, c)) == f.add(f.mul(a, b), f.mul(a, c)))
  }

  ghost predicate IsField<E(!new)>(f: Field<E>) {
    && IsRing(f)
    && (forall a {:trigger Mark1(a)} :: Mark1(a) && a != f.zero ==> f.mul(a, f.inv(a)) == f.one)
  }

  // The axioms, one at a time.

  lemma AddComm<E(!new)>(f: Field<E>, a: E, b: E)
    requires IsRing(f)
    ensures f.add(a, b) == f.add(b, a)
  {
    assert Mark2(a, b);
  }

  lemma AddAssoc<E(!new)>(f: Field<E>, a: E, b: E, c: E)
    requires IsRing(f)
    ensures f.add(f.add(a, b), c) == f.add(a, f.add(b, c))
  {
    assert Mark3(a, b, c);
  }

  lemma AddZero<E(!new)>(f: Field<E>, a: E)
    requires IsRing(f)
    ensures f.add(a, f.zero) == a
    ensures f.add(f.zero, a) == a
  {
    assert Mark1(a);
    AddComm(f, a, f.zero);
  }

  lemma AddNeg<E(!new)>(f: Field<E>, a: E)
    requires IsRing(f)
    ensures f.add(a, f.neg(a)) == f.zero
    ensures f.add(f.neg(a), a) == f.zero
  {
    assert Mark1(a);
    AddComm(f, a, f.neg(a));
  }

  lemma MulComm<E(!new)>(f: Field<E>, a: E, b: E)
    requires IsRing(f)
    ensures f.mul(a, b) == f.mul(b, a)
  {
    assert Mark2(a, b);
  }

  lemma MulAssoc<E(!new)>(f: Field<E>, a: E, b: E, c: E)
    requires IsRing(f)
    ensures f.mul(f.mul(a, b), c) == f.mul(a, f.mul(b, c))
  {
    assert Mark3(a, b, c);
  }

  lemma MulOne<E(!new)>(f: Field<E>, a: E)
    requires IsRing(f)
    ensures f.mul(a, f.one) == a
  {
    assert Mark1(a);
  }

  lemma MulInv<E(!new)>(f: Field<E>, a: E)
    requires IsField(f) && a != f.zero
    ensures f.mul(a, f.inv(a)) == f.one
  {
    assert Mark1(a);
  }

  lemma Distribute<E(!new)>(f: Field<E>, a: E, b: E, c: E)
    requires IsRing(f)
    ensures f.mul(a, f.add(b, c)) == f.add(f.mul(a, b), f.mul(a, c))
    ensures f.mul(f.add(b, c), a) == f.add(f.mul(b, a), f.mul(c, a))
  {
    assert Mark3(a, b, c);
    MulComm(f, a, f.add(b, c));
    MulComm(f, a, b);
    MulComm(f, a, c);
  }

  // Consequences.

  function Sub<E>(f: Field<E>, a: E, b: E): E {
    f.add(a, f.neg(b))
  }

  lemma AddCancel<E(!new)>(f: Field<E>, a: E, b: E, c: E)
    requires IsRing(f) && f.add(a, b) == f.add(a, c)
    ensures b == c
  {
    AddAssoc(f, f.neg(a), a, b);
    AddAssoc(f, f.neg(a), a, c);
    AddNeg(f, a);
    AddZero(f, b);
    AddZero(f, c);
  }

  lemma MulZero<E(!new)>(f: Field<E>, a: E)
    requires IsRing(f)
    ensures f.mul(a, f.zero) == f.zero
    ensures f.mul(f.zero, a) == f.zero
  {
    Distribute(f, a, f.zero, f.zero);
    AddZero(f, f.zero);
    AddZero(f, f.mul(a, f.zero));
    AddCancel(f, f.mul(a, f.zero), f.mul(a, f.zero), f.zero);
    MulComm(f, a, f.zero);
  }

  lemma MulCancel<E(!new)>(f: Field<E>, a: E, b: E, c: E)
    requires IsField(f) && a != f.zero && f.mul(a, b) == f.mul(a, c)
    ensures b == c
  {
    var i := f.inv(a);
    MulInv(f, a);
    MulComm(f, a, i);
    MulAssoc(f, i, a, b);
    MulAssoc(f, i, a, c);
    MulOne(f, b);
    MulOne(f, c);
    MulComm(f, f.one, b);
    MulComm(f, f.one, c);
  }

  /** Subtraction undoes addition. */
  lemma SubAdd<E(!new)>(f: Field<E>, a: E, b: E)
    requires IsField(f)
    ensures f.add(b, Sub(f, a, b)) == a
    ensures f.add(Sub(f, a, b), b) == a
  {
    AddAssoc(f, a, f.neg(b), b);
    AddNeg(f, b);
    AddZero(f, a);
    AddComm(f, b, Sub(f, a, b));
  }

  lemma SubZero<E(!new)>(f: Field<E>, a: E, b: E)
    requires IsField(f)
    ensures Sub(f, a, b) == f.zero <==> a == b
  {
    SubAdd(f, a, b);
    AddZero(f, b);
    AddNeg(f, a);
  }

  // Powers in a ring where squaring is additive.

  /** `a` raised to the power 2^n. */
  function Frobenius<E>(f: Field<E>, a: E, n: nat): E {
    if n == 0 then a else var p := Frobenius(f, a, n - 1); f.mul(p, p)
  }

  /** The product of the first `n` proper conjugates a^2, a^4, ... */
  function Conjugates<E>(f: Field<E>, a: E, n: nat): E {
    if n == 0 then f.one else f.mul(Conjugates(f, a, n - 1), Frobenius(f, a, n))
  }

  lemma ProductSquared<E(!new)>(f: Field<E>, p: E, q: E)
    requires IsRing(f)
    ensures f.mul(f.mul(p, q), f.mul(p, q)) == f.mul(f.mul(p, p), f.mul(q, q))
  {
    MulAssoc(f, p, q, f.mul(p, q));
    MulAssoc(f, q, p, q);
    MulComm(f, q, p);
    MulAssoc(f, p, q, q);
    MulAssoc(f, p, p, f.mul(q, q));
  }

  /** In characteristic two the square of a sum is the sum of the squares. */
  lemma SumSquared<E(!new)>(f: Field<E>, p: E, q: E)
    requires IsRing(f)
    requires forall a :: f.add(a, a) == f.zero
    ensures f.mul(f.add(p, q), f.add(p, q)) == f.add(f.mul(p, p), f.mul(q, q))
  {
    var pq := f.mul(p, q);
    Distribute(f, f.add(p, q), p, q);
    Distribute(f, p, p, q);
    Distribute(f, q, p, q);
    MulComm(f, q, p);
    AddAssoc(f, f.mul(p, p), pq, f.add(pq, f.mul(q, q)));
    AddAssoc(f, pq, pq, f.mul(q, q));
    AddZero(f, f.mul(q, q));
  }

  lemma {:induction false} ShiftConjugates<E(!new)>(f: Field<E>, a: E, n: nat)
    requires IsRing(f)
    ensures f.mul(f.mul(a, a), f.mul(Conjugates(f, a, n), Conjugates(f, a, n))) == Conjugates(f, a, n + 1)
  {
    var s := f.mul(a, a);
    if n == 0 {
      assert Frobenius(f, a, 1) == s;
      assert Conjugates(f, a, 1) == f.mul(Conjugates(f, a, 0), s);
      MulOne(f, f.one);
      MulOne(f, s);
      MulComm(f, f.one, s);
    } else {
      var c, p := Conjugates(f, a, n - 1), Frobenius(f, a, n);
      ShiftConjugates(f, a, n - 1);
      ProductSquared(f, c, p);
      MulAssoc(f, s, f.mul(c, c), f.mul(p, p));
    }
  }

  lemma {:induction false} PowerFromConjugates<E(!new)>(f: Field<E>, a: E, n: nat)
    requires IsRing(f)
    ensures Frobenius(f, a, n + 1) == f.mul(a, f.mul(a, Conjugates(f, a, n)))
  {
    if n == 0 {
      assert Frobenius(f, a, 1) == f.mul(a, a);
      MulOne(f, a);
    } else {
      var c, p := Conjugates(f, a, n - 1), Frobenius(f, a, n);
      PowerFromConjugates(f, a, n - 1);
      MulAssoc(f, a, f.mul(a, c), p);
      MulAssoc(f, a, c, p);
    }
  }

  /** When 0 and 1 are the only idempotents and raising to the power 2^(n+1)
    * changes nothing, the product of the conjugates inverts every nonzero element. */
  lemma {:induction false} ConjugatesInvert<E(!new)>(f: Field<E>, a: E, n: nat)
    requires IsRing(f) && a != f.zero
    requires Frobenius(f, a, n + 1) == a
    requires forall e :: f.mul(e, e) == e ==> e == f.zero || e == f.one
    ensures f.mul(a, Conjugates(f, a, n)) == f.one
  {
    var c := Conjugates(f, a, n);
    var norm := f.mul(a, c);
    ProductSquared(f, a, c);
    ShiftConjugates(f, a, n);
    MulComm(f, c, a);
    PowerFromConjugates(f, a, n);
    MulZero(f, a);
  }

  /** Neither of these looks at the inverse. */
  lemma {:induction false} ConjugatesIgnoreInv<E>(f: Field<E>, g: Field<E>, a: E, n: nat)
    requires f.mul == g.mul && f.one == g.one
    ensures Frobenius(f, a, n) == Frobenius(g, a, n)
    ensures Conjugates(f, a, n) == Conjugates(g, a, n)
  {
    if n > 0 {
      ConjugatesIgnoreInv(f, g, a, n - 1);
    }
  }

  function Iterate<E>(g: E -> E, a: E, n: nat): E {
    if n == 0 then a else g(Iterate(g, a, n - 1))
  }

  lemma {:induction false} FrobeniusIterates<E(!new)>(f: Field<E>, square: E -> E, a: E, n: nat)
    requires forall x :: f.mul(x, x) == square(x)
    ensures Frobenius(f, a, n) == Iterate(square, a, n)
  {
    if n > 0 {
      FrobeniusIterates(f, square, a, n - 1);
    }
  }

  /** A ring of characteristic two is a field as soon as the squaring map has
    * order `n + 1` and fixes nothing but 0 and 1. */
  lemma FieldFromSquaring<E(!new)>(f: Field<E>, square: E -> E, n: nat, order: nat)
    requires IsRing(f) && order == n + 1
    requires forall x :: f.mul(x, x) == square(x)
    requires forall x :: square(x) == x ==> x == f.zero || x == f.one
    requires forall x :: Iterate(square, x, order) == x
    requires forall x {:trigger f.inv(x)} :: f.inv(x) == Conjugates(f, x, n)
    ensures IsField(f)
  {
    forall a | a != f.zero ensures f.mul(a, f.inv(a)) == f.one {
      FrobeniusIterates(f, square, a, n + 1);
      ConjugatesInvert(f, a, n);
    }
  }
}
