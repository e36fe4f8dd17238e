/** GF(2^8) with the generator polynomial x^8 + x^4 + x^3 + x^2 + 1 that the
  * coder's Galois kernel is built on. A byte is the polynomial of its bits. */
module Gf256 {
  import opened Bytes
  import opened Fields

  const ONE := Byte(false, false, false, false, false, false, false, true)

  /** Addition is exclusive or. */
  function Add(a: Byte, b: Byte): Byte {
    Byte(a.b7 != b.b7, a.b6 != b.b6, a.b5 != b.b5, a.b4 != b.b4,
         a.b3 != b.b3, a.b2 != b.b2, a.b1 != b.b1, a.b0 != b.b0)
  }

  /** Multiplication by x: shift left, and reduce when a bit falls off. */
  function Xtime(a: Byte): Byte {
    Byte(a.b6, a.b5, a.b4, a.b3 != a.b7, a.b2 != a.b7, a.b1 != a.b7, a.b0, a.b7)
  }

  function Half(b: Byte): Byte {
    Byte(false, b.b7, b.b6, b.b5, b.b4, b.b3, b.b2, b.b1)
  }

  function Gate(on: bool, a: Byte): Byte {
    if on then a else ZERO
  }

  /** Shift-and-add multiplication by the low `n` bits of `b`. */
  function MulBits(a: Byte, b: Byte, n: nat): Byte
    decreases n
  {
    if n == 0 then ZERO else Add(Gate(b.b0, a), MulBits(Xtime(a), Half(b), n - 1))
  }

  const WIDTH: nat := 8

  function Mul(a: Byte, b: Byte): Byte {
    MulBits(a, b, WIDTH)
  }

  const TWO := Byte(false, false, false, false, false, false, true, false)
  const HIGH := Byte(true, false, false, false, false, false, false, false)

  lemma {:induction false} MulByZero(a: Byte, n: nat)
    ensures MulBits(a, ZERO, n) == ZERO
    decreases n
  {
    if n > 0 {
      MulByZero(Xtime(a), n - 1);
    }
  }

  lemma {:induction false} MulStep(a: Byte, b: Byte, n: nat)
    requires n > 0
    ensures MulBits(a, b, n) == Add(Gate(b.b0, a), MulBits(Xtime(a), Half(b), n - 1))
  {
  }

  /** x^8 reduces to x^4 + x^3 + x^2 + 1. */
  lemma {:induction false} Reduction()
    ensures Mul(HIGH, TWO) == Byte(false, false, false, true, true, true, false, true)
  {
    MulStep(HIGH, TWO, WIDTH);
    MulStep(Xtime(HIGH), ONE, WIDTH - 1);
    MulByZero(Xtime(Xtime(HIGH)), WIDTH - 2);
  }

  // ----- the ring laws

  lemma Interchange(p: Byte, q: Byte, r: Byte, s: Byte)
    ensures Add(Add(p, q), Add(r, s)) == Add(Add(p, r), Add(q, s))
  {
  }

  lemma {:induction false} LinearRight(a: Byte, b: Byte, c: Byte, n: nat)
    ensures MulBits(a, Add(b, c), n) == Add(MulBits(a, b, n), MulBits(a, c, n))
    decreases n
  {
    if n > 0 {
      LinearRight(Xtime(a), Half(b), Half(c), n - 1);
      HalfLinear(b, c);
      GateLinear(b, c, a);
      Interchange(Gate(b.b0, a), Gate(c.b0, a),
                  MulBits(Xtime(a), Half(b), n - 1), MulBits(Xtime(a), Half(c), n - 1));
    }
  }

  lemma HalfLinear(b: Byte, c: Byte)
    ensures Half(Add(b, c)) == Add(Half(b), Half(c))
  {
  }

  lemma GateLinear(b: Byte, c: Byte, a: Byte)
    ensures Gate(Add(b, c).b0, a) == Add(Gate(b.b0, a), Gate(c.b0, a))
  {
  }

  lemma {:induction false} LinearLeft(a: Byte, b: Byte, c: Byte, n: nat)
    ensures MulBits(Add(a, b), c, n) == Add(MulBits(a, c, n), MulBits(b, c, n))
    decreases n
  {
    if n > 0 {
      LinearLeft(Xtime(a), Xtime(b), Half(c), n - 1);
      XtimeLinear(a, b);
      Interchange(Gate(c.b0, a), Gate(c.b0, b),
                  MulBits(Xtime(a), Half(c), n - 1), MulBits(Xtime(b), Half(c), n - 1));
    }
  }

  lemma XtimeLinear(a: Byte, b: Byte)
    ensures Xtime(Add(a, b)) == Add(Xtime(a), Xtime(b))
  {
  }

  lemma {:induction false} XtimeOut(a: Byte, b: Byte, n: nat)
    ensures MulBits(Xtime(a), b, n) == Xtime(MulBits(a, b, n))
    decreases n
  {
    if n > 0 {
      XtimeOut(Xtime(a), Half(b), n - 1);
      XtimeLinear(Gate(b.b0, a), MulBits(Xtime(a), Half(b), n - 1));
    }
  }

  lemma {:induction false} ZeroLeft(b: Byte, n: nat)
    ensures MulBits(ZERO, b, n) == ZERO
  {
    LinearLeft(ZERO, ZERO, b, n);
  }

  /** `(c b) a == (c a) b`, from which both commutativity and associativity follow. */
  lemma {:induction false} Swap(c: Byte, b: Byte, a: Byte, n: nat, w: nat)
    ensures MulBits(MulBits(c, b, n), a, w) == MulBits(MulBits(c, a, w), b, n)
    decreases n
  {
    ZeroLeft(a, w);
    if n > 0 {
      LinearLeft(Gate(b.b0, c), MulBits(Xtime(c), Half(b), n - 1), a, w);
      Swap(Xtime(c), Half(b), a, n - 1, w);
      XtimeOut(c, a, w);
    }
  }

  /** Only the low `n` bits may be set. */
  predicate Fits(b: Byte, n: nat)
    decreases n
  {
    if n == 0 then b == ZERO else Fits(Half(b), n - 1)
  }

  lemma {:induction false} OneLeft(b: Byte, n: nat)
    requires Fits(b, n)
    ensures MulBits(ONE, b, n) == b
    decreases n
  {
    if n > 0 {
      OneLeft(Half(b), n - 1);
      XtimeOut(ONE, Half(b), n - 1);
      Rejoined(b);
    }
  }

  lemma Rejoined(b: Byte)
    ensures Add(Gate(b.b0, ONE), Xtime(Half(b))) == b
  {
  }

  lemma {:induction false} FitsAll(b: Byte)
    ensures Fits(b, WIDTH)
  {
    var h3 := Half(Half(Half(b)));
    var h6 := Half(Half(Half(h3)));
    assert Half(Half(h6)) == ZERO;
    assert Fits(h6, 2);
    assert Fits(h3, 5);
  }

  lemma Commutes(a: Byte, b: Byte)
    ensures Mul(a, b) == Mul(b, a)
  {
    FitsAll(a);
    FitsAll(b);
    OneLeft(a, WIDTH);
    OneLeft(b, WIDTH);
    Swap(ONE, b, a, WIDTH, WIDTH);
  }

  lemma Associates(a: Byte, b: Byte, c: Byte)
    ensures Mul(Mul(a, b), c) == Mul(a, Mul(b, c))
  {
    Commutes(a, b);
    Swap(b, a, c, WIDTH, WIDTH);
    Commutes(Mul(b, c), a);
  }

  // ----- inverses

  /** Squaring is linear over the bits, so it is this fixed matrix. */
  function Square(a: Byte): Byte {
    Byte(a.b6, a.b3 != (a.b5 != a.b6), a.b5, a.b2 != (a.b4 != (a.b5 != a.b7)),
         a.b4 != a.b6, a.b1 != (a.b4 != (a.b5 != a.b6)), a.b7, a.b0 != (a.b4 != (a.b6 != a.b7)))
  }

  lemma SquareXtime(h: Byte)
    ensures Square(Xtime(h)) == Xtime(Xtime(Square(h)))
  {
  }

  lemma SquareLowBit(b0: bool, q: Byte)
    ensures Square(Add(Gate(b0, ONE), q)) == Add(Gate(b0, ONE), Square(q))
  {
    assert Add(Gate(b0, ONE), q) == q.(b0 := q.b0 != b0);
  }

  lemma Split(a: Byte)
    ensures a == Add(Gate(a.b0, ONE), Xtime(Half(a)))
  {
  }

  lemma SquareTwice(a: Byte)
    ensures Square(Square(a)) ==
      Byte(a.b3 != (a.b5 != a.b6), a.b3 != a.b4, a.b5, a.b1 != (a.b2 != (a.b5 != a.b7)),
           a.b2 != (a.b3 != (a.b4 != (a.b6 != a.b7))), a.b2 != (a.b3 != (a.b4 != (a.b5 != a.b6))),
           a.b6, a.b0 != (a.b2 != (a.b3 != a.b6)))
  {
  }

  lemma SquareEightTimes(a: Byte)
    ensures Square(Square(Square(Square(Square(Square(Square(Square(a)))))))) == a
  {
    var c := Square(Square(a));
    var d := Square(Square(c));
    SquareTwice(a);
    SquareTwice(c);
    SquareTwice(d);
    SquareTwice(Square(Square(d)));
  }

  /** The idempotents of the ring are 0 and 1: it has no proper factor. */
  lemma Idempotents(a: Byte)
    requires Square(a) == a
    ensures a == ZERO || a == ONE
  {
  }

  lemma MulOneRight(a: Byte)
    ensures Mul(a, ONE) == a && Mul(ONE, a) == a
  {
    FitsAll(a);
    OneLeft(a, WIDTH);
    Commutes(a, ONE);
  }

  // ----- the field

  /** The ring of bytes; the inverse is the product of the conjugates. */
  function Ring(): Field<Byte> {
    Field(ZERO, ONE, Add, (a: Byte) => a, Mul, (a: Byte) => a)
  }

  function Gf(): Field<Byte> {
    Ring().(inv := (a: Byte) => Conjugates(Ring(), a, WIDTH - 1))
  }

  lemma InverseIsConjugates()
    ensures forall a: Byte {:trigger Gf().inv(a)} :: Gf().inv(a) == Conjugates(Gf(), a, WIDTH - 1)
  {
    forall a: Byte ensures Gf().inv(a) == Conjugates(Gf(), a, WIDTH - 1) {
      ConjugatesIgnoreInv(Gf(), Ring(), a, WIDTH - 1);
    }
  }

  lemma AddAssociates(a: Byte, b: Byte, c: Byte)
    ensures Add(Add(a, b), c) == Add(a, Add(b, c))
  {
    var l, r := Add(Add(a, b), c), Add(a, Add(b, c));
    assert l.b7 == r.b7;
    assert l.b6 == r.b6;
    assert l.b5 == r.b5;
    assert l.b4 == r.b4;
    assert l.b3 == r.b3;
    assert l.b2 == r.b2;
    assert l.b1 == r.b1;
  }

  lemma AddLaws(a: Byte, b: Byte)
    ensures Add(a, b) == Add(b, a)
    ensures Add(a, ZERO) == a && Add(a, a) == ZERO
  {
  }

  /** Everything but the inverses. */
  lemma GfIsRing()
    ensures IsRing(Gf())
    ensures forall a: Byte :: Gf().add(a, a) == Gf().zero
  {
    var f := Gf();
    forall a: Byte, b: Byte, c: Byte | Mark3(a, b, c)
      ensures f.add(f.add(a, b), c) == f.add(a, f.add(b, c))
      ensures f.mul(f.mul(a, b), c) == f.mul(a, f.mul(b, c))
      ensures f.mul(a, f.add(b, c)) == f.add(f.mul(a, b), f.mul(a, c))
    {
      AddAssociates(a, b, c);
      Associates(a, b, c);
      LinearRight(a, b, c, WIDTH);
    }
    forall a: Byte, b: Byte | Mark2(a, b)
      ensures f.add(a, b) == f.add(b, a) && f.mul(a, b) == f.mul(b, a)
    {
      AddLaws(a, b);
      Commutes(a, b);
    }
    forall a: Byte
      ensures f.add(a, f.zero) == a && f.add(a, f.neg(a)) == f.zero && f.mul(a, f.one) == a
    {
      AddLaws(a, a);
      MulOneRight(a);
    }
  }

  /** Squaring in the ring is the fixed matrix. */
  lemma {:induction false} SquareIsMul(a: Byte, n: nat)
    requires Fits(a, n)
    ensures Gf().mul(a, a) == Square(a)
    decreases n
  {
    if n == 0 {
      ZeroLeft(a, WIDTH);
    } else {
      var g, x := Gate(a.b0, ONE), Xtime(Half(a));
      Split(a);
      GfIsRing();
      SumSquared(Gf(), g, x);
      SquareIsMul(Half(a), n - 1);
      GateSquared(a.b0);
      XtimeSquared(Half(a));
      SquareXtime(Half(a));
      SquareLowBit(a.b0, x);
    }
  }

  lemma GateSquared(on: bool)
    ensures Gf().mul(Gate(on, ONE), Gate(on, ONE)) == Gate(on, ONE)
  {
    if on {
      MulOneRight(ONE);
    } else {
      ZeroLeft(ZERO, WIDTH);
    }
  }

  lemma XtimeSquared(h: Byte)
    ensures Gf().mul(Xtime(h), Xtime(h)) == Xtime(Xtime(Gf().mul(h, h)))
  {
    XtimeOut(h, Xtime(h), WIDTH);
    Commutes(h, Xtime(h));
    XtimeOut(h, h, WIDTH);
  }

  lemma {:induction false} SquareOrder(a: Byte)
    ensures Iterate(Square, a, WIDTH) == a
  {
    SquareEightTimes(a);
    assert Iterate(Square, a, 2) == Square(Square(a));
    assert Iterate(Square, a, 4) == Square(Square(Iterate(Square, a, 2)));
    assert Iterate(Square, a, 6) == Square(Square(Iterate(Square, a, 4)));
    assert Iterate(Square, a, 8) == Square(Square(Iterate(Square, a, 6)));
  }

  /** The coder's arithmetic is a field. */
  lemma GfIsField()
    ensures IsField(Gf())
  {
    GfIsRing();
    forall a: Byte ensures Gf().mul(a, a) == Square(a) {
      FitsAll(a);
      SquareIsMul(a, WIDTH);
    }
    forall a: Byte ensures Square(a) == a ==> a == ZERO || a == ONE {
      if Square(a) == a { Idempotents(a); }
    }
    forall a: Byte ensures Iterate(Square, a, WIDTH) == a {
      SquareOrder(a);
    }
    InverseIsConjugates();
    FieldFromSquaring(Gf(), Square, WIDTH - 1, WIDTH);
  }

  /** The evaluation points of the code, one per shard index. */
  function Points(): (pts: seq<Byte>)
    ensures |pts| == 256
    ensures forall i, j :: 0 <= i < j < 256 ==> pts[i] != pts[j]
  {
    var pts := seq(256, i requires 0 <= i < 256 => ByteOf(i));
    assert forall i, j :: 0 <= i < j < 256 ==> pts[i] != pts[j] by {
      forall i, j | 0 <= i < j < 256 ensures pts[i] != pts[j] { DistinctValues(i, j); }
    }
    pts
  }
}
