/** The per-node bitmap of received and verified chunks, its byte-level layout,
  * and the completion ratio. */
module Bitmaps {
  import opened Bytes
  import opened Sequences

  /** `complete` caches the number of set bits. */
  datatype Bitmap = Bitmap(bits: seq<bool>, complete: nat, chunkCount: nat)

  function Ones(bits: seq<bool>): (n: nat)
    ensures n <= |bits|
  {
    if |bits| == 0 then 0 else (if bits[0] then 1 else 0) + Ones(bits[1..])
  }

  /** Bytes too short for `chunkCount` leave fewer bits than chunks. */
  ghost predicate Consistent(b: Bitmap) {
    b.complete == Ones(b.bits) && |b.bits| <= b.chunkCount
  }

  /** The bits cover every chunk. */
  ghost predicate Whole(b: Bitmap) {
    Consistent(b) && |b.bits| == b.chunkCount
  }

  function Empty(chunkCount: nat): (b: Bitmap)
    ensures Whole(b)
  {
    NoOnes(chunkCount);
    Bitmap(Repeat(false, chunkCount), 0, chunkCount)
  }

  /** Looking up a chunk that has no bit panics. */
  predicate Readable(b: Bitmap, index: nat) {
    index < b.chunkCount ==> index < |b.bits|
  }

  predicate Holds(b: Bitmap, index: nat)
    requires Readable(b, index)
  {
    index < b.chunkCount && b.bits[index]
  }

  predicate Full(b: Bitmap) {
    b.complete == b.chunkCount
  }

  function Marked(b: Bitmap, index: nat): Bitmap
    requires Readable(b, index)
  {
    if index >= b.chunkCount || b.bits[index] then b
    else Bitmap(b.bits[index := true], b.complete + 1, b.chunkCount)
  }

  /** The indices from `from` on whose bit is clear, in order. */
  function MissingFrom(bits: seq<bool>, from: nat): (idx: seq<nat>)
    requires from <= |bits|
    ensures forall t :: 0 <= t < |idx| ==> from <= idx[t] < |bits| && !bits[idx[t]]
    ensures forall t, u :: 0 <= t < u < |idx| ==> idx[t] < idx[u]
    decreases |bits| - from
  {
    if from == |bits| then []
    else if bits[from] then MissingFrom(bits, from + 1)
    else [from] + MissingFrom(bits, from + 1)
  }

  function MissingIn(b: Bitmap): seq<nat> {
    MissingFrom(b.bits, 0)
  }

  // ----- counting

  lemma {:induction false} NoOnes(n: nat)
    ensures Ones(Repeat(false, n)) == 0
  {
    if n > 0 {
      assert Repeat(false, n)[1..] == Repeat(false, n - 1);
      NoOnes(n - 1);
    }
  }

  lemma {:induction false} OnesUpdate(bits: seq<bool>, i: nat)
    requires i < |bits| && !bits[i]
    ensures Ones(bits[i := true]) == Ones(bits) + 1
  {
    if i > 0 {
      assert bits[i := true][1..] == bits[1..][i - 1 := true];
      OnesUpdate(bits[1..], i - 1);
    } else {
      assert bits[i := true][1..] == bits[1..];
    }
  }

  lemma {:induction false} AllOnes(bits: seq<bool>)
    ensures Ones(bits) == |bits| <==> forall i :: 0 <= i < |bits| ==> bits[i]
  {
    if |bits| > 0 {
      AllOnes(bits[1..]);
      assert forall i :: 0 <= i < |bits| ==> bits[i] == if i == 0 then bits[0] else bits[1..][i - 1];
      if Ones(bits) == |bits| {
        assert forall i :: 0 < i < |bits| ==> bits[i] == bits[1..][i - 1];
      } else if bits[0] {
        var j :| 0 <= j < |bits[1..]| && !bits[1..][j];
        assert !bits[j + 1];
      }
    }
  }

  lemma {:induction false} MissingComplement(bits: seq<bool>, from: nat)
    requires from <= |bits|
    ensures forall i :: from <= i < |bits| ==> (i in MissingFrom(bits, from) <==> !bits[i])
    ensures |MissingFrom(bits, from)| + Ones(bits[from..]) == |bits| - from
    decreases |bits| - from
  {
    if from < |bits| {
      MissingComplement(bits, from + 1);
      assert bits[from..][1..] == bits[from + 1..];
    }
  }

  /** Marking keeps the cache right and sets exactly one bit. */
  lemma MarkedEffect(b: Bitmap, index: nat)
    requires Consistent(b) && Readable(b, index)
    ensures Consistent(Marked(b, index)) && |Marked(b, index).bits| == |b.bits|
    ensures forall i :: 0 <= i < |b.bits| ==> Marked(b, index).bits[i] == (b.bits[i] || i == index)
    ensures |MissingIn(Marked(b, index))| == |MissingIn(b)| - (if index < b.chunkCount && !b.bits[index] then 1 else 0)
  {
    if index < b.chunkCount && !b.bits[index] {
      OnesUpdate(b.bits, index);
    }
    MissingComplement(b.bits, 0);
    MissingComplement(Marked(b, index).bits, 0);
    assert b.bits[0..] == b.bits && Marked(b, index).bits[0..] == Marked(b, index).bits;
  }

  /** A bitmap is complete exactly when it has a bit for every chunk and none is missing. */
  lemma CompleteIffNothingMissing(b: Bitmap)
    requires Consistent(b)
    ensures Full(b) <==> Whole(b) && MissingIn(b) == []
    ensures Full(b) <==> Whole(b) && forall i :: 0 <= i < b.chunkCount ==> Holds(b, i)
  {
    MissingComplement(b.bits, 0);
    assert b.bits[0..] == b.bits;
    AllOnes(b.bits);
    if Whole(b) {
      assert forall i :: 0 <= i < b.chunkCount ==> Holds(b, i) == b.bits[i];
    }
  }

  // ----- any run of marks refines a set

  function MarkAll(b: Bitmap, marks: seq<nat>): Bitmap
    requires |b.bits| == b.chunkCount
    decreases |marks|
  {
    if |marks| == 0 then b
    else MarkAll(Marked(b, marks[0]), marks[1..])
  }

  function Held(b: Bitmap): set<nat> {
    set i | 0 <= i < |b.bits| && b.bits[i]
  }

  lemma {:induction false} MarkAllEffect(b: Bitmap, marks: seq<nat>)
    requires Whole(b)
    ensures var r := MarkAll(b, marks);
      && Whole(r) && r.chunkCount == b.chunkCount
      && Held(r) == Held(b) + (set i | i in marks && i < b.chunkCount)
    decreases |marks|
  {
    if |marks| > 0 {
      MarkedEffect(b, marks[0]);
      MarkAllEffect(Marked(b, marks[0]), marks[1..]);
      assert forall i :: i in marks <==> i == marks[0] || i in marks[1..];
    }
  }

  /** The set bits below `n`. */
  function HeldBelow(bits: seq<bool>, n: nat): set<nat>
    requires n <= |bits|
  {
    set i | 0 <= i < n && bits[i]
  }

  lemma HeldBelowStep(bits: seq<bool>, n: nat)
    requires n < |bits|
    ensures n !in HeldBelow(bits, n)
    ensures HeldBelow(bits, n + 1) == if bits[n] then HeldBelow(bits, n) + {n} else HeldBelow(bits, n)
  {
  }

  lemma {:induction false} HeldSize(bits: seq<bool>, n: nat)
    requires n <= |bits|
    ensures |HeldBelow(bits, n)| == Ones(bits[..n])
  {
    if n > 0 {
      HeldSize(bits, n - 1);
      HeldBelowStep(bits, n - 1);
      OnesSnoc(bits[..n - 1], bits[n - 1]);
      assert bits[..n] == bits[..n - 1] + [bits[n - 1]];
    }
  }

  lemma {:induction false} OnesSnoc(bits: seq<bool>, last: bool)
    ensures Ones(bits + [last]) == Ones(bits) + (if last then 1 else 0)
  {
    if |bits| > 0 {
      assert (bits + [last])[1..] == bits[1..] + [last];
      OnesSnoc(bits[1..], last);
    } else {
      assert (bits + [last])[1..] == [];
    }
  }

  lemma HeldCount(b: Bitmap)
    requires Whole(b)
    ensures |Held(b)| == b.complete
  {
    HeldSize(b.bits, |b.bits|);
    assert b.bits[..|b.bits|] == b.bits;
    assert HeldBelow(b.bits, |b.bits|) == Held(b);
  }

  lemma MissingIsComplement(b: Bitmap)
    requires Whole(b)
    ensures Elements(MissingIn(b)) == Below(b.chunkCount) - Held(b)
  {
    MissingComplement(b.bits, 0);
    forall i ensures i in Elements(MissingIn(b)) <==> i in Below(b.chunkCount) - Held(b) {
      assert i in MissingIn(b) ==> i < |b.bits|;
    }
  }

  lemma FullIsAll(b: Bitmap)
    requires Whole(b)
    ensures Full(b) <==> Held(b) == Below(b.chunkCount)
  {
    HeldCount(b);
    SubsetSize(Held(b), Below(b.chunkCount));
  }

  /** After any sequence of marks the bitmap is the set of the valid marks: the
    * cached count is its size, and what is missing is its complement. */
  lemma {:induction false} AnyMarksRefineASet(chunkCount: nat, marks: seq<nat>)
    ensures var b := MarkAll(Empty(chunkCount), marks);
      var held := set i | i in marks && i < chunkCount;
      && Held(b) == held && b.complete == |held|
      && Elements(MissingIn(b)) == Below(chunkCount) - held
      && (Full(b) <==> held == Below(chunkCount))
  {
    var b := MarkAll(Empty(chunkCount), marks);
    MarkAllEffect(Empty(chunkCount), marks);
    HeldCount(b);
    MissingIsComplement(b);
    FullIsAll(b);
  }

  // ----- as bytes; packing leaves the unused bits of the last byte clear

  function Encode(b: Bitmap): Bytes {
    Pack(b.bits)
  }

  function Decode(bytes: Bytes, chunkCount: nat): Bitmap {
    var bits := Truncate(Unpack(bytes), chunkCount);
    Bitmap(bits, Ones(bits), chunkCount)
  }

  /** Decoding raw storage gives the bitmap back, whatever the unused bits hold. */
  lemma {:induction false} DecodeRaw(b: Bitmap, raw: Bytes)
    requires Whole(b) && b.bits <= Unpack(raw)
    ensures Decode(raw, b.chunkCount) == b
  {
    assert Truncate(Unpack(raw), |b.bits|) == b.bits;
  }

  /** A heartbeat carries the bitmap faithfully. */
  lemma RoundTrip(b: Bitmap)
    requires Whole(b)
    ensures Decode(Encode(b), b.chunkCount) == b
  {
    UnpackPack(b.bits);
    DecodeRaw(b, Encode(b));
  }

  /** Bit `i` of the bytes, the most significant of each byte first, is chunk `i`. */
  lemma {:induction false} EncodingLayout(b: Bitmap, i: nat)
    requires Whole(b) && i < b.chunkCount
    ensures |Encode(b)| == (b.chunkCount + 7) / 8
    ensures Bit(Encode(b)[i / 8], i % 8) <==> b.bits[i]
  {
    UnpackPack(b.bits);
    UnpackAt(Encode(b), i);
  }

  /** Decoded bytes are always consistent, and whole exactly when there are enough of them. */
  lemma DecodeShape(bytes: Bytes, chunkCount: nat)
    ensures Consistent(Decode(bytes, chunkCount))
    ensures Whole(Decode(bytes, chunkCount)) <==> chunkCount <= 8 * |bytes|
  {
  }

  // ----- the completion ratio

  /** The spacing of single-precision numbers around `n`. */
  function Ulp(n: nat): (u: nat)
    ensures u > 0
  {
    if n < 0x100_0000 then 1 else 2 * Ulp(n / 2)
  }

  /** To the nearest multiple of `u`, ties to even. */
  function Rounded(n: nat, u: nat): nat
    requires u > 0
  {
    var q, r := n / u, n % u;
    if 2 * r < u || (2 * r == u && q % 2 == 0) then q * u else (q + 1) * u
  }

  /** `n as f32` */
  function AsF32(n: nat): nat {
    Rounded(n, Ulp(n))
  }

  /** `completion_ratio() >= 1.0` */
  predicate RatioReachesOne(b: Bitmap) {
    b.chunkCount == 0 || AsF32(b.complete) >= AsF32(b.chunkCount)
  }

  lemma Quotient(n: nat, u: nat)
    requires u > 0
    ensures n == (n / u) * u + n % u
  {
  }

  lemma RoundedBounds(n: nat, u: nat)
    requires u > 0
    ensures (n / u) * u <= Rounded(n, u) <= (n / u) * u + u
  {
    MulSucc(n / u, u);
  }

  lemma QuotientMonotone(a: nat, b: nat, u: nat)
    requires u > 0 && a <= b
    ensures a / u <= b / u
  {
    Quotient(a, u);
    Quotient(b, u);
    if b / u < a / u {
      MulMono(b / u + 1, a / u, u);
      MulSucc(b / u, u);
    }
  }

  lemma RoundedMonotone(a: nat, b: nat, u: nat)
    requires u > 0 && a <= b
    ensures Rounded(a, u) <= Rounded(b, u)
  {
    QuotientMonotone(a, b, u);
    RoundedBounds(a, u);
    RoundedBounds(b, u);
    if a / u < b / u {
      MulMono(a / u + 1, b / u, u);
      MulSucc(a / u, u);
    } else {
      Quotient(a, u);
      Quotient(b, u);
    }
  }

  /** A multiple of the spacing stays a bound after rounding. */
  lemma RoundedBetween(n: nat, u: nat, lo: nat, hi: nat)
    requires u > 0 && lo * u <= n < hi * u
    ensures lo * u <= Rounded(n, u) <= hi * u
  {
    var q := Bracket(n, u);
    QuotientBetween(n, q, u, lo, hi);
  }

  lemma Bracket(n: nat, u: nat) returns (q: nat)
    requires u > 0
    ensures q * u <= n < q * u + u && q * u <= Rounded(n, u) <= q * u + u
  {
    q := n / u;
    Quotient(n, u);
    RoundedBounds(n, u);
  }

  lemma QuotientBetween(n: nat, q: nat, u: nat, lo: nat, hi: nat)
    requires q * u <= n < q * u + u && lo * u <= n < hi * u
    ensures lo * u <= q * u && q * u + u <= hi * u
  {
    MulSucc(q, u);
    LessFromProducts(q, hi, u);
    LessFromProducts(lo, q + 1, u);
    MulMono(lo, q, u);
    MulMono(q + 1, hi, u);
  }

  const MANTISSA: nat := 0x80_0000

  /** 24 significant bits. */
  lemma {:induction false} UlpBounds(n: nat)
    ensures n < 2 * MANTISSA * Ulp(n)
    ensures n >= 2 * MANTISSA ==> MANTISSA * Ulp(n) <= n
  {
    if n >= 2 * MANTISSA {
      UlpBounds(n / 2);
    }
  }

  lemma {:induction false} UlpDoubles(a: nat, b: nat)
    requires a <= b
    ensures Ulp(a) == Ulp(b) || 2 * Ulp(a) <= Ulp(b)
  {
    if b >= 2 * MANTISSA && a >= 2 * MANTISSA {
      UlpDoubles(a / 2, b / 2);
    }
  }

  lemma {:induction false} AsF32Monotone(a: nat, b: nat)
    requires a <= b
    ensures AsF32(a) <= AsF32(b)
  {
    UlpDoubles(a, b);
    if Ulp(a) == Ulp(b) {
      RoundedMonotone(a, b, Ulp(a));
    } else {
      UlpBounds(a);
      UlpBounds(b);
      RoundedBetween(a, Ulp(a), 0, 2 * MANTISSA);
      RoundedBetween(b, Ulp(b), MANTISSA, 2 * MANTISSA);
    }
  }

  lemma RoundedMultiple(n: nat, u: nat) returns (q: nat)
    requires u > 0
    ensures Rounded(n, u) == q * u
  {
    q := if Rounded(n, u) == (n / u) * u then n / u else n / u + 1;
  }

  /** Distinct multiples of `u` are `u` apart. */
  lemma Apart(p: nat, q: nat, u: nat)
    requires p * u < q * u
    ensures p * u + u <= q * u
  {
    LessFromProducts(p, q, u);
    MulMono(p + 1, q, u);
    MulSucc(p, u);
  }

  lemma GapAcross(x: nat, y: nat, p: nat, q: nat, u: nat, v: nat) returns (gap: nat)
    requires x == p * u && y == q * v && x < y
    requires x <= 2 * MANTISSA * u && MANTISSA * v <= y <= 2 * MANTISSA * v
    requires 2 * u == v || 4 * u <= v
    ensures x + gap <= y <= 2 * MANTISSA * gap
  {
    if MANTISSA * v < y {
      Apart(MANTISSA, q, v);
      gap := v;
    } else if 2 * u == v {
      Apart(p, 2 * MANTISSA, u);
      gap := u;
    } else {
      gap := v;
    }
  }

  /** The quotient of two such numbers, the first one smaller, is at most
    * 1 - 2^-24. That is a single-precision number, so it does not round to 1. */
  lemma {:induction false} QuotientStaysBelowOne(a: nat, b: nat)
    requires AsF32(a) < AsF32(b)
    ensures AsF32(a) * (2 * MANTISSA) <= AsF32(b) * (2 * MANTISSA - 1)
  {
    var gap := Gap(a, b);
    Scaled(AsF32(a), AsF32(b), gap);
  }

  lemma Scaled(x: nat, y: nat, gap: nat)
    requires x + gap <= y <= 2 * MANTISSA * gap
    ensures x * (2 * MANTISSA) <= y * (2 * MANTISSA - 1)
  {
  }

  lemma {:induction false} Gap(a: nat, b: nat) returns (gap: nat)
    requires AsF32(a) < AsF32(b)
    ensures AsF32(a) + gap <= AsF32(b) <= 2 * MANTISSA * gap
  {
    if b <= a {
      AsF32Monotone(b, a);
    }
    UlpDoubles(a, b);
    UlpBounds(a);
    UlpBounds(b);
    var u, v := Ulp(a), Ulp(b);
    var p := RoundedMultiple(a, u);
    var q := RoundedMultiple(b, v);
    RoundedBetween(a, u, 0, 2 * MANTISSA);
    RoundedBetween(b, v, 0, 2 * MANTISSA);
    if u == v {
      Apart(p, q, u);
      gap := u;
    } else {
      if 2 * u != v {
        UlpQuadruples(a, b);
      }
      RoundedBetween(b, v, MANTISSA, 2 * MANTISSA);
      gap := GapAcross(AsF32(a), AsF32(b), p, q, u, v);
    }
  }

  lemma {:induction false} UlpQuadruples(a: nat, b: nat)
    requires a <= b && Ulp(a) != Ulp(b) && 2 * Ulp(a) != Ulp(b)
    ensures 4 * Ulp(a) <= Ulp(b)
  {
    if a >= 2 * MANTISSA {
      UlpQuadruples(a / 2, b / 2);
    } else {
      UlpDoubles(a, b / 2);
    }
  }

  /** A bitmap that lacks its last chunk only. */
  function AlmostFull(n: nat): (b: Bitmap)
    requires n > 0
    ensures Whole(b) && b.chunkCount == n && b.complete == n - 1
  {
    AllOnes(Repeat(true, n - 1));
    OnesSnoc(Repeat(true, n - 1), false);
    Bitmap(Repeat(true, n - 1) + [false], n - 1, n)
  }

  lemma FullReachesOne(b: Bitmap)
    requires Full(b)
    ensures RatioReachesOne(b)
  {
  }

  /** Every bitmap of `n` chunks whose ratio reaches one is complete, exactly
    * when conversion to single precision tells `n - 1` from `n`. */
  lemma RatioGate(n: nat)
    requires n > 0
    ensures (forall b :: Consistent(b) && b.chunkCount == n && RatioReachesOne(b) ==> Full(b)) <==>
      AsF32(n - 1) < AsF32(n)
  {
    if AsF32(n - 1) < AsF32(n) {
      forall b | Consistent(b) && b.chunkCount == n && RatioReachesOne(b) ensures Full(b) {
        if b.complete < n {
          AsF32Monotone(b.complete, n - 1);
        }
      }
    } else {
      var b := AlmostFull(n);
      assert RatioReachesOne(b) && !Full(b);
    }
  }

  /** So it does up to 2^24 chunks, */
  lemma RatioGateWhenExact(b: Bitmap)
    requires Consistent(b) && b.chunkCount <= 2 * MANTISSA && RatioReachesOne(b)
    ensures Full(b)
  {
    var n := b.chunkCount;
    assert Ulp(2 * MANTISSA) == 2;
    if n > 0 {
      assert AsF32(n - 1) == n - 1 && AsF32(n) == n;
      RatioGate(n);
    }
  }

  /** but not with one more: there a bitmap that lacks a chunk passes. */
  lemma RatioGateIsNotCompleteness()
    ensures var b := AlmostFull(2 * MANTISSA + 1);
      Whole(b) && !Full(b) && RatioReachesOne(b)
  {
    assert Ulp(2 * MANTISSA + 1) == 2;
    assert Ulp(2 * MANTISSA) == 2;
  }

  // ----- the bitmap a node updates in place

  class ChunkBitmap {
    var bits: seq<bool>
    var complete: nat
    const chunkCount: nat

    ghost function View(): Bitmap
      reads this
    {
      Bitmap(bits, complete, chunkCount)
    }

    constructor (chunkCount: nat)
      ensures View() == Empty(chunkCount)
    {
      this.bits := Repeat(false, chunkCount);
      this.complete := 0;
      this.chunkCount := chunkCount;
    }

    constructor FromBytes(bytes: Bytes, chunkCount: nat)
      ensures View() == Decode(bytes, chunkCount)
    {
      var decoded := Truncate(Unpack(bytes), chunkCount);
      this.bits := decoded;
      this.complete := Ones(decoded);
      this.chunkCount := chunkCount;
    }

    method MarkComplete(index: nat) returns (newly: bool)
      requires Consistent(View()) && Readable(View(), index)
      modifies this
      ensures Consistent(View()) && View() == Marked(old(View()), index)
      ensures newly <==> index < chunkCount && !old(bits)[index]
    {
      MarkedEffect(View(), index);
      if index >= chunkCount {
        return false;
      }
      if !bits[index] {
        bits := bits[index := true];
        complete := complete + 1;
        return true;
      } else {
        return false;
      }
    }

    method Has(index: nat) returns (r: bool)
      requires Readable(View(), index)
      ensures r == Holds(View(), index)
    {
      r := index < chunkCount && bits[index];
    }

    method IsComplete() returns (r: bool)
      requires Consistent(View())
      ensures r <==> Full(View())
      ensures r <==> |bits| == chunkCount && forall i :: 0 <= i < chunkCount ==> bits[i]
    {
      AllOnes(bits);
      r := complete == chunkCount;
    }

    method Missing() returns (idx: seq<nat>)
      ensures idx == MissingIn(View())
    {
      idx := [];
      var i := 0;
      while i < |bits|
        invariant i <= |bits|
        invariant MissingIn(View()) == idx + MissingFrom(bits, i)
      {
        if !bits[i] {
          idx := idx + [i];
        }
        i := i + 1;
      }
    }
  }
}
