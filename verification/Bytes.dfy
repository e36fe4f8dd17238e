/** Bytes as their eight bits, and the unsigned integers written in them. */
module Bytes {
  import opened Sequences

  /** `b7` is the most significant bit. */
  datatype Byte = Byte(b7: bool, b6: bool, b5: bool, b4: bool, b3: bool, b2: bool, b1: bool, b0: bool)

  type Bytes = seq<Byte>

  const ZERO := Byte(false, false, false, false, false, false, false, false)

  const U32_LIMIT: nat := 0x1_0000_0000
  const U64_LIMIT: nat := 0x1_0000_0000_0000_0000

  // ----- bits, most significant first

  predicate Bit(b: Byte, i: nat) {
    match i
    case 0 => b.b7
    case 1 => b.b6
    case 2 => b.b5
    case 3 => b.b4
    case 4 => b.b3
    case 5 => b.b2
    case 6 => b.b1
    case _ => b.b0
  }

  function BitsOf(b: Byte): (bits: seq<bool>)
    ensures |bits| == 8
  {
    seq(8, i requires 0 <= i < 8 => Bit(b, i))
  }

  function Unpack(bytes: Bytes): (bits: seq<bool>)
    ensures |bits| == 8 * |bytes|
  {
    if |bytes| == 0 then [] else BitsOf(bytes[0]) + Unpack(bytes[1..])
  }

  lemma {:induction false} UnpackAt(bytes: Bytes, i: nat)
    requires i < 8 * |bytes|
    ensures Unpack(bytes)[i] == Bit(bytes[i / 8], i % 8)
  {
    if i >= 8 {
      UnpackAt(bytes[1..], i - 8);
    }
  }

  predicate At(bits: seq<bool>, i: nat) {
    i < |bits| && bits[i]
  }

  function TopByte(bits: seq<bool>): Byte {
    Byte(At(bits, 0), At(bits, 1), At(bits, 2), At(bits, 3), At(bits, 4), At(bits, 5), At(bits, 6), At(bits, 7))
  }

  /** The unused bits of the last byte are clear. */
  function Pack(bits: seq<bool>): (bytes: Bytes)
    ensures |bytes| == (|bits| + 7) / 8
  {
    if |bits| == 0 then [] else [TopByte(bits)] + Pack(bits[Min(8, |bits|)..])
  }

  lemma TopBits(bits: seq<bool>, i: nat)
    requires i < 8
    ensures Bit(TopByte(bits), i) == At(bits, i)
  {
  }

  lemma FirstByte(bits: seq<bool>)
    ensures bits[..Min(8, |bits|)] <= BitsOf(TopByte(bits))
  {
    forall i: nat | i < Min(8, |bits|) ensures bits[i] == BitsOf(TopByte(bits))[i] {
      TopBits(bits, i);
    }
  }

  lemma {:induction false} UnpackPack(bits: seq<bool>)
    ensures bits <= Unpack(Pack(bits))
  {
    if |bits| > 0 {
      var w := Min(8, |bits|);
      UnpackPack(bits[w..]);
      FirstByte(bits);
      UnpackCons(TopByte(bits), Pack(bits[w..]));
      PrefixesJoin(bits, w, BitsOf(TopByte(bits)), Unpack(Pack(bits[w..])));
    }
  }

  lemma {:induction false} UnpackCons(b: Byte, rest: Bytes)
    ensures Unpack([b] + rest) == BitsOf(b) + Unpack(rest)
  {
    assert ([b] + rest)[1..] == rest;
  }

  lemma PrefixesJoin(bits: seq<bool>, w: nat, a: seq<bool>, b: seq<bool>)
    requires w <= |bits| && bits[..w] <= a && bits[w..] <= b
    requires |a| == w || w == |bits|
    ensures bits <= a + b
  {
    forall i: nat | i < |bits| ensures i < |a + b| && bits[i] == (a + b)[i] {
      assert if i < w then bits[i] == bits[..w][i] else bits[i] == bits[w..][i - w];
    }
  }

  lemma RoundUp(n: nat)
    requires n % 8 == 0
    ensures 8 * ((n + 7) / 8) == n
  {
  }

  lemma PrefixIsAll(bits: seq<bool>, all: seq<bool>)
    requires bits <= all && |all| == |bits|
    ensures all == bits
  {
  }

  lemma {:induction false} WholeBytes(bits: seq<bool>)
    requires |bits| % 8 == 0
    ensures Unpack(Pack(bits)) == bits
  {
    UnpackPack(bits);
    RoundUp(|bits|);
    PrefixIsAll(bits, Unpack(Pack(bits)));
  }

  lemma TopByteOf(b: Byte, bits: seq<bool>)
    requires BitsOf(b) <= bits
    ensures TopByte(bits) == b
  {
    assert forall i: nat :: i < 8 ==> At(bits, i) == BitsOf(b)[i];
  }

  lemma {:induction false} PackUnpack(bytes: Bytes)
    ensures Pack(Unpack(bytes)) == bytes
  {
    if |bytes| > 0 {
      var bits := Unpack(bytes);
      PackUnpack(bytes[1..]);
      TopByteOf(bytes[0], bits);
      assert bits[8..] == Unpack(bytes[1..]);
    }
  }

  // ----- numbers in binary

  function Binary(n: nat, width: nat): (bits: seq<bool>)
    ensures |bits| == width
  {
    if width == 0 then [] else Binary(n / 2, width - 1) + [n % 2 == 1]
  }

  function Positional(bits: seq<bool>): nat {
    if |bits| == 0 then 0
    else 2 * Positional(bits[..|bits| - 1]) + (if bits[|bits| - 1] then 1 else 0)
  }

  function PowerOfTwo(width: nat): (n: nat)
    ensures n > 0
  {
    if width == 0 then 1 else 2 * PowerOfTwo(width - 1)
  }

  lemma {:induction false} PositionalFits(bits: seq<bool>)
    ensures Positional(bits) < PowerOfTwo(|bits|)
  {
    if |bits| > 0 {
      PositionalFits(bits[..|bits| - 1]);
    }
  }

  lemma {:induction false} PositionalBinary(n: nat, width: nat)
    requires n < PowerOfTwo(width)
    ensures Positional(Binary(n, width)) == n
  {
    if width > 0 {
      PositionalBinary(n / 2, width - 1);
      assert Binary(n, width)[..width - 1] == Binary(n / 2, width - 1);
    }
  }

  lemma {:induction false} BinaryPositional(bits: seq<bool>)
    ensures Binary(Positional(bits), |bits|) == bits
  {
    if |bits| > 0 {
      var front := bits[..|bits| - 1];
      BinaryPositional(front);
      assert bits == front + [bits[|bits| - 1]];
    }
  }

  lemma {:induction false} PowerProduct(a: nat, b: nat)
    ensures PowerOfTwo(a + b) == PowerOfTwo(a) * PowerOfTwo(b)
  {
    if a > 0 {
      PowerProduct(a - 1, b);
    }
  }

  // ----- numbers in bytes

  const BYTE_BITS: nat := 8
  const U32_BITS: nat := 32
  const U64_BITS: nat := 64

  lemma Limits()
    ensures PowerOfTwo(BYTE_BITS) == 256
    ensures PowerOfTwo(U32_BITS) == U32_LIMIT && PowerOfTwo(U64_BITS) == U64_LIMIT
  {
    var p2 := 2;
    assert PowerOfTwo(p2) == 4;
    Squared(p2, 4);
    Squared(4, 8);
    Squared(8, 16);
    Squared(16, 32);
    Squared(32, 64);
  }

  lemma {:induction false} Squared(half: nat, width: nat)
    requires width == half + half
    ensures PowerOfTwo(width) == PowerOfTwo(half) * PowerOfTwo(half)
  {
    PowerProduct(half, half);
  }

  /** The unsigned big-endian number these bytes spell. */
  function Number(bytes: Bytes): nat {
    Positional(Unpack(bytes))
  }

  function BigEndian(n: nat, bits: nat): Bytes {
    Pack(Binary(n, bits))
  }

  lemma {:induction false} NumberBigEndian(n: nat, bits: nat)
    requires n < PowerOfTwo(bits) && bits % 8 == 0
    ensures Number(BigEndian(n, bits)) == n
  {
    WholeBytes(Binary(n, bits));
    PositionalBinary(n, bits);
  }

  lemma {:induction false} BigEndianNumber(bytes: Bytes)
    ensures BigEndian(Number(bytes), 8 * |bytes|) == bytes
    ensures Number(bytes) < PowerOfTwo(8 * |bytes|)
  {
    BinaryPositional(Unpack(bytes));
    PackUnpack(bytes);
    PositionalFits(Unpack(bytes));
  }

  /** The most significant byte comes first, and in a byte the most significant bit. */
  lemma {:induction false} NumberSnoc(bytes: Bytes, b: Byte)
    ensures Number(bytes + [b]) == 256 * Number(bytes)
      + (if b.b7 then 128 else 0) + (if b.b6 then 64 else 0) + (if b.b5 then 32 else 0) + (if b.b4 then 16 else 0)
      + (if b.b3 then 8 else 0) + (if b.b2 then 4 else 0) + (if b.b1 then 2 else 0) + (if b.b0 then 1 else 0)
  {
    UnpackSnoc(bytes, b);
    PositionalByte(Unpack(bytes), b);
  }

  lemma {:induction false} UnpackSnoc(bytes: Bytes, b: Byte)
    ensures Unpack(bytes + [b]) == Unpack(bytes) + BitsOf(b)
  {
    if |bytes| == 0 {
      assert bytes + [b] == [b];
      assert Unpack([b][1..]) == [];
      assert BitsOf(b) + [] == [] + BitsOf(b);
    } else {
      assert (bytes + [b])[1..] == bytes[1..] + [b];
      UnpackSnoc(bytes[1..], b);
    }
  }

  function BitValue(bit: bool): nat {
    if bit then 1 else 0
  }

  lemma {:induction false} PositionalSnoc(bits: seq<bool>, bit: bool)
    ensures Positional(bits + [bit]) == 2 * Positional(bits) + BitValue(bit)
  {
    assert (bits + [bit])[..|bits|] == bits;
  }

  lemma {:induction false} PositionalTwo(bits: seq<bool>, two: seq<bool>)
    requires |two| == 2
    ensures Positional(bits + two) == 4 * Positional(bits) + 2 * BitValue(two[0]) + BitValue(two[1])
  {
    PositionalSnoc(bits, two[0]);
    PositionalSnoc(bits + [two[0]], two[1]);
    assert bits + two == bits + [two[0]] + [two[1]];
  }

  lemma {:induction false} PositionalFour(bits: seq<bool>, four: seq<bool>)
    requires |four| == 4
    ensures Positional(bits + four) == 16 * Positional(bits)
      + 8 * BitValue(four[0]) + 4 * BitValue(four[1]) + 2 * BitValue(four[2]) + BitValue(four[3])
  {
    PositionalTwo(bits, four[..2]);
    PositionalTwo(bits + four[..2], four[2..]);
    assert bits + four == bits + four[..2] + four[2..];
  }

  lemma {:induction false} PositionalByte(bits: seq<bool>, b: Byte)
    ensures Positional(bits + BitsOf(b)) == 256 * Positional(bits)
      + 128 * BitValue(b.b7) + 64 * BitValue(b.b6) + 32 * BitValue(b.b5) + 16 * BitValue(b.b4)
      + 8 * BitValue(b.b3) + 4 * BitValue(b.b2) + 2 * BitValue(b.b1) + BitValue(b.b0)
  {
    var high, low := BitsOf(b)[..4], BitsOf(b)[4..];
    PositionalFour(bits, high);
    PositionalFour(bits + high, low);
    TwoHalves(bits, BitsOf(b), 4);
  }

  lemma TwoHalves(bits: seq<bool>, more: seq<bool>, n: nat)
    requires n <= |more|
    ensures bits + more == bits + more[..n] + more[n..]
  {
  }

  function U32(n: nat): (b: Bytes)
    requires n < U32_LIMIT
    ensures |b| == 4
  {
    BigEndian(n, U32_BITS)
  }

  function U64(n: nat): (b: Bytes)
    requires n < U64_LIMIT
    ensures |b| == 8
  {
    BigEndian(n, U64_BITS)
  }

  /** `n as u8`, for a number that fits. */
  function ByteOf(n: nat): Byte
    requires n < 256
  {
    BigEndian(n, BYTE_BITS)[0]
  }

  /** Reading and writing a u32 undo each other. */
  lemma U32Value(n: nat)
    requires n < U32_LIMIT
    ensures Number(U32(n)) == n
  {
    Limits();
    NumberBigEndian(n, U32_BITS);
  }

  lemma U32Only(b: Bytes)
    requires |b| == 4
    ensures Number(b) < U32_LIMIT && b == U32(Number(b))
  {
    Limits();
    BigEndianNumber(b);
  }

  lemma U64Value(n: nat)
    requires n < U64_LIMIT
    ensures Number(U64(n)) == n
  {
    Limits();
    NumberBigEndian(n, U64_BITS);
  }

  lemma U64Only(b: Bytes)
    requires |b| == 8
    ensures Number(b) < U64_LIMIT && b == U64(Number(b))
  {
    Limits();
    BigEndianNumber(b);
  }

  lemma DistinctValues(i: nat, j: nat)
    requires i < 256 && j < 256 && i != j
    ensures ByteOf(i) != ByteOf(j)
  {
    Limits();
    NumberBigEndian(i, BYTE_BITS);
    NumberBigEndian(j, BYTE_BITS);
    assert BigEndian(i, BYTE_BITS) == [ByteOf(i)];
    assert BigEndian(j, BYTE_BITS) == [ByteOf(j)];
  }
}
