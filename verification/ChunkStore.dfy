/** A node's disk: one file per chunk, named after the file and the index. */
module ChunkStores {
  import opened Bytes
  import opened Wrappers
  import opened Sequences
  import opened Manifests

  type Disk = map<string, Bytes>

  const DIGITS: string := "0123456789"

  function Decimal(n: nat): (s: string)
    ensures |s| > 0
  {
    if n < 10 then [DIGITS[n]] else Decimal(n / 10) + [DIGITS[n % 10]]
  }

  /** `{n:06}` */
  function PaddedDecimal(n: nat): string {
    Padded(Decimal(n))
  }

  function Padded(s: string): string {
    if |s| >= 6 then s else Repeat('0', 6 - |s|) + s
  }

  function ChunkPath(fileId: string, index: nat): string {
    fileId + ".chunk." + PaddedDecimal(index)
  }

  // ----- distinct chunks have distinct paths

  function DigitValue(c: char): nat {
    if '0' <= c <= '9' then (c - '0') as nat else 0
  }

  function DecimalValue(s: string): nat {
    if |s| == 0 then 0 else 10 * DecimalValue(s[..|s| - 1]) + DigitValue(s[|s| - 1])
  }

  predicate AllDigits(s: string) {
    forall i :: 0 <= i < |s| ==> '0' <= s[i] <= '9'
  }

  lemma Digits(d: nat)
    requires d < 10
    ensures '0' <= DIGITS[d] <= '9' && DigitValue(DIGITS[d]) == d
  {
    assert DIGITS == ['0', '1', '2', '3', '4', '5', '6', '7', '8', '9'];
  }

  lemma {:induction false} DecimalSnoc(s: string, d: nat)
    requires d < 10 && AllDigits(s)
    ensures AllDigits(s + [DIGITS[d]]) && DecimalValue(s + [DIGITS[d]]) == 10 * DecimalValue(s) + d
  {
    Digits(d);
    assert (s + [DIGITS[d]])[..|s|] == s;
  }

  lemma {:induction false} DecimalRoundTrip(n: nat)
    ensures AllDigits(Decimal(n)) && DecimalValue(Decimal(n)) == n
  {
    if n < 10 {
      DecimalSnoc([], n);
      assert [] + [DIGITS[n]] == [DIGITS[n]];
    } else {
      DecimalRoundTrip(n / 10);
      DecimalSnoc(Decimal(n / 10), n % 10);
    }
  }

  lemma {:induction false} LeadingZeros(z: nat, s: string)
    ensures DecimalValue(Repeat('0', z) + s) == DecimalValue(s)
    decreases z + |s|
  {
    var t := Repeat('0', z) + s;
    if |s| > 0 {
      assert t[..|t| - 1] == Repeat('0', z) + s[..|s| - 1];
      LeadingZeros(z, s[..|s| - 1]);
    } else if z > 0 {
      assert t[..|t| - 1] == Repeat('0', z - 1) + s;
      LeadingZeros(z - 1, s);
    } else {
      assert t == s;
    }
  }

  lemma PaddedRoundTrip(n: nat)
    ensures AllDigits(PaddedDecimal(n)) && DecimalValue(PaddedDecimal(n)) == n
  {
    DecimalRoundTrip(n);
    PaddedDigits(Decimal(n));
  }

  lemma {:induction false} PaddedDigits(s: string)
    requires AllDigits(s)
    ensures AllDigits(Padded(s)) && DecimalValue(Padded(s)) == DecimalValue(s)
  {
    if |s| < 6 {
      LeadingZeros(6 - |s|, s);
    }
  }

  lemma {:induction false} DecimalLength(n: nat)
    ensures |Decimal(n)| <= 6 <==> n < 1_000_000
    ensures n < 10 <==> |Decimal(n)| == 1
    ensures n < 100 <==> |Decimal(n)| <= 2
    ensures n < 1_000 <==> |Decimal(n)| <= 3
    ensures n < 10_000 <==> |Decimal(n)| <= 4
    ensures n < 100_000 <==> |Decimal(n)| <= 5
  {
    if n >= 10 {
      DecimalLength(n / 10);
    }
  }

  /** The index is written in decimal, in at least six digits, and in more only
    * where it takes them. */
  lemma PathShape(f: string, i: nat)
    ensures var digits := ChunkPath(f, i)[|f| + 7..];
      && ChunkPath(f, i) == f + ".chunk." + digits
      && AllDigits(digits) && DecimalValue(digits) == i
      && |digits| >= 6 && (|digits| == 6 <==> i < 1_000_000)
      && (|digits| > 6 ==> digits[0] != '0')
  {
    var p := PaddedDecimal(i);
    assert ChunkPath(f, i) == (f + ".chunk.") + p;
    assert ChunkPath(f, i)[|f| + 7..] == p;
    PaddedRoundTrip(i);
    DecimalLength(i);
    NoLeadingZero(i);
  }

  lemma {:induction false} NoLeadingZero(n: nat)
    ensures n > 0 ==> Decimal(n)[0] != '0'
  {
    if n >= 10 {
      NoLeadingZero(n / 10);
    } else {
      Digits(n);
      Digits(0);
    }
  }

  /** A path names one chunk of one file. */
  lemma PathsDistinct(f: string, i: nat, g: string, j: nat)
    requires ChunkPath(f, i) == ChunkPath(g, j)
    ensures f == g && i == j
  {
    var p, q, path := PaddedDecimal(i), PaddedDecimal(j), ChunkPath(f, i);
    PaddedRoundTrip(i);
    PaddedRoundTrip(j);
    assert f + ".chunk." + p == f + ".chunk" + "." + p;
    assert g + ".chunk." + q == g + ".chunk" + "." + q;
    SuffixLength(f + ".chunk", p, g + ".chunk", q);
    SameSplit(f + ".chunk.", p, g + ".chunk.", q);
    SameSplit(f, ".chunk.", g, ".chunk.");
  }

  lemma SuffixLength(a: string, p: string, b: string, q: string)
    requires AllDigits(p) && AllDigits(q)
    requires a + "." + p == b + "." + q
    ensures |p| == |q|
  {
    var s := a + "." + p;
    assert s[|s| - |p| - 1] == '.';
    assert s[|s| - |q| - 1] == '.';
    assert forall k :: |s| - |p| <= k < |s| ==> s[k] == p[k - (|s| - |p|)];
    assert forall k :: |s| - |q| <= k < |s| ==> s[k] == q[k - (|s| - |q|)];
  }

  lemma SameSplit(a: string, p: string, b: string, q: string)
    requires a + p == b + q && |p| == |q|
    ensures a == b && p == q
  {
    assert a == (a + p)[..|a|];
    assert b == (b + q)[..|b|];
    assert p == (a + p)[|a|..];
    assert q == (b + q)[|b|..];
  }

  // ----- what a disk holds

  function Stored(disk: Disk, fileId: string, index: nat): Option<Bytes> {
    var path := ChunkPath(fileId, index);
    if path in disk then Some(disk[path]) else None
  }

  function Store(disk: Disk, fileId: string, index: nat, data: Bytes): Disk {
    disk[ChunkPath(fileId, index) := data]
  }

  /** Writing one chunk leaves the others alone. */
  lemma StoreElsewhere(disk: Disk, fileId: string, i: nat, data: Bytes, j: nat)
    ensures Stored(Store(disk, fileId, i, data), fileId, j) ==
      if i == j then Some(data) else Stored(disk, fileId, j)
  {
    if ChunkPath(fileId, i) == ChunkPath(fileId, j) {
      PathsDistinct(fileId, i, fileId, j);
    }
  }

  /** Chunk `i` is on disk with the digest the manifest promises. */
  ghost predicate Verifies(hash: Hasher, m: Manifest, disk: Disk, i: nat) {
    var file := Stored(disk, m.fileId, i);
    i < |m.chunkHashes| && file.Some? && hash(file.value) == m.chunkHashes[i]
  }

  ghost predicate AllVerify(hash: Hasher, m: Manifest, disk: Disk) {
    forall i :: 0 <= i < m.chunkCount ==> Verifies(hash, m, disk, i)
  }

  /** The chunk files in index order; a missing file counts as empty. */
  function Files(disk: Disk, fileId: string, count: nat): (files: seq<Bytes>)
    ensures |files| == count
  {
    seq(count, i requires 0 <= i < count =>
      var file := Stored(disk, fileId, i);
      if file.Some? then file.value else [])
  }

  /** The file the chunks on disk make up. */
  function Joined(disk: Disk, m: Manifest): Bytes {
    Flatten(Files(disk, m.fileId, m.chunkCount))
  }

  /** Every byte string the verification of this disk compares by digest. */
  ghost function Compared(disk: Disk, m: Manifest, data: Bytes): set<Bytes>
    requires m.chunkSize > 0
  {
    Elements(Files(disk, m.fileId, m.chunkCount)) + Elements(Chunks(data, m.chunkSize))
  }

  lemma FilesVerify(hash: Hasher, m: Manifest, disk: Disk, files: seq<Bytes>)
    requires AllVerify(hash, m, disk) && files == Files(disk, m.fileId, m.chunkCount)
    ensures m.chunkCount <= |m.chunkHashes|
    ensures forall i :: 0 <= i < m.chunkCount ==> hash(files[i]) == m.chunkHashes[i]
  {
    if m.chunkCount > 0 {
      assert Verifies(hash, m, disk, m.chunkCount - 1);
    }
    forall i | 0 <= i < m.chunkCount ensures hash(files[i]) == m.chunkHashes[i] {
      assert Verifies(hash, m, disk, i);
    }
  }

  /** A disk whose chunks all verify holds the original file. */
  lemma VerifiedDiskIsFile(hash: Hasher, m: Manifest, data: Bytes, disk: Disk)
    requires ManifestOf(hash, m, data) && AllVerify(hash, m, disk)
    requires CollisionFree(hash, Compared(disk, m, data))
    ensures Joined(disk, m) == data
  {
    var files := Files(disk, m.fileId, m.chunkCount);
    FilesVerify(hash, m, disk, files);
    VerifiedJoin(hash, m, data, files, Compared(disk, m, data));
  }
}
