// Byte strings, little-endian integers and the byte-wise key order that every
// file format and every sorted structure of the engine is built on.

module ByteStrings {
  import opened Numbers

  type byte = x: int | 0 <= x < 256
  type Bytes = seq<byte>

  type u32 = x: int | 0 <= x < 0x1_0000_0000

  /** A checksum function. The file formats are stated for any; `Crc.Crc32` is the one they use. */
  type Checksum = Bytes -> u32

  const POW32: nat := 0x1_0000_0000
  const POW64: nat := 0x1_0000_0000_0000_0000

  // ---------------------------------------------------------------- integers

  /** `(v as u32).to_le_bytes()`: only the low 32 bits of `v` are kept. */
  function PutU32(v: nat): (r: Bytes)
    ensures |r| == 4
  {
    [v % 256, v / 0x100 % 256, v / 0x1_0000 % 256, v / 0x100_0000 % 256]
  }

  function GetU32(b: Bytes): (v: nat)
    requires |b| == 4
    ensures v < POW32
  {
    var d: seq<int> := b;
    d[0] + 0x100 * d[1] + 0x1_0000 * d[2] + 0x100_0000 * d[3]
  }

  lemma U32RoundTrip(v: nat)
    ensures GetU32(PutU32(v)) == v % POW32
    ensures v < POW32 ==> GetU32(PutU32(v)) == v
  {
    var q1, q2, q3 := v / 0x100, v / 0x1_0000, v / 0x100_0000;
    assert q2 == q1 / 256 && q3 == q2 / 256;
    assert v / POW32 == q3 / 256;
  }

  lemma U32Injective(b: Bytes)
    requires |b| == 4
    ensures PutU32(GetU32(b)) == b
  {
    var v := GetU32(b);
    var d: seq<int> := b;
    assert v / 0x100 == d[1] + 0x100 * d[2] + 0x1_0000 * d[3];
    assert v / 0x1_0000 == d[2] + 0x100 * d[3];
    assert v / 0x100_0000 == d[3];
  }

  lemma U32Distinct(a: Bytes, b: Bytes)
    requires |a| == |b| == 4 && a != b
    ensures GetU32(a) != GetU32(b)
  {
    U32Injective(a);
    U32Injective(b);
  }

  function PutU64(v: nat): (r: Bytes)
    ensures |r| == 8
  {
    PutU32(v % POW32) + PutU32(v / POW32)
  }

  function GetU64(b: Bytes): (v: nat)
    requires |b| == 8
    ensures v < POW64
  {
    GetU32(b[..4]) + POW32 * GetU32(b[4..])
  }

  lemma U64RoundTrip(v: nat)
    requires v < POW64
    ensures GetU64(PutU64(v)) == v
  {
    U32RoundTrip(v % POW32);
    U32RoundTrip(v / POW32);
    assert PutU64(v)[..4] == PutU32(v % POW32) && PutU64(v)[4..] == PutU32(v / POW32);
  }

  /** The low byte comes first. */
  lemma LittleEndian()
    ensures PutU32(0x0403_0201) == [1, 2, 3, 4]
    ensures PutU64(0x0807_0605_0403_0201) == [1, 2, 3, 4, 5, 6, 7, 8]
  {
    assert 0x0807_0605_0403_0201 % POW32 == 0x0403_0201 && 0x0807_0605_0403_0201 / POW32 == 0x0807_0605;
  }

  // --------------------------------------------------------------- bit flips

  /** The byte with one bit inverted: `b ^ (1 << bit)`. */
  function FlipBit(b: byte, bit: nat): (r: byte)
    requires bit < 8
    ensures r != b
  {
    var weight := [1, 2, 4, 8, 16, 32, 64, 128][bit];
    if b / weight % 2 == 1 then b - weight else b + weight
  }

  /** The halves of `q * 2v + r`. */
  lemma HalfOfQuotient(b: int, v: int, q: int, r: int)
    requires v > 0 && q >= 0 && b == q * (2 * v) + r && 0 <= r < 2 * v
    ensures b / (2 * v) == q && b / 2 == q * v + r / 2 && b / 2 / v == q
  {
    QuotientIs(b, 2 * v, q, r);
    QuotientIs(b / 2, v, q, r / 2);
  }

  lemma FlipBitHalf(b: byte, bit: nat)
    requires 0 < bit < 8
    ensures FlipBit(b, bit) / 2 == FlipBit(b / 2, bit - 1) && FlipBit(b, bit) % 2 == b % 2
  {
    var v := [1, 2, 4, 8, 16, 32, 64][bit - 1];
    assert [1, 2, 4, 8, 16, 32, 64, 128][bit] == 2 * v;
    HalfOfQuotient(b, v, b / (2 * v), b % (2 * v));
  }

  /** That bit changes and no other does. */
  lemma {:induction false} FlipBitTests(b: byte, bit: nat, j: nat)
    requires bit < 8 && j < 8
    ensures TestBit(FlipBit(b, bit), j) <==> TestBit(b, j) != (j == bit)
    decreases bit
  {
    if bit == 0 {
      assert FlipBit(b, 0) / 2 == b / 2;
    } else {
      FlipBitHalf(b, bit);
      if j > 0 { FlipBitTests(b / 2, bit - 1, j - 1); }
    }
  }

  /** The byte string with bit `bit` (counted from the start) inverted. */
  function FlipAt(s: Bytes, bit: nat): (r: Bytes)
    requires bit < 8 * |s|
    ensures |r| == |s| && r[bit / 8] != s[bit / 8]
    ensures forall i :: 0 <= i < |s| && i != bit / 8 ==> r[i] == s[i]
  {
    s[bit / 8 := FlipBit(s[bit / 8], bit % 8)]
  }

  // --------------------------------------------------------------- key order

  /** Lexicographic order on byte strings, as `Vec<u8>`'s `Ord`. */
  predicate Less(a: Bytes, b: Bytes)
  {
    |b| > 0 && (|a| == 0 || a[0] < b[0] || (a[0] == b[0] && Less(a[1..], b[1..])))
  }

  predicate AtMost(a: Bytes, b: Bytes) { a == b || Less(a, b) }

  lemma {:induction false} LessIrreflexive(a: Bytes)
    ensures !Less(a, a)
  {
    if |a| > 0 { LessIrreflexive(a[1..]); }
  }

  lemma {:induction false} LessTransitive(a: Bytes, b: Bytes, c: Bytes)
    requires Less(a, b) && Less(b, c)
    ensures Less(a, c)
  {
    if |a| > 0 && a[0] == b[0] && b[0] == c[0] {
      LessTransitive(a[1..], b[1..], c[1..]);
    }
  }

  lemma {:induction false} LessTotal(a: Bytes, b: Bytes)
    ensures a == b || Less(a, b) || Less(b, a)
  {
    if |a| > 0 && |b| > 0 && a[0] == b[0] {
      LessTotal(a[1..], b[1..]);
      assert a == [a[0]] + a[1..] && b == [b[0]] + b[1..];
    }
  }

  /** `a` and `b` agree on their first `i` bytes, and `a` ends there or goes on with the smaller byte. */
  predicate FirstDifference(a: Bytes, b: Bytes, i: nat) {
    i <= |a| && i < |b| && a[..i] == b[..i] && (i == |a| || a[i] < b[i])
  }

  lemma SameFirstByte(a: Bytes, b: Bytes, i: nat)
    requires 0 < i && FirstDifference(a, b, i)
    ensures a != [] && b != [] && a[0] == b[0]
  {
    assert a[..i][0] == b[..i][0];
  }

  /** The order is the dictionary order of unsigned bytes: a proper prefix comes first, and otherwise the first byte
      that differs decides. */
  lemma {:induction false} LessMeans(a: Bytes, b: Bytes)
    ensures Less(a, b) <==> exists i: nat :: FirstDifference(a, b, i)
  {
    if a != [] && b != [] && a[0] == b[0] {
      LessMeans(a[1..], b[1..]);
      if i: nat :| FirstDifference(a[1..], b[1..], i) {
        assert a[..i + 1] == [a[0]] + a[1..][..i] && b[..i + 1] == [b[0]] + b[1..][..i];
        assert FirstDifference(a, b, i + 1);
      }
      if i: nat :| FirstDifference(a, b, i) {
        assert i > 0;
        assert a[1..][..i - 1] == a[..i][1..] && b[1..][..i - 1] == b[..i][1..];
        assert FirstDifference(a[1..], b[1..], i - 1);
      }
    } else if Less(a, b) {
      assert FirstDifference(a, b, 0);
    } else if i: nat :| FirstDifference(a, b, i) {
      if i > 0 { SameFirstByte(a, b, i); }
    }
  }

  lemma LessAsymmetric(a: Bytes, b: Bytes)
    requires Less(a, b)
    ensures !Less(b, a) && a != b
  {
    if Less(b, a) { LessTransitive(a, b, a); }
    LessIrreflexive(a);
  }
}
