// CRC-32 (IEEE 802.3, reflected), the checksum of every frame, block and
// manifest. The register step is a bijection, so a change confined to one byte
// can never leave the checksum unchanged.

module Crc {
  import opened ByteStrings
  import opened Numbers

  const POLY: bv32 := 0xEDB8_8320

  function BitStep(r: bv32): bv32 {
    if r & 1 == 1 then (r >> 1) ^ POLY else r >> 1
  }

  function EightSteps(x: bv32): bv32 {
    BitStep(BitStep(BitStep(BitStep(BitStep(BitStep(BitStep(BitStep(x))))))))
  }

  function VectorStep(r: bv32, v: bv8): bv32 {
    EightSteps(r ^ (v as bv32))
  }

  function FromBits(b0: bool, b1: bool, b2: bool, b3: bool, b4: bool, b5: bool, b6: bool, b7: bool): bv8 {
    (if b0 then 1 else 0) | (if b1 then 2 else 0) | (if b2 then 4 else 0) | (if b3 then 8 else 0)
    | (if b4 then 16 else 0) | (if b5 then 32 else 0) | (if b6 then 64 else 0) | (if b7 then 128 else 0)
  }

  /** The byte as a bit vector. */
  function Vector(b: byte): bv8 {
    FromBits(TestBit(b, 0), TestBit(b, 1), TestBit(b, 2), TestBit(b, 3), TestBit(b, 4), TestBit(b, 5), TestBit(b, 6), TestBit(b, 7))
  }

  function ByteStep(r: bv32, b: byte): bv32 {
    VectorStep(r, Vector(b))
  }

  function Register(r: bv32, data: Bytes): bv32
    decreases |data|
  {
    if data == [] then r else Register(ByteStep(r, data[0]), data[1..])
  }

  /** `crc32fast::hash`. */
  function Crc32(data: Bytes): u32 {
    (Register(0xFFFF_FFFF, data) ^ 0xFFFF_FFFF) as int
  }

  lemma BitStepInjective(x: bv32, y: bv32)
    requires x != y
    ensures BitStep(x) != BitStep(y)
  {
    if x & 1 == y & 1 {
      SameLowBit(x, y);
    } else {
      TopBitClear(x);
      TopBitClear(y);
    }
  }

  lemma SameLowBit(x: bv32, y: bv32)
    requires x != y && x & 1 == y & 1
    ensures x >> 1 != y >> 1 && (x >> 1) ^ POLY != (y >> 1) ^ POLY
  {
  }

  /** The polynomial sets the top bit, which the shift has cleared. */
  lemma TopBitClear(x: bv32)
    ensures (x >> 1) & 0x8000_0000 == 0 && ((x >> 1) ^ POLY) & 0x8000_0000 == 0x8000_0000
  {
  }

  lemma FromBitsInjective(b0: bool, b1: bool, b2: bool, b3: bool, b4: bool, b5: bool, b6: bool, b7: bool,
                          c0: bool, c1: bool, c2: bool, c3: bool, c4: bool, c5: bool, c6: bool, c7: bool)
    requires FromBits(b0, b1, b2, b3, b4, b5, b6, b7) == FromBits(c0, c1, c2, c3, c4, c5, c6, c7)
    ensures b0 == c0 && b1 == c1 && b2 == c2 && b3 == c3 && b4 == c4 && b5 == c5 && b6 == c6 && b7 == c7
  {
  }

  /** A number below `limit == 2^n` is determined by its `n` lowest bits. */
  lemma {:induction false} SameBits(a: nat, b: nat, n: nat, limit: nat)
    requires limit == Pow(2, n) && a < limit && b < limit && forall i :: 0 <= i < n ==> TestBit(a, i) == TestBit(b, i)
    ensures a == b
  {
    if n > 0 {
      assert TestBit(a, 0) == TestBit(b, 0);
      forall i | 0 <= i < n - 1
        ensures TestBit(a / 2, i) == TestBit(b / 2, i)
      {
        assert TestBit(a, i + 1) == TestBit(b, i + 1);
      }
      SameBits(a / 2, b / 2, n - 1, limit / 2);
    }
  }

  lemma VectorInjective(a: byte, b: byte)
    requires a != b
    ensures Vector(a) != Vector(b)
  {
    hide FromBits, TestBit;
    if Vector(a) == Vector(b) {
      FromBitsInjective(TestBit(a, 0), TestBit(a, 1), TestBit(a, 2), TestBit(a, 3), TestBit(a, 4), TestBit(a, 5), TestBit(a, 6), TestBit(a, 7),
                        TestBit(b, 0), TestBit(b, 1), TestBit(b, 2), TestBit(b, 3), TestBit(b, 4), TestBit(b, 5), TestBit(b, 6), TestBit(b, 7));
      forall i | 0 <= i < 8
        ensures TestBit(a, i) == TestBit(b, i)
      {
        assert i == 0 || i == 1 || i == 2 || i == 3 || i == 4 || i == 5 || i == 6 || i == 7;
      }
      assert Pow(2, 8) == 256;
      SameBits(a, b, 8, 256);
    }
  }

  lemma VectorStepInjective(r: bv32, x: bv8, y: bv8)
    requires x != y
    ensures VectorStep(r, x) != VectorStep(r, y)
  {
    assert r ^ (x as bv32) != r ^ (y as bv32);
    EightStepsInjective(r ^ (x as bv32), r ^ (y as bv32));
  }

  lemma EightStepsInjective(x: bv32, y: bv32)
    requires x != y
    ensures EightSteps(x) != EightSteps(y)
  {
    BitStepInjective(x, y);
    var x1, y1 := BitStep(x), BitStep(y);
    BitStepInjective(x1, y1);
    var x2, y2 := BitStep(x1), BitStep(y1);
    BitStepInjective(x2, y2);
    var x3, y3 := BitStep(x2), BitStep(y2);
    BitStepInjective(x3, y3);
    var x4, y4 := BitStep(x3), BitStep(y3);
    BitStepInjective(x4, y4);
    var x5, y5 := BitStep(x4), BitStep(y4);
    BitStepInjective(x5, y5);
    var x6, y6 := BitStep(x5), BitStep(y5);
    BitStepInjective(x6, y6);
    BitStepInjective(BitStep(x6), BitStep(y6));
  }

  lemma VectorStepInjectiveInRegister(r: bv32, s: bv32, v: bv8)
    requires r != s
    ensures VectorStep(r, v) != VectorStep(s, v)
  {
    assert r ^ (v as bv32) != s ^ (v as bv32);
    EightStepsInjective(r ^ (v as bv32), s ^ (v as bv32));
  }

  /** For a fixed byte the register step is injective in the register. */
  lemma ByteStepInjectiveInRegister(r: bv32, s: bv32, b: byte)
    requires r != s
    ensures ByteStep(r, b) != ByteStep(s, b)
  {
    VectorStepInjectiveInRegister(r, s, Vector(b));
  }

  /** For a fixed register the step is injective in the byte. */
  lemma ByteStepInjectiveInByte(r: bv32, a: byte, b: byte)
    requires a != b
    ensures ByteStep(r, a) != ByteStep(r, b)
  {
    VectorInjective(a, b);
    VectorStepInjective(r, Vector(a), Vector(b));
  }

  lemma {:induction false} RegisterInjective(r: bv32, s: bv32, data: Bytes)
    requires r != s
    ensures Register(r, data) != Register(s, data)
    decreases |data|
  {
    if data != [] {
      ByteStepInjectiveInRegister(r, s, data[0]);
      RegisterInjective(ByteStep(r, data[0]), ByteStep(s, data[0]), data[1..]);
    }
  }

  lemma {:induction false} RegisterSeesChange(r: bv32, a: Bytes, b: Bytes, i: nat)
    requires DifferAt(a, b, i)
    ensures Register(r, a) != Register(r, b)
    decreases |a|
  {
    if i == 0 {
      ByteStepInjectiveInByte(r, a[0], b[0]);
      assert a[1..] == b[1..];
      RegisterInjective(ByteStep(r, a[0]), ByteStep(r, b[0]), a[1..]);
    } else {
      RegisterSeesChange(ByteStep(r, a[0]), a[1..], b[1..], i - 1);
    }
  }

  lemma FinalXorInjective(x: bv32, y: bv32)
    requires x != y
    ensures (x ^ 0xFFFF_FFFF) as int != (y ^ 0xFFFF_FFFF) as int
  {
    var u, v := x ^ 0xFFFF_FFFF, y ^ 0xFFFF_FFFF;
    assert u != v;
    assert (u as int) as bv32 == u && (v as int) as bv32 == v;
  }

  /** A checksum that tells apart strings of one length differing in exactly one byte. */
  ghost predicate DetectsOneByte(crc: Checksum) {
    forall a: Bytes, b: Bytes, i: nat :: DifferAt(a, b, i) ==> crc(a) != crc(b)
  }

  ghost predicate DifferAt(a: Bytes, b: Bytes, i: nat) {
    && |a| == |b| && i < |a| && a[i] != b[i]
    && (forall j :: 0 <= j < |a| && j != i ==> a[j] == b[j])
  }

  lemma Crc32DetectsOneByte()
    ensures DetectsOneByte(Crc32)
  {
    forall a: Bytes, b: Bytes, i: nat | DifferAt(a, b, i)
      ensures Crc32(a) != Crc32(b)
    {
      RegisterSeesChange(0xFFFF_FFFF, a, b, i);
      FinalXorInjective(Register(0xFFFF_FFFF, a), Register(0xFFFF_FFFF, b));
    }
  }

  /** The checksum 0 of the empty string is also that of these four bytes. */
  lemma WitnessChecksums()
    ensures Crc32([0x9D, 0x0A, 0xD9, 0x6D]) == 0 == Crc32([])
  {
    assert Vector(0x9D) == 0x9D && Vector(0x0A) == 0x0A && Vector(0xD9) == 0xD9 && Vector(0x6D) == 0x6D;
    var p := [0x9D, 0x0A, 0xD9, 0x6D];
    assert p[1..] == [0x0A, 0xD9, 0x6D] && p[1..][1..] == [0xD9, 0x6D] && p[1..][1..][1..] == [0x6D];
    var r1 := VectorStep(0xFFFF_FFFF, 0x9D);
    var r2 := VectorStep(r1, 0x0A);
    var r3 := VectorStep(r2, 0xD9);
    assert VectorStep(r3, 0x6D) == 0xFFFF_FFFF;
  }

  lemma DigitSteps()
    ensures VectorStep(0xFFFF_FFFF, 0x31) == 0x7C23_1048
    ensures VectorStep(0x7C23_1048, 0x32) == 0xB0AC_BB32
    ensures VectorStep(0xB0AC_BB32, 0x33) == 0x77B7_9C2D
    ensures VectorStep(0x77B7_9C2D, 0x34) == 0x641C_1F5C
    ensures VectorStep(0x641C_1F5C, 0x35) == 0x340A_C5E3
    ensures VectorStep(0x340A_C5E3, 0x36) == 0xF68D_2C9E
    ensures VectorStep(0xF68D_2C9E, 0x37) == 0xAFFC_9660
    ensures VectorStep(0xAFFC_9660, 0x38) == 0x651F_2550
    ensures VectorStep(0x651F_2550, 0x39) == 0x340B_C6D9
  {
  }

  /** The lowest bit, and the others as the bits of the half. */
  lemma BitsOf(b: nat, low: bool, half: nat)
    requires b == 2 * half + if low then 1 else 0
    ensures TestBit(b, 0) == low && forall i: nat :: TestBit(b, i + 1) == TestBit(half, i)
  {
    assert b / 2 == half;
    forall i: nat
      ensures TestBit(b, i + 1) == TestBit(half, i)
    {
    }
  }

  /** The bit vector of a digit: its upper half is 3. */
  lemma DigitVector(b: byte, b0: bool, b1: bool, b2: bool, b3: bool)
    requires b == 0x30 + (if b0 then 1 else 0) + (if b1 then 2 else 0) + (if b2 then 4 else 0) + (if b3 then 8 else 0)
    ensures Vector(b) == FromBits(b0, b1, b2, b3, true, true, false, false)
  {
    hide FromBits, TestBit;
    BitsOf(b, b0, b / 2);
    BitsOf(b / 2, b1, b / 4);
    BitsOf(b / 4, b2, b / 8);
    BitsOf(b / 8, b3, 3);
    BitsOf(3, true, 1);
    BitsOf(1, true, 0);
    BitsOf(0, false, 0);
  }

  lemma DigitVectors()
    ensures Vector(0x31) == 0x31 && Vector(0x32) == 0x32 && Vector(0x33) == 0x33 && Vector(0x34) == 0x34 && Vector(0x35) == 0x35
    ensures Vector(0x36) == 0x36 && Vector(0x37) == 0x37 && Vector(0x38) == 0x38 && Vector(0x39) == 0x39
  {
    hide Vector;
    DigitVector(0x31, true, false, false, false);
    DigitVector(0x32, false, true, false, false);
    DigitVector(0x33, true, true, false, false);
    DigitVector(0x34, false, false, true, false);
    DigitVector(0x35, true, false, true, false);
    DigitVector(0x36, false, true, true, false);
    DigitVector(0x37, true, true, true, false);
    DigitVector(0x38, false, false, false, true);
    DigitVector(0x39, true, false, false, true);
  }

  /** The check value of the CRC-32 of IEEE 802.3: the checksum of the digits 1 to 9. */
  lemma CheckValue()
    ensures Crc32([0x31, 0x32, 0x33, 0x34, 0x35, 0x36, 0x37, 0x38, 0x39]) == 0xCBF4_3926
  {
    DigitSteps();
    DigitVectors();
    hide VectorStep, Vector, Register;
    var d: Bytes := [0x31, 0x32, 0x33, 0x34, 0x35, 0x36, 0x37, 0x38, 0x39];
    assert d[8..][1..] == [];
    RegisterStep(0x651F_2550, d[8..]);
    RegisterStep(0xAFFC_9660, d[7..]);
    RegisterStep(0xF68D_2C9E, d[6..]);
    RegisterStep(0x340A_C5E3, d[5..]);
    RegisterStep(0x641C_1F5C, d[4..]);
    RegisterStep(0x77B7_9C2D, d[3..]);
    RegisterStep(0xB0AC_BB32, d[2..]);
    RegisterStep(0x7C23_1048, d[1..]);
    RegisterStep(0xFFFF_FFFF, d[0..]);
    assert d[0..] == d;
    RegisterEnd(0x340B_C6D9);
  }

  lemma RegisterEnd(r: bv32)
    ensures Register(r, []) == r
  {
  }

  /** One byte, in terms of what is left behind it. */
  lemma RegisterStep(r: bv32, data: Bytes)
    requires data != []
    ensures Register(r, data) == Register(VectorStep(r, Vector(data[0])), data[1..])
  {
  }
}
