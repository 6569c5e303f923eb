// The per-table Bloom filter: a bit array probed by double hashing.

module Bloom {
  import opened ByteStrings
  import opened Numbers
  import opened Seqs
  import opened Parse

  /** The 128-bit key hash. Every result below holds for any function. */
  type KeyHash = Bytes -> nat

  datatype Filter = Filter(bits: Bytes, numBits: nat, numHashes: nat)

  predicate Sound(f: Filter) {
    f.numBits == 8 * |f.bits| && f.numBits > 0 && f.numHashes > 0
  }

  // -------------------------------------------------------------------- bits

  /** `b | (1 << bit)`. */
  function Or(b: nat, bit: nat): nat
    decreases bit
  {
    if bit == 0 then b / 2 * 2 + 1 else 2 * Or(b / 2, bit - 1) + b % 2
  }

  lemma {:induction false} OrTests(b: nat, i: nat, j: nat)
    ensures TestBit(Or(b, i), j) <==> i == j || TestBit(b, j)
    decreases i
  {
    if i > 0 {
      assert Or(b, i) / 2 == Or(b / 2, i - 1);
      if j > 0 { OrTests(b / 2, i - 1, j - 1); }
    } else if j > 0 {
      assert Or(b, 0) / 2 == b / 2;
    }
  }

  lemma {:induction false} OrBounded(b: nat, bit: nat, width: nat)
    requires bit < width && b < Pow(2, width)
    ensures Or(b, bit) < Pow(2, width)
    decreases bit
  {
    if bit > 0 { OrBounded(b / 2, bit - 1, width - 1); }
  }

  function SetBit(b: byte, bit: nat): (r: byte)
    requires bit < 8
  {
    assert Pow(2, 8) == 256;
    OrBounded(b, bit, 8);
    Or(b, bit)
  }

  predicate Test(bits: Bytes, idx: nat)
    requires idx < 8 * |bits|
  {
    TestBit(bits[idx / 8], idx % 8)
  }

  function Mark(bits: Bytes, idx: nat): (r: Bytes)
    requires idx < 8 * |bits|
    ensures |r| == |bits|
  {
    bits[idx / 8 := SetBit(bits[idx / 8], idx % 8)]
  }

  lemma MarkTests(bits: Bytes, i: nat, j: nat)
    requires i < 8 * |bits| && j < 8 * |bits|
    ensures Test(Mark(bits, i), j) <==> i == j || Test(bits, j)
  {
    OrTests(bits[i / 8], i % 8, j % 8);
  }

  // ------------------------------------------------------------------ probes

  /** `h2`, never 0. */
  function Stride(hash: KeyHash, numBits: nat, key: Bytes): (step: nat)
    requires numBits > 1
  {
    hash(key) / POW64 % POW64 % (numBits - 1) + 1
  }

  /** The `i`-th bit probed for a key: `(h1 + i * h2) mod m`, in wrapping 64-bit arithmetic. */
  function Probe(hash: KeyHash, numBits: nat, key: Bytes, i: nat): (idx: nat)
    requires numBits > 1
    ensures idx < numBits
  {
    (hash(key) % POW64 + i * Stride(hash, numBits, key) % POW64) % POW64 % numBits
  }

  predicate IsProbe(hash: KeyHash, f: Filter, key: Bytes, idx: nat) {
    f.numBits > 1 && exists i | 0 <= i < f.numHashes :: Probe(hash, f.numBits, key, i) == idx
  }

  function MarkProbes(hash: KeyHash, bits: Bytes, numBits: nat, key: Bytes, k: nat): (r: Bytes)
    requires numBits == 8 * |bits| && numBits > 0
    ensures |r| == |bits|
  {
    if k == 0 then bits
    else Mark(MarkProbes(hash, bits, numBits, key, k - 1), Probe(hash, numBits, key, k - 1))
  }

  function Inserted(hash: KeyHash, f: Filter, key: Bytes): (r: Filter)
    requires Sound(f)
    ensures Sound(r) && r.numBits == f.numBits && r.numHashes == f.numHashes
  {
    f.(bits := MarkProbes(hash, f.bits, f.numBits, key, f.numHashes))
  }

  predicate Admits(hash: KeyHash, f: Filter, key: Bytes)
    requires Sound(f)
  {
    forall i :: 0 <= i < f.numHashes ==> Test(f.bits, Probe(hash, f.numBits, key, i))
  }

  lemma {:induction false} MarkProbesTests(hash: KeyHash, bits: Bytes, numBits: nat, key: Bytes, k: nat, j: nat)
    requires numBits == 8 * |bits| && numBits > 0 && j < numBits
    ensures Test(MarkProbes(hash, bits, numBits, key, k), j)
       <==> Test(bits, j) || exists i | 0 <= i < k :: Probe(hash, numBits, key, i) == j
  {
    if k > 0 {
      MarkProbesTests(hash, bits, numBits, key, k - 1, j);
      MarkTests(MarkProbes(hash, bits, numBits, key, k - 1), Probe(hash, numBits, key, k - 1), j);
    }
  }

  function InsertAll(hash: KeyHash, f: Filter, keys: seq<Bytes>): (r: Filter)
    requires Sound(f)
    ensures Sound(r) && r.numBits == f.numBits && r.numHashes == f.numHashes
    decreases |keys|
  {
    if keys == [] then f else InsertAll(hash, Inserted(hash, f, keys[0]), keys[1..])
  }

  /** Exactly the probes of the inserted keys are set. */
  lemma {:induction false} BitsAreProbes(hash: KeyHash, f: Filter, keys: seq<Bytes>, j: nat)
    requires Sound(f) && j < f.numBits
    ensures Test(InsertAll(hash, f, keys).bits, j)
       <==> Test(f.bits, j) || exists n :: 0 <= n < |keys| && IsProbe(hash, f, keys[n], j)
    decreases |keys|
  {
    if keys != [] {
      var g := Inserted(hash, f, keys[0]);
      BitsAreProbes(hash, g, keys[1..], j);
      MarkProbesTests(hash, f.bits, f.numBits, keys[0], f.numHashes, j);
      assert Test(g.bits, j) <==> Test(f.bits, j) || IsProbe(hash, f, keys[0], j);
      forall n | 0 <= n < |keys[1..]|
        ensures IsProbe(hash, g, keys[1..][n], j) == IsProbe(hash, f, keys[n + 1], j)
      {
      }
      if n :| 0 <= n < |keys| && IsProbe(hash, f, keys[n], j) {
        if n > 0 { assert IsProbe(hash, g, keys[1..][n - 1], j); }
      }
    }
  }

  /** No false negatives: every inserted key is reported present. */
  lemma NoFalseNegatives(hash: KeyHash, f: Filter, keys: seq<Bytes>, n: nat)
    requires Sound(f) && n < |keys|
    ensures Admits(hash, InsertAll(hash, f, keys), keys[n])
  {
    var g := InsertAll(hash, f, keys);
    forall i | 0 <= i < g.numHashes
      ensures Test(g.bits, Probe(hash, g.numBits, keys[n], i))
    {
      BitsAreProbes(hash, f, keys, Probe(hash, g.numBits, keys[n], i));
      assert IsProbe(hash, f, keys[n], Probe(hash, g.numBits, keys[n], i));
    }
  }

  lemma {:induction false} InsertAllSnoc(hash: KeyHash, f: Filter, keys: seq<Bytes>, key: Bytes)
    requires Sound(f)
    ensures InsertAll(hash, f, keys + [key]) == Inserted(hash, InsertAll(hash, f, keys), key)
    decreases |keys|
  {
    if keys == [] {
      assert ([] + [key])[1..] == [];
    } else {
      assert (keys + [key])[1..] == keys[1..] + [key];
      InsertAllSnoc(hash, Inserted(hash, f, keys[0]), keys[1..], key);
    }
  }

  // ------------------------------------------------------------------ sizing

  type ProbeCount = x: nat | 1 <= x <= 30 witness 1

  /** `k = round((m / n) ln 2)` clamped to `[1, 30]`; the model allows any choice in that range. */
  type ProbeChoice = (nat, nat) -> ProbeCount

  function NumBytes(expectedKeys: nat, bitsPerKey: nat): (n: nat)
    ensures n >= 8
  {
    var n := if expectedKeys > 0 then expectedKeys else 1;
    var target := if n * bitsPerKey > 64 then n * bitsPerKey else 64;
    (target + 7) / 8
  }

  function New(choice: ProbeChoice, expectedKeys: nat, bitsPerKey: nat): (f: Filter)
    ensures Sound(f)
  {
    var n := NumBytes(expectedKeys, bitsPerKey);
    Filter(seq(n, _ => 0), 8 * n, choice(8 * n, if expectedKeys > 0 then expectedKeys else 1))
  }

  lemma NewReportsAbsent(hash: KeyHash, choice: ProbeChoice, expectedKeys: nat, bitsPerKey: nat, key: Bytes)
    ensures !Admits(hash, New(choice, expectedKeys, bitsPerKey), key)
  {
    var f := New(choice, expectedKeys, bitsPerKey);
    var idx := Probe(hash, f.numBits, key, 0);
    assert f.bits[idx / 8] == 0;
    ZeroHasNoBits(idx % 8);
    assert !Test(f.bits, idx);
  }

  lemma {:induction false} ZeroHasNoBits(bit: nat)
    ensures !TestBit(0, bit)
  {
    if bit > 0 { ZeroHasNoBits(bit - 1); }
  }

  // ------------------------------------------------------------------- codec

  function Encode(f: Filter): Bytes {
    PutU32(f.numBits) + PutU32(f.numHashes) + PutU64(|f.bits|) + f.bits
  }

  predicate Fits(f: Filter) { f.numBits < POW32 && f.numHashes < POW32 }

  function Decode(buf: Bytes): (r: Parsed<Filter>)
    ensures r.Got? ==> Sound(r.value)
  {
    match TakeU32(buf)
    case Corrupt => Corrupt
    case Got(numBits, buf1) =>
      match TakeU32(buf1)
      case Corrupt => Corrupt
      case Got(numHashes, buf2) =>
        match TakeU64(buf2)
        case Corrupt => Corrupt
        case Got(byteLen, buf3) =>
          match Take(buf3, byteLen)
          case Corrupt => Corrupt
          case Got(bits, rest) =>
            if numBits == 0 || numBits % 8 != 0 || numHashes == 0 || numBits / 8 != |bits| then Corrupt
            else Got(Filter(bits, numBits, numHashes), rest)
  }

  lemma CodecRoundTrip(f: Filter, rest: Bytes)
    requires Sound(f) && Fits(f)
    ensures Decode(Encode(f) + rest) == Got(f, rest)
  {
    hide PutU32, PutU64, TakeU32, TakeU64;
    var b3 := f.bits + rest;
    var b2 := PutU64(|f.bits|) + b3;
    var b1 := PutU32(f.numHashes) + b2;
    Assoc(PutU32(f.numBits) + PutU32(f.numHashes) + PutU64(|f.bits|), f.bits, rest);
    Assoc(PutU32(f.numBits) + PutU32(f.numHashes), PutU64(|f.bits|), b3);
    Assoc(PutU32(f.numBits), PutU32(f.numHashes), b2);
    TakeU32Written(f.numBits, b1);
    TakeU32Written(f.numHashes, b2);
    TakeU64Written(|f.bits|, b3);
    TakeWritten(f.bits, rest);
  }

  /** A filter is read exactly off a buffer that begins with its encoding: sizes that disagree are refused. */
  lemma DecodeIff(buf: Bytes, f: Filter, rest: Bytes)
    ensures Decode(buf) == Got(f, rest) <==> Sound(f) && Fits(f) && buf == Encode(f) + rest
  {
    if Decode(buf) == Got(f, rest) {
      hide PutU32, PutU64, TakeU32, TakeU64;
      var b1 := TakeU32(buf).rest;
      TakeU32Iff(buf, f.numBits, b1);
      var b2 := TakeU32(b1).rest;
      TakeU32Iff(b1, f.numHashes, b2);
      var b3 := TakeU64(b2).rest;
      TakeU64Iff(b2, |f.bits|, b3);
      Assoc(PutU32(f.numBits) + PutU32(f.numHashes) + PutU64(|f.bits|), f.bits, rest);
      Assoc(PutU32(f.numBits) + PutU32(f.numHashes), PutU64(|f.bits|), b3);
      Assoc(PutU32(f.numBits), PutU32(f.numHashes), b2);
    } else if Sound(f) && Fits(f) && buf == Encode(f) + rest {
      CodecRoundTrip(f, rest);
    }
  }

  // ----------------------------------------------------------------- probes

  /** While the double hash does not wrap, successive probes are the same non-zero step apart around the array, so
      neighbouring probes test different bits. */
  lemma ProbesStep(hash: KeyHash, numBits: nat, key: Bytes, i: nat)
    requires numBits > 1
    ensures Probe(hash, numBits, key, 0) == hash(key) % POW64 % numBits
    ensures var step := Stride(hash, numBits, key);
      && 0 < step < numBits && step - 1 == hash(key) / POW64 % POW64 % (numBits - 1)
      && (hash(key) % POW64 + (i + 1) * step < POW64 ==>
            Probe(hash, numBits, key, i + 1) == (Probe(hash, numBits, key, i) + step) % numBits)
  {
    var h1, step := hash(key) % POW64, Stride(hash, numBits, key);
    hide Probe, Stride;
    ProbeUnwrapped(hash, numBits, key, 0);
    NextMultiple(i, step);
    if h1 + (i + 1) * step < POW64 {
      ProbeUnwrapped(hash, numBits, key, i);
      ProbeUnwrapped(hash, numBits, key, i + 1);
      RemainderOfSum(h1 + i * step, step, numBits);
    }
  }

  lemma NextMultiple(i: nat, step: nat)
    ensures i * step >= 0 && (i + 1) * step == i * step + step
  {
  }

  lemma ProbeUnwrapped(hash: KeyHash, numBits: nat, key: Bytes, i: nat)
    requires numBits > 1 && hash(key) % POW64 + i * Stride(hash, numBits, key) < POW64
    ensures Probe(hash, numBits, key, i) == (hash(key) % POW64 + i * Stride(hash, numBits, key)) % numBits
  {
    hide Stride;
    var h1, p := hash(key) % POW64, i * Stride(hash, numBits, key);
    NextMultiple(i, Stride(hash, numBits, key));
    assert p % POW64 == p && (h1 + p) % POW64 == h1 + p;
  }

  /** A fresh filter has the whole bytes for its keys at the configured rate, at least eight, and no more. */
  lemma SizeMeans(expectedKeys: nat, bitsPerKey: nat)
    ensures var n, wanted := NumBytes(expectedKeys, bitsPerKey), (if expectedKeys == 0 then 1 else expectedKeys) * bitsPerKey;
      && 8 * n >= wanted && n >= 8 && (n == 8 || 8 * (n - 1) < wanted)
  {
  }

  // ----------------------------------------------------------- the bit array

  class BloomFilter {
    const hash: KeyHash
    const bits: array<byte>
    const numBits: nat
    const numHashes: nat

    ghost predicate Valid() { numBits == 8 * bits.Length && numBits > 0 && numHashes > 0 }

    ghost function Model(): (f: Filter)
      requires Valid()
      reads bits
      ensures Sound(f)
    {
      Filter(bits[..], numBits, numHashes)
    }

    constructor (hash: KeyHash, choice: ProbeChoice, expectedKeys: nat, bitsPerKey: nat)
      ensures Valid() && fresh(bits) && this.hash == hash
      ensures Model() == New(choice, expectedKeys, bitsPerKey)
    {
      this.hash := hash;
      var n := NumBytes(expectedKeys, bitsPerKey);
      bits := new byte[n](_ => 0);
      numBits := 8 * n;
      numHashes := choice(8 * n, if expectedKeys > 0 then expectedKeys else 1);
      new;
      assert bits[..] == seq(n, _ => 0);
    }

    method Insert(key: Bytes)
      requires Valid()
      modifies bits
      ensures Model() == Inserted(hash, old(Model()), key)
    {
      var i := 0;
      while i < numHashes
        invariant 0 <= i <= numHashes
        invariant bits[..] == MarkProbes(hash, old(bits[..]), numBits, key, i)
      {
        var idx := Probe(hash, numBits, key, i);
        bits[idx / 8] := SetBit(bits[idx / 8], idx % 8);
        i := i + 1;
      }
    }

    method Contains(key: Bytes) returns (present: bool)
      requires Valid()
      ensures present == Admits(hash, Model(), key)
    {
      var i := 0;
      while i < numHashes
        invariant 0 <= i <= numHashes
        invariant forall j :: 0 <= j < i ==> Test(bits[..], Probe(hash, numBits, key, j))
      {
        var idx := Probe(hash, numBits, key, i);
        if !TestBit(bits[idx / 8], idx % 8) {
          assert !Test(bits[..], idx);
          return false;
        }
        i := i + 1;
      }
      return true;
    }

    /** `encode`: the sizes, then the bit array. */
    method EncodeFilter() returns (buf: Bytes)
      requires Valid()
      ensures buf == Encode(Model())
    {
      buf := PutU32(numBits) + PutU32(numHashes);
      buf := buf + PutU64(bits.Length);
      buf := buf + bits[..];
    }

    /** The object for a filter read back from a file. */
    constructor Decoded(hash: KeyHash, f: Filter)
      requires Sound(f)
      ensures Valid() && fresh(bits) && this.hash == hash && Model() == f
    {
      this.hash := hash;
      bits := new byte[|f.bits|](i requires 0 <= i < |f.bits| => f.bits[i]);
      numBits, numHashes := f.numBits, f.numHashes;
      new;
      assert bits[..] == f.bits;
    }
  }
}
