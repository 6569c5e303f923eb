// WAL frames: `[payload_len u32][crc32(payload) u32][payload]`, laid end to end,
// and the scan that recovery runs over a segment's bytes.

module Frame {
  import opened Wrappers
  import opened ByteStrings
  import opened Crc

  const HEADER_SZ: nat := 8

  datatype FrameError = Truncated | BadCrc

  datatype DecodedFrame = DecodedFrame(payload: Bytes, totalLen: nat)

  /** A payload whose length the `u32` header field can hold. */
  predicate Fits(payload: Bytes) { |payload| < POW32 }

  predicate AllFit(ps: seq<Bytes>) { forall i :: 0 <= i < |ps| ==> Fits(ps[i]) }

  function Encode(crc: Checksum, payload: Bytes): (f: Bytes)
    ensures |f| == HEADER_SZ + |payload|
  {
    PutU32(|payload|) + PutU32(crc(payload)) + payload
  }

  function Decode(crc: Checksum, buf: Bytes, offset: nat): (r: Result<DecodedFrame, FrameError>)
    requires offset <= |buf|
    ensures r.Ok? ==> offset + r.value.totalLen <= |buf| && r.value.totalLen >= HEADER_SZ
  {
    if offset + HEADER_SZ > |buf| then Err(Truncated)
    else
      var len := GetU32(buf[offset..offset + 4]);
      var want := GetU32(buf[offset + 4..offset + HEADER_SZ]);
      var end := offset + HEADER_SZ + len;
      if end > |buf| then Err(Truncated)
      else
        var payload := buf[offset + HEADER_SZ..end];
        if crc(payload) != want then Err(BadCrc)
        else Ok(DecodedFrame(payload, HEADER_SZ + len))
  }

  lemma HeaderFields(crc: Checksum, payload: Bytes)
    requires Fits(payload)
    ensures Encode(crc, payload)[..4] == PutU32(|payload|)
    ensures Encode(crc, payload)[4..8] == PutU32(crc(payload))
    ensures Encode(crc, payload)[8..] == payload
    ensures GetU32(Encode(crc, payload)[..4]) == |payload|
    ensures GetU32(Encode(crc, payload)[4..8]) == crc(payload)
  {
    U32RoundTrip(|payload|);
    U32RoundTrip(crc(payload));
  }

  lemma DecodeSuffix(crc: Checksum, pre: Bytes, rest: Bytes)
    ensures Decode(crc, pre + rest, |pre|) == Decode(crc, rest, 0)
  {
    var buf := pre + rest;
    if HEADER_SZ <= |rest| {
      assert buf[|pre|..|pre| + 4] == rest[..4];
      assert buf[|pre| + 4..|pre| + 8] == rest[4..8];
      var len := GetU32(rest[..4]);
      if HEADER_SZ + len <= |rest| {
        assert buf[|pre| + 8..|pre| + 8 + len] == rest[8..8 + len];
      }
    }
  }

  /** A whole frame decodes to its payload, whatever follows it. */
  lemma DecodeEncoded(crc: Checksum, payload: Bytes, rest: Bytes)
    requires Fits(payload)
    ensures Decode(crc, Encode(crc, payload) + rest, 0) == Ok(DecodedFrame(payload, HEADER_SZ + |payload|))
  {
    HeaderFields(crc, payload);
    var buf := Encode(crc, payload) + rest;
    assert buf[0..4] == Encode(crc, payload)[..4];
    assert buf[4..8] == Encode(crc, payload)[4..8];
    assert buf[8..8 + |payload|] == payload;
  }

  /** A proper prefix of a frame reads as a torn write. */
  lemma DecodeCut(crc: Checksum, payload: Bytes, n: nat)
    requires Fits(payload) && n < |Encode(crc, payload)|
    ensures Decode(crc, Encode(crc, payload)[..n], 0) == Err(Truncated)
  {
    HeaderFields(crc, payload);
    if HEADER_SZ <= n {
      assert Encode(crc, payload)[..n][0..4] == Encode(crc, payload)[..4];
    }
  }

  /** A decoded frame is the encoding of its payload. */
  lemma DecodedReencodes(crc: Checksum, buf: Bytes)
    requires Decode(crc, buf, 0).Ok?
    ensures var f := Decode(crc, buf, 0).value;
            Fits(f.payload) && f.totalLen == HEADER_SZ + |f.payload| && Encode(crc, f.payload) == buf[..f.totalLen]
  {
    var f := Decode(crc, buf, 0).value;
    U32Injective(buf[0..4]);
    U32Injective(buf[4..8]);
    assert Encode(crc, f.payload) == buf[0..4] + buf[4..8] + f.payload;
    assert buf[..f.totalLen] == buf[0..4] + buf[4..8] + buf[8..f.totalLen];
  }

  // ---------------------------------------------------------------- bit flips

  /** The payload length a header claims after bit `bit` of its length field is inverted. */
  function FlippedLength(payload: Bytes, bit: nat): nat
    requires bit < 32
  {
    GetU32(FlipAt(PutU32(|payload|), bit))
  }

  /** The one way a flipped bit escapes the checksum: it shortens the length field
      to a prefix of the payload that has the same checksum as the whole. */
  predicate Undetected(crc: Checksum, payload: Bytes, bit: nat) {
    && bit < 32
    && FlippedLength(payload, bit) < |payload|
    && crc(payload[..FlippedLength(payload, bit)]) == crc(payload)
  }

  /** Which single-bit corruptions of a frame at the end of the log a decoder accepts. */
  lemma FlipDetected(crc: Checksum, payload: Bytes, bit: nat)
    requires DetectsOneByte(crc)
    requires Fits(payload) && bit < 8 * |Encode(crc, payload)|
    ensures Decode(crc, FlipAt(Encode(crc, payload), bit), 0).Ok? <==> Undetected(crc, payload, bit)
  {
    if bit < 32 {
      LengthFlip(crc, payload, bit);
    } else if bit < 64 {
      ChecksumFlip(crc, payload, bit);
    } else {
      PayloadFlip(crc, payload, bit);
    }
  }

  lemma LengthFlip(crc: Checksum, payload: Bytes, bit: nat)
    requires Fits(payload) && bit < 32 && bit < 8 * |Encode(crc, payload)|
    ensures Decode(crc, FlipAt(Encode(crc, payload), bit), 0).Ok? <==> Undetected(crc, payload, bit)
  {
    var f, g := Encode(crc, payload), FlipAt(Encode(crc, payload), bit);
    HeaderFields(crc, payload);
    assert g[0..4] == FlipAt(PutU32(|payload|), bit);
    var len := FlippedLength(payload, bit);
    LengthChanges(payload, bit);
    assert g[4..8] == f[4..8];
    if len < |payload| {
      assert g[8..8 + len] == payload[..len];
    }
  }

  lemma ChecksumFlip(crc: Checksum, payload: Bytes, bit: nat)
    requires Fits(payload) && 32 <= bit < 64 && bit < 8 * |Encode(crc, payload)|
    ensures Decode(crc, FlipAt(Encode(crc, payload), bit), 0) == Err(BadCrc)
  {
    var f, g := Encode(crc, payload), FlipAt(Encode(crc, payload), bit);
    HeaderFields(crc, payload);
    assert g[0..4] == f[0..4] && g[8..8 + |payload|] == payload;
    assert g[4..8][bit / 8 - 4] == g[bit / 8] && f[4..8][bit / 8 - 4] == f[bit / 8];
    U32Distinct(g[4..8], f[4..8]);
  }

  lemma PayloadFlip(crc: Checksum, payload: Bytes, bit: nat)
    requires DetectsOneByte(crc)
    requires Fits(payload) && 64 <= bit < 8 * |Encode(crc, payload)|
    ensures Decode(crc, FlipAt(Encode(crc, payload), bit), 0) == Err(BadCrc)
  {
    var f, g := Encode(crc, payload), FlipAt(Encode(crc, payload), bit);
    HeaderFields(crc, payload);
    assert g[0..4] == f[0..4] && g[4..8] == f[4..8];
    var p' := g[8..8 + |payload|];
    assert p'[bit / 8 - 8] == g[bit / 8] && payload[bit / 8 - 8] == f[bit / 8];
    forall j | 0 <= j < |p'| && j != bit / 8 - 8
      ensures p'[j] == payload[j]
    {
      assert p'[j] == g[j + 8] && payload[j] == f[j + 8];
    }
    assert DifferAt(p', payload, bit / 8 - 8);
  }

  /** The same for a frame with more bytes behind it: what a flipped length field then claims may reach into them. */
  lemma FlipInPlace(crc: Checksum, payload: Bytes, rest: Bytes, bit: nat)
    requires DetectsOneByte(crc) && Fits(payload) && bit < 8 * |Encode(crc, payload)|
    ensures var g := FlipAt(Encode(crc, payload) + rest, bit);
      Decode(crc, g, 0).Ok? <==>
        bit < 32 && HEADER_SZ + FlippedLength(payload, bit) <= |g|
        && crc(g[HEADER_SZ..HEADER_SZ + FlippedLength(payload, bit)]) == crc(payload)
  {
    var f := Encode(crc, payload);
    var g := FlipAt(f + rest, bit);
    assert g == FlipAt(f, bit) + rest;
    HeaderFields(crc, payload);
    if bit < 32 {
      assert g[0..4] == FlipAt(PutU32(|payload|), bit);
      assert g[4..8] == f[4..8];
    } else {
      if bit < 64 { ChecksumFlip(crc, payload, bit); } else { PayloadFlip(crc, payload, bit); }
      MismatchStays(crc, FlipAt(f, bit), rest);
    }
  }

  /** A checksum mismatch does not go away with more bytes. */
  lemma MismatchStays(crc: Checksum, buf: Bytes, rest: Bytes)
    requires Decode(crc, buf, 0) == Err(BadCrc)
    ensures Decode(crc, buf + rest, 0) == Err(BadCrc)
  {
    var all := buf + rest;
    var len := GetU32(buf[0..4]);
    assert all[0..4] == buf[0..4] && all[4..8] == buf[4..8] && all[8..8 + len] == buf[8..8 + len];
  }

  lemma LengthChanges(payload: Bytes, bit: nat)
    requires Fits(payload) && bit < 32
    ensures FlippedLength(payload, bit) != |payload|
  {
    U32RoundTrip(|payload|);
    U32Distinct(PutU32(|payload|), FlipAt(PutU32(|payload|), bit));
  }

  /** The escape is real: these four bytes have checksum 0, that of the empty payload,
      and clearing bit 2 of their length 4 leaves length 0. */
  lemma UndetectedExists()
    ensures Undetected(Crc32, [0x9D, 0x0A, 0xD9, 0x6D], 2)
  {
    WitnessChecksums();
    assert PutU32(4) == [4, 0, 0, 0];
    assert FlipAt(PutU32(4), 2) == [0, 0, 0, 0];
    assert [0x9D, 0x0A, 0xD9, 0x6D][..0] == [];
  }

  // ------------------------------------------------------------------- frames

  function Frames(crc: Checksum, ps: seq<Bytes>): Bytes
    decreases |ps|
  {
    if ps == [] then [] else Encode(crc, ps[0]) + Frames(crc, ps[1..])
  }

  lemma {:induction false} FramesAppend(crc: Checksum, ps: seq<Bytes>, qs: seq<Bytes>)
    ensures Frames(crc, ps + qs) == Frames(crc, ps) + Frames(crc, qs)
    decreases |ps|
  {
    if ps == [] {
      assert ps + qs == qs;
    } else {
      assert (ps + qs)[1..] == ps[1..] + qs;
      FramesAppend(crc, ps[1..], qs);
    }
  }

  lemma FramesOne(crc: Checksum, p: Bytes)
    ensures Frames(crc, [p]) == Encode(crc, p)
  {
    assert Frames(crc, [p][1..]) == [];
  }
}
