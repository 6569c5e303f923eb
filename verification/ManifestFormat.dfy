// The bytes of a manifest.

module ManifestFormat {
  import opened Wrappers
  import opened ByteStrings
  import opened Crc
  import opened Parse
  import opened Seqs
  import opened LsmVersion

  const MANIFEST_MAGIC: nat := 0x4143_4352_5F4D_4652
  const MANIFEST_FORMAT: nat := 1

  function MetaBytes(t: TableMeta): Bytes {
    PutU64(t.id) + (PutU64(t.numEntries) + (PutBytes(t.firstKey) + PutBytes(t.lastKey)))
  }

  function MetasBytes(ts: seq<TableMeta>): Bytes {
    if ts == [] then [] else MetaBytes(ts[0]) + MetasBytes(ts[1..])
  }

  function TierBytes(tier: seq<TableMeta>): Bytes { PutU32(|tier|) + MetasBytes(tier) }

  function TiersBytes(tiers: Tiers): Bytes {
    if tiers == [] then [] else TierBytes(tiers[0]) + TiersBytes(tiers[1..])
  }

  function VersionBody(v: Version): Bytes {
    PutU64(MANIFEST_MAGIC) + (PutU32(MANIFEST_FORMAT) + (PutU64(v.nextSeq)
      + (PutU64(v.nextTableId) + (PutU32(|v.tiers|) + TiersBytes(v.tiers)))))
  }

  /** `encode_version`. */
  function EncodeVersion(crc: Checksum, v: Version): Bytes { Sealed(crc, VersionBody(v)) }

  predicate MetaFits(t: TableMeta) {
    t.id < POW64 && t.numEntries < POW64 && |t.firstKey| < POW32 && |t.lastKey| < POW32
  }

  predicate TierFits(tier: seq<TableMeta>) {
    |tier| < POW32 && forall i :: 0 <= i < |tier| ==> MetaFits(tier[i])
  }

  /** Counts, keys, ids and sequence numbers fit their fields. */
  predicate VersionFits(v: Version) {
    && v.nextSeq < POW64 && v.nextTableId < POW64 && |v.tiers| < POW32
    && forall i :: 0 <= i < |v.tiers| ==> TierFits(v.tiers[i])
  }

  function TakeMeta(buf: Bytes): Parsed<TableMeta> {
    match TakeU64(buf)
    case Corrupt => Corrupt
    case Got(id, b1) =>
      match TakeU64(b1)
      case Corrupt => Corrupt
      case Got(numEntries, b2) =>
        match TakeBytes(b2)
        case Corrupt => Corrupt
        case Got(firstKey, b3) =>
          match TakeBytes(b3)
          case Corrupt => Corrupt
          case Got(lastKey, rest) => Got(TableMeta(id, numEntries, firstKey, lastKey), rest)
  }

  function TakeMetas(buf: Bytes, count: nat): Parsed<seq<TableMeta>>
    decreases count
  {
    if count == 0 then Got([], buf)
    else
      match TakeMeta(buf)
      case Corrupt => Corrupt
      case Got(t, rest) =>
        match TakeMetas(rest, count - 1)
        case Corrupt => Corrupt
        case Got(ts, rest') => Got([t] + ts, rest')
  }

  function TakeTier(buf: Bytes): Parsed<seq<TableMeta>> {
    match TakeU32(buf)
    case Corrupt => Corrupt
    case Got(count, rest) => TakeMetas(rest, count)
  }

  function TakeTiers(buf: Bytes, count: nat): Parsed<Tiers>
    decreases count
  {
    if count == 0 then Got([], buf)
    else
      match TakeTier(buf)
      case Corrupt => Corrupt
      case Got(t, rest) =>
        match TakeTiers(rest, count - 1)
        case Corrupt => Corrupt
        case Got(ts, rest') => Got([t] + ts, rest')
  }

  function TakeVersionFields(buf: Bytes): Option<Version> {
    match TakeU64(buf)
    case Corrupt => None
    case Got(nextSeq, b1) =>
      match TakeU64(b1)
      case Corrupt => None
      case Got(nextTableId, b2) =>
        match TakeU32(b2)
        case Corrupt => None
        case Got(numTiers, b3) =>
          match TakeTiers(b3, numTiers)
          case Corrupt => None
          case Got(tiers, _) => Some(Version(tiers, nextSeq, nextTableId))
  }

  /** Magic, format number, then the version. */
  function TakeBody(body: Bytes): Option<Version> {
    match TakeU64(body)
    case Corrupt => None
    case Got(magic, b1) =>
      if magic != MANIFEST_MAGIC then None
      else
        match TakeU32(b1)
        case Corrupt => None
        case Got(format, b2) => if format != MANIFEST_FORMAT then None else TakeVersionFields(b2)
  }

  /** `decode_version`; `None` is a corrupt manifest. */
  function DecodeVersion(crc: Checksum, buf: Bytes): Option<Version> {
    match Unseal(crc, buf)
    case None => None
    case Some(body) => TakeBody(body)
  }

  lemma FourThen(a: Bytes, b: Bytes, c: Bytes, d: Bytes, rest: Bytes)
    ensures a + (b + (c + d)) + rest == a + (b + (c + (d + rest)))
  {
    assert c + d + rest == c + (d + rest);
    assert b + (c + d) + rest == b + (c + d + rest);
  }

  lemma TakeMetaWritten(t: TableMeta, rest: Bytes)
    requires MetaFits(t)
    ensures TakeMeta(MetaBytes(t) + rest) == Got(t, rest)
  {
    hide PutU32, PutU64, PutBytes, TakeU64, TakeBytes;
    var b3 := PutBytes(t.lastKey) + rest;
    var b2 := PutBytes(t.firstKey) + b3;
    var b1 := PutU64(t.numEntries) + b2;
    FourThen(PutU64(t.id), PutU64(t.numEntries), PutBytes(t.firstKey), PutBytes(t.lastKey), rest);
    TakeU64Written(t.id, b1);
    TakeU64Written(t.numEntries, b2);
    TakeBytesWritten(t.firstKey, b3);
    TakeBytesWritten(t.lastKey, rest);
  }

  lemma {:induction false} TakeMetasWritten(ts: seq<TableMeta>, rest: Bytes)
    requires forall i :: 0 <= i < |ts| ==> MetaFits(ts[i])
    ensures TakeMetas(MetasBytes(ts) + rest, |ts|) == Got(ts, rest)
  {
    hide MetaBytes, TakeMeta, MetaFits;
    if ts == [] {
      assert MetasBytes(ts) + rest == rest;
    } else {
      assert MetasBytes(ts) + rest == MetaBytes(ts[0]) + (MetasBytes(ts[1..]) + rest);
      TakeMetaWritten(ts[0], MetasBytes(ts[1..]) + rest);
      TakeMetasWritten(ts[1..], rest);
      assert [ts[0]] + ts[1..] == ts;
    }
  }

  lemma {:induction false} TakeTiersWritten(tiers: Tiers, rest: Bytes)
    requires forall i :: 0 <= i < |tiers| ==> TierFits(tiers[i])
    ensures TakeTiers(TiersBytes(tiers) + rest, |tiers|) == Got(tiers, rest)
  {
    hide MetasBytes, TakeMetas, MetaFits, PutU32;
    if tiers == [] {
      assert TiersBytes(tiers) + rest == rest;
    } else {
      var more := TiersBytes(tiers[1..]) + rest;
      assert TiersBytes(tiers) + rest == PutU32(|tiers[0]|) + (MetasBytes(tiers[0]) + more);
      TakeU32Written(|tiers[0]|, MetasBytes(tiers[0]) + more);
      TakeMetasWritten(tiers[0], more);
      TakeTiersWritten(tiers[1..], rest);
      assert [tiers[0]] + tiers[1..] == tiers;
    }
  }

  // --------------------------------------------------- what decodes was written

  lemma TakeMetaIff(buf: Bytes, t: TableMeta, rest: Bytes)
    ensures TakeMeta(buf) == Got(t, rest) <==> MetaFits(t) && buf == MetaBytes(t) + rest
  {
    if TakeMeta(buf) == Got(t, rest) {
      hide PutU32, PutU64, PutBytes, TakeU64, TakeBytes;
      var b1 := TakeU64(buf).rest;
      var b2 := TakeU64(b1).rest;
      var b3 := TakeBytes(b2).rest;
      TakeU64Iff(buf, t.id, b1);
      TakeU64Iff(b1, t.numEntries, b2);
      TakeBytesIff(b2, t.firstKey, b3);
      TakeBytesIff(b3, t.lastKey, rest);
      FourThen(PutU64(t.id), PutU64(t.numEntries), PutBytes(t.firstKey), PutBytes(t.lastKey), rest);
    } else if MetaFits(t) && buf == MetaBytes(t) + rest {
      TakeMetaWritten(t, rest);
    }
  }

  lemma {:induction false} MetasRead(buf: Bytes, count: nat, ts: seq<TableMeta>, rest: Bytes)
    requires TakeMetas(buf, count) == Got(ts, rest)
    ensures |ts| == count && buf == MetasBytes(ts) + rest && forall i :: 0 <= i < |ts| ==> MetaFits(ts[i])
    decreases count
  {
    hide MetaBytes, TakeMeta, MetaFits;
    if count == 0 {
      assert MetasBytes(ts) + rest == rest;
    } else {
      var b1 := TakeMeta(buf).rest;
      TakeMetaIff(buf, ts[0], b1);
      assert TakeMetas(b1, count - 1).value == ts[1..];
      MetasRead(b1, count - 1, ts[1..], rest);
      Assoc(MetaBytes(ts[0]), MetasBytes(ts[1..]), rest);
    }
  }

  lemma {:induction false} TiersRead(buf: Bytes, count: nat, tiers: Tiers, rest: Bytes)
    requires TakeTiers(buf, count) == Got(tiers, rest)
    ensures |tiers| == count && buf == TiersBytes(tiers) + rest && forall i :: 0 <= i < |tiers| ==> TierFits(tiers[i])
    decreases count
  {
    hide MetasBytes, TakeMetas, MetaFits, PutU32, TakeU32;
    if count == 0 {
      assert TiersBytes(tiers) + rest == rest;
    } else {
      var b1 := TakeU32(buf).rest;
      var b2 := TakeMetas(b1, TakeU32(buf).value).rest;
      MetasRead(b1, TakeU32(buf).value, tiers[0], b2);
      TakeU32Iff(buf, |tiers[0]|, b1);
      assert TakeTiers(b2, count - 1).value == tiers[1..];
      TiersRead(b2, count - 1, tiers[1..], rest);
      Assoc(PutU32(|tiers[0]|), MetasBytes(tiers[0]), TiersBytes(tiers[1..]) + rest);
      Assoc(TierBytes(tiers[0]), TiersBytes(tiers[1..]), rest);
    }
  }

  lemma VersionRead(buf: Bytes, v: Version)
    requires TakeVersionFields(buf) == Some(v)
    ensures VersionFits(v)
    ensures PutU64(v.nextSeq) + (PutU64(v.nextTableId) + (PutU32(|v.tiers|) + TiersBytes(v.tiers))) <= buf
  {
    hide PutU32, PutU64, TakeU32, TakeU64, TiersBytes, TakeTiers, TierFits;
    var b1 := TakeU64(buf).rest;
    var b2 := TakeU64(b1).rest;
    var b3 := TakeU32(b2).rest;
    var rest := TakeTiers(b3, TakeU32(b2).value).rest;
    TakeU64Iff(buf, v.nextSeq, b1);
    TakeU64Iff(b1, v.nextTableId, b2);
    TiersRead(b3, TakeU32(b2).value, v.tiers, rest);
    TakeU32Iff(b2, |v.tiers|, b3);
    FourThen(PutU64(v.nextSeq), PutU64(v.nextTableId), PutU32(|v.tiers|), TiersBytes(v.tiers), rest);
  }

  lemma VersionWritten(v: Version, rest: Bytes)
    requires VersionFits(v)
    ensures TakeVersionFields(PutU64(v.nextSeq) + (PutU64(v.nextTableId) + (PutU32(|v.tiers|) + TiersBytes(v.tiers))) + rest) == Some(v)
  {
    hide PutU32, PutU64, TakeU32, TakeU64, TiersBytes, TakeTiers, TierFits;
    var b3 := TiersBytes(v.tiers) + rest;
    var b2 := PutU32(|v.tiers|) + b3;
    var b1 := PutU64(v.nextTableId) + b2;
    FourThen(PutU64(v.nextSeq), PutU64(v.nextTableId), PutU32(|v.tiers|), TiersBytes(v.tiers), rest);
    TakeU64Written(v.nextSeq, b1);
    TakeU64Written(v.nextTableId, b2);
    TakeU32Written(|v.tiers|, b3);
    TakeTiersWritten(v.tiers, rest);
  }

  /** A body that is read as a version: it begins with the magic, the format number and the version's fields. */
  lemma BodyIff(body: Bytes, v: Version)
    ensures TakeBody(body) == Some(v) <==> VersionFits(v) && VersionBody(v) <= body
  {
    hide PutU32, PutU64, TakeU32, TakeU64, TiersBytes, TakeVersionFields, VersionFits;
    if TakeBody(body) == Some(v) {
      var b1 := TakeU64(body).rest;
      var b2 := TakeU32(b1).rest;
      TakeU64Iff(body, MANIFEST_MAGIC, b1);
      TakeU32Iff(b1, MANIFEST_FORMAT, b2);
      VersionRead(b2, v);
    } else if VersionFits(v) && VersionBody(v) <= body {
      var fields := PutU64(v.nextSeq) + (PutU64(v.nextTableId) + (PutU32(|v.tiers|) + TiersBytes(v.tiers)));
      var rest := body[|VersionBody(v)|..];
      assert body == VersionBody(v) + rest;
      Assoc(PutU32(MANIFEST_FORMAT), fields, rest);
      Assoc(PutU64(MANIFEST_MAGIC), PutU32(MANIFEST_FORMAT) + fields, rest);
      TakeU64Written(MANIFEST_MAGIC, PutU32(MANIFEST_FORMAT) + (fields + rest));
      TakeU32Written(MANIFEST_FORMAT, fields + rest);
      VersionWritten(v, rest);
    }
  }

  /** A manifest decodes to a version exactly if it is a body that begins with that version's encoding, and the body's
      checksum: whatever else is on disk is refused. */
  lemma DecodeVersionIff(crc: Checksum, buf: Bytes, v: Version)
    ensures DecodeVersion(crc, buf) == Some(v)
       <==> VersionFits(v) && exists body :: VersionBody(v) <= body && buf == body + PutU32(crc(body))
  {
    hide PutU32, VersionFits, VersionBody, TakeBody, Unseal;
    if DecodeVersion(crc, buf) == Some(v) {
      var body := Unseal(crc, buf).value;
      UnsealIff(crc, buf, body);
      BodyIff(body, v);
    } else if VersionFits(v) {
      if body :| VersionBody(v) <= body && buf == body + PutU32(crc(body)) {
        UnsealIff(crc, buf, body);
        BodyIff(body, v);
      }
    }
  }

  /** What is written to the manifest is what is read back, for every version. */
  lemma VersionRoundTrip(crc: Checksum, v: Version)
    requires VersionFits(v)
    ensures DecodeVersion(crc, EncodeVersion(crc, v)) == Some(v)
  {
    hide VersionFits, VersionBody, TakeBody, Unseal;
    UnsealSealed(crc, VersionBody(v));
    BodyIff(VersionBody(v), v);
  }

  /** A manifest with any one byte changed does not decode. */
  lemma DamagedManifest(crc: Checksum, v: Version, p: nat, x: byte)
    requires DetectsOneByte(crc) && p < |EncodeVersion(crc, v)| && x != EncodeVersion(crc, v)[p]
    ensures DecodeVersion(crc, EncodeVersion(crc, v)[p := x]) == None
  {
    UnsealDamaged(crc, VersionBody(v), p, x);
  }

  /** A manifest begins with `ACCR_MFR`, low byte first, and format number 1. */
  lemma ManifestLayout(v: Version)
    ensures VersionBody(v)[..12] == [0x52, 0x46, 0x4D, 0x5F, 0x52, 0x43, 0x43, 0x41, 1, 0, 0, 0]
  {
    assert PutU64(MANIFEST_MAGIC) == [0x52, 0x46, 0x4D, 0x5F, 0x52, 0x43, 0x43, 0x41];
    assert PutU32(MANIFEST_FORMAT) == [1, 0, 0, 0];
    hide PutU64, PutU32, TiersBytes;
  }
}
