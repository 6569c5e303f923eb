// The bytes of a log record.

module RecordFormat {
  import opened Wrappers
  import opened ByteStrings
  import opened Parse
  import opened Versions
  import Frame

  const REC_TAG_DELETE: byte := 0
  const REC_TAG_PUT: byte := 1

  /** `encode_record`. */
  function EncodeRecord(r: Record): Bytes {
    match r.value.kind
    case Value(v) => PutU64(r.value.stamp) + ([REC_TAG_PUT] + (PutBytes(r.key) + PutBytes(v)))
    case Tombstone => PutU64(r.value.stamp) + ([REC_TAG_DELETE] + PutBytes(r.key))
  }

  predicate RecordFits(r: Record) {
    && r.value.stamp < POW64 && |r.key| < POW32
    && (r.value.kind.Value? ==> |r.value.kind.bytes| < POW32)
    && |EncodeRecord(r)| < POW32
  }

  /** `decode_record`; `None` is a corrupt record. */
  function DecodeRecord(buf: Bytes): Option<Record> {
    match TakeU64(buf)
    case Corrupt => None
    case Got(stamp, b1) =>
      match TakeU8(b1)
      case Corrupt => None
      case Got(tag, b2) =>
        match TakeBytes(b2)
        case Corrupt => None
        case Got(key, b3) =>
          if tag == REC_TAG_PUT then
            match TakeBytes(b3)
            case Corrupt => None
            case Got(v, _) => Some(Record(key, InternalValue(stamp, Value(v))))
          else if tag == REC_TAG_DELETE then Some(Record(key, InternalValue(stamp, Tombstone)))
          else None
  }

  /** Where the parts of a record lie: its number, a tag that is 1 for a put and 0 for a delete, then the key. */
  lemma RecordLayout(r: Record)
    ensures EncodeRecord(r)[..8] == PutU64(r.value.stamp) && EncodeRecord(r)[8] == (if r.value.kind.Value? then 1 else 0)
    ensures EncodeRecord(r)[9..13 + |r.key|] == PutU32(|r.key|) + r.key
  {
    hide PutU64, PutU32;
  }

  /** A record fits exactly if its number fits 64 bits and its encoding, of 13 bytes and the key and, for a put, 4 bytes
      and the value, is under 4 GiB. */
  lemma RecordFitsIff(r: Record)
    ensures RecordFits(r) <==> r.value.stamp < POW64 && |EncodeRecord(r)| < 0x1_0000_0000
    ensures |EncodeRecord(r)| == 13 + |r.key| + if r.value.kind.Value? then 4 + |r.value.kind.bytes| else 0
  {
  }

  /** What decodes to a record begins with that record's encoding, and nothing else decodes. */
  lemma DecodeRecordIff(buf: Bytes, r: Record)
    ensures DecodeRecord(buf) == Some(r) <==>
      && r.value.stamp < POW64 && |r.key| < POW32 && (r.value.kind.Value? ==> |r.value.kind.bytes| < POW32)
      && EncodeRecord(r) <= buf
  {
    hide PutU64, PutBytes, PutU32, TakeU64, TakeBytes;
    if DecodeRecord(buf) == Some(r) {
      DecodedBegins(buf, r);
    } else if r.value.stamp < POW64 && |r.key| < POW32 && (r.value.kind.Value? ==> |r.value.kind.bytes| < POW32) && EncodeRecord(r) <= buf {
      var rest := buf[|EncodeRecord(r)|..];
      assert buf == EncodeRecord(r) + rest;
      EncodedDecodes(r, rest);
    }
  }

  lemma DecodedBegins(buf: Bytes, r: Record)
    requires DecodeRecord(buf) == Some(r)
    ensures r.value.stamp < POW64 && |r.key| < POW32 && (r.value.kind.Value? ==> |r.value.kind.bytes| < POW32)
    ensures EncodeRecord(r) <= buf
  {
    hide PutU64, PutBytes, PutU32, TakeU64, TakeBytes;
    var b1 := TakeU64(buf).rest;
    TakeU64Iff(buf, r.value.stamp, b1);
    var b2 := TakeU8(b1).rest;
    var b3 := TakeBytes(b2).rest;
    TakeBytesIff(b2, r.key, b3);
    assert b1 == [b1[0]] + (PutBytes(r.key) + b3);
    match r.value.kind
    case Value(v) =>
      var rest := TakeBytes(b3).rest;
      TakeBytesIff(b3, v, rest);
      assert buf == EncodeRecord(r) + rest;
    case Tombstone =>
      assert buf == EncodeRecord(r) + b3;
  }

  lemma EncodedDecodes(r: Record, rest: Bytes)
    requires r.value.stamp < POW64 && |r.key| < POW32 && (r.value.kind.Value? ==> |r.value.kind.bytes| < POW32)
    ensures DecodeRecord(EncodeRecord(r) + rest) == Some(r)
  {
    hide PutU64, PutBytes, PutU32, TakeU64, TakeBytes;
    match r.value.kind
    case Value(v) =>
      var b3 := PutBytes(v) + rest;
      var b2 := PutBytes(r.key) + b3;
      var b1 := [REC_TAG_PUT] + b2;
      assert EncodeRecord(r) + rest == PutU64(r.value.stamp) + b1;
      TakeU64Written(r.value.stamp, b1);
      TakeBytesWritten(r.key, b3);
      TakeBytesWritten(v, rest);
    case Tombstone =>
      var b2 := PutBytes(r.key) + rest;
      var b1 := [REC_TAG_DELETE] + b2;
      assert EncodeRecord(r) + rest == PutU64(r.value.stamp) + b1;
      TakeU64Written(r.value.stamp, b1);
      TakeBytesWritten(r.key, rest);
  }

  lemma RecordRoundTrip(r: Record)
    requires RecordFits(r)
    ensures DecodeRecord(EncodeRecord(r)) == Some(r)
  {
    hide DecodeRecord;
    DecodeRecordIff(EncodeRecord(r), r);
  }

  function EncodeRecords(rs: seq<Record>): (ps: seq<Bytes>)
    ensures |ps| == |rs|
    ensures forall i :: 0 <= i < |rs| ==> ps[i] == EncodeRecord(rs[i])
  {
    if rs == [] then [] else [EncodeRecord(rs[0])] + EncodeRecords(rs[1..])
  }

  function DecodeRecords(ps: seq<Bytes>): Option<seq<Record>> {
    if ps == [] then Some([])
    else
      var r := DecodeRecord(ps[0]);
      var rest := DecodeRecords(ps[1..]);
      if r.None? || rest.None? then None else Some([r.value] + rest.value)
  }

  predicate RecordsFit(rs: seq<Record>) { forall i :: 0 <= i < |rs| ==> RecordFits(rs[i]) }

  lemma {:induction false} RecordsRoundTrip(rs: seq<Record>)
    requires RecordsFit(rs)
    ensures DecodeRecords(EncodeRecords(rs)) == Some(rs)
    ensures Frame.AllFit(EncodeRecords(rs))
  {
    hide EncodeRecord, DecodeRecord;
    if rs != [] {
      RecordRoundTrip(rs[0]);
      RecordsRoundTrip(rs[1..]);
      assert [rs[0]] + rs[1..] == rs;
      forall i | 0 <= i < |rs|
        ensures Frame.Fits(EncodeRecords(rs)[i])
      {
        assert RecordFits(rs[i]);
      }
    }
  }

  lemma {:induction false} EncodeConcat(a: seq<Record>, b: seq<Record>)
    ensures EncodeRecords(a + b) == EncodeRecords(a) + EncodeRecords(b)
  {
    if a == [] {
      assert a + b == b;
    } else {
      assert (a + b)[1..] == a[1..] + b;
      EncodeConcat(a[1..], b);
    }
  }
}
