// Recovery's scan of one segment: the torn-tail rule.

module Scan {
  import opened Wrappers
  import opened ByteStrings
  import opened Frame
  import Seqs

  datatype StopReason = Clean | StoppedTruncated | StoppedBadCrc

  datatype Scanned = Scanned(records: seq<Bytes>, validLen: nat, reason: StopReason)

  /** What scanning `buf` from offset 0 yields. */
  function ScanOf(crc: Checksum, buf: Bytes): (s: Scanned)
    ensures s.validLen <= |buf|
    decreases |buf|
  {
    if buf == [] then Scanned([], 0, Clean)
    else match Decode(crc, buf, 0)
      case Err(Truncated) => Scanned([], 0, StoppedTruncated)
      case Err(BadCrc) => Scanned([], 0, StoppedBadCrc)
      case Ok(f) =>
        var rest := ScanOf(crc, buf[f.totalLen..]);
        Scanned([f.payload] + rest.records, f.totalLen + rest.validLen, rest.reason)
  }

  /** The loop of `scan_buffer`: `out` grows by the records, the cursor `off` by whole frames. */
  method ScanBuffer(crc: Checksum, buf: Bytes, out: seq<Bytes>) returns (grown: seq<Bytes>, validLen: nat, reason: StopReason)
    ensures var s := ScanOf(crc, buf); grown == out + s.records && validLen == s.validLen && reason == s.reason
  {
    hide Decode;
    var off := 0;
    grown := out;
    while true
      invariant off <= |buf|
      invariant var s, t := ScanOf(crc, buf), ScanOf(crc, buf[off..]);
                grown + t.records == out + s.records && off + t.validLen == s.validLen && t.reason == s.reason
      decreases |buf| - off
    {
      if off == |buf| {
        assert ScanOf(crc, buf[off..]) == Scanned([], 0, Clean);
        return grown, off, Clean;
      }
      DecodeSuffix(crc, buf[..off], buf[off..]);
      assert buf[..off] + buf[off..] == buf;
      match Decode(crc, buf, off) {
        case Ok(f) =>
          assert buf[off..][f.totalLen..] == buf[off + f.totalLen..];
          assert grown + ([f.payload] + ScanOf(crc, buf[off + f.totalLen..]).records)
              == (grown + [f.payload]) + ScanOf(crc, buf[off + f.totalLen..]).records;
          grown := grown + [f.payload];
          off := off + f.totalLen;
        case Err(Truncated) => return grown, off, StoppedTruncated;
        case Err(BadCrc) => return grown, off, StoppedBadCrc;
      }
    }
  }

  /** Whole frames at the front are recovered one by one; the scan then continues behind them. */
  lemma {:induction false} ScanFrames(crc: Checksum, ps: seq<Bytes>, rest: Bytes)
    requires AllFit(ps)
    ensures ScanOf(crc, Frames(crc, ps) + rest)
         == Scanned(ps + ScanOf(crc, rest).records, |Frames(crc, ps)| + ScanOf(crc, rest).validLen, ScanOf(crc, rest).reason)
    decreases |ps|
  {
    hide Encode, Decode;
    if ps == [] {
      assert Frames(crc, ps) + rest == rest;
      assert ps + ScanOf(crc, rest).records == ScanOf(crc, rest).records;
    } else {
      var buf := Frames(crc, ps) + rest;
      var tail := Frames(crc, ps[1..]) + rest;
      Seqs.Assoc(Encode(crc, ps[0]), Frames(crc, ps[1..]), rest);
      assert buf == Encode(crc, ps[0]) + tail;
      DecodeEncoded(crc, ps[0], tail);
      assert buf[HEADER_SZ + |ps[0]|..] == tail;
      ScanFrames(crc, ps[1..], rest);
      Seqs.Assoc([ps[0]], ps[1..], ScanOf(crc, rest).records);
      assert [ps[0]] + ps[1..] == ps;
    }
  }

  lemma ScanClean(crc: Checksum, ps: seq<Bytes>)
    requires AllFit(ps)
    ensures ScanOf(crc, Frames(crc, ps)) == Scanned(ps, |Frames(crc, ps)|, Clean)
  {
    ScanFrames(crc, ps, []);
    assert Frames(crc, ps) + [] == Frames(crc, ps);
    assert ps + [] == ps;
  }

  /** How many whole frames of `ps` fit in the first `n` bytes of the log. */
  function WholeFrames(crc: Checksum, ps: seq<Bytes>, n: nat): (k: nat)
    requires n <= |Frames(crc, ps)|
    ensures k <= |ps|
    decreases |ps|
  {
    if ps == [] || n < |Encode(crc, ps[0])| then 0 else 1 + WholeFrames(crc, ps[1..], n - |Encode(crc, ps[0])|)
  }

  /** `WholeFrames` is the longest whole-frame prefix: it fits in `n` bytes and one more frame would not. */
  lemma {:induction false} WholeFramesIsLongest(crc: Checksum, ps: seq<Bytes>, n: nat)
    requires n <= |Frames(crc, ps)|
    ensures var k := WholeFrames(crc, ps, n);
            |Frames(crc, ps[..k])| <= n && (k < |ps| ==> n < |Frames(crc, ps[..k + 1])|)
    decreases |ps|
  {
    if ps == [] {
    } else if n < |Encode(crc, ps[0])| {
      assert ps[..1][1..] == [];
    } else {
      var k := WholeFrames(crc, ps[1..], n - |Encode(crc, ps[0])|);
      WholeFramesIsLongest(crc, ps[1..], n - |Encode(crc, ps[0])|);
      assert ps[..k + 1][1..] == ps[1..][..k];
      if k + 1 < |ps| { assert ps[..k + 2][1..] == ps[1..][..k + 1]; }
    }
  }

  /** Torn-tail rule: cutting a log of frames anywhere recovers exactly the whole frames
      before the cut, and the scan is clean exactly when the cut is a frame boundary. */
  lemma {:induction false} TornTail(crc: Checksum, ps: seq<Bytes>, n: nat)
    requires AllFit(ps) && n <= |Frames(crc, ps)|
    ensures var k := WholeFrames(crc, ps, n);
            var s := ScanOf(crc, Frames(crc, ps)[..n]);
            && s.records == ps[..k] && s.validLen == |Frames(crc, ps[..k])|
            && (s.reason == Clean <==> n == |Frames(crc, ps[..k])|)
            && (s.reason != Clean ==> s.reason == StoppedTruncated)
    decreases |ps|
  {
    hide Encode, Decode;
    var buf := Frames(crc, ps)[..n];
    if ps == [] {
      assert buf == [];
    } else if n < |Encode(crc, ps[0])| {
      assert buf == Encode(crc, ps[0])[..n];
      DecodeCut(crc, ps[0], n);
      assert buf == [] <==> n == 0;
    } else {
      var m := n - |Encode(crc, ps[0])|;
      var tail := Frames(crc, ps[1..])[..m];
      assert buf == Encode(crc, ps[0]) + tail;
      DecodeEncoded(crc, ps[0], tail);
      assert buf[HEADER_SZ + |ps[0]|..] == tail;
      TornTail(crc, ps[1..], m);
      var k := WholeFrames(crc, ps[1..], m);
      assert ps[..k + 1] == [ps[0]] + ps[1..][..k];
      assert ps[..k + 1][1..] == ps[1..][..k];
    }
  }

  /** For arbitrary bytes: re-encoding what was recovered gives back exactly the valid prefix. */
  lemma {:induction false} ValidPrefixReencodes(crc: Checksum, buf: Bytes)
    ensures var s := ScanOf(crc, buf);
            AllFit(s.records) && Frames(crc, s.records) == buf[..s.validLen]
    decreases |buf|
  {
    hide Encode, Decode;
    if buf != [] && Decode(crc, buf, 0).Ok? {
      var f := Decode(crc, buf, 0).value;
      DecodedReencodes(crc, buf);
      var s, t := ScanOf(crc, buf), ScanOf(crc, buf[f.totalLen..]);
      ValidPrefixReencodes(crc, buf[f.totalLen..]);
      assert s.records[1..] == t.records;
      assert Frames(crc, s.records) == buf[..f.totalLen] + buf[f.totalLen..][..t.validLen];
      assert buf[..s.validLen] == buf[..f.totalLen] + buf[f.totalLen..][..t.validLen];
    }
  }

  /** Repair is idempotent: the kept prefix scans clean, to the same records. */
  lemma RepairedScansClean(crc: Checksum, buf: Bytes)
    ensures var s := ScanOf(crc, buf); ScanOf(crc, buf[..s.validLen]) == Scanned(s.records, s.validLen, Clean)
  {
    ValidPrefixReencodes(crc, buf);
    ScanClean(crc, ScanOf(crc, buf).records);
  }

  /** A torn append: the log plus a cut frame recovers the log, or the log and the frame if all of it survived. */
  lemma TornAppend(crc: Checksum, ps: seq<Bytes>, p: Bytes, n: nat)
    requires AllFit(ps) && Fits(p) && n <= |Encode(crc, p)|
    ensures var s := ScanOf(crc, Frames(crc, ps) + Encode(crc, p)[..n]);
            && s.records == (if n == |Encode(crc, p)| then ps + [p] else ps)
            && (s.reason == Clean <==> n == 0 || n == |Encode(crc, p)|)
            && s.validLen == |Frames(crc, s.records)|
  {
    ScanFrames(crc, ps, Encode(crc, p)[..n]);
    FramesOne(crc, p);
    TornTail(crc, [p], n);
    assert WholeFrames(crc, [p], n) == if n == |Encode(crc, p)| then 1 else 0;
    assert [p][..1] == [p] && ps + [] == ps;
    FramesAppend(crc, ps, [p]);
  }

  /** A bit flipped in the last frame costs exactly that frame, unless the flipped frame decodes. */
  lemma FlippedAppend(crc: Checksum, ps: seq<Bytes>, p: Bytes, bit: nat)
    requires AllFit(ps) && Fits(p) && bit < 8 * |Encode(crc, p)|
    ensures var s, g := ScanOf(crc, Frames(crc, ps) + FlipAt(Encode(crc, p), bit)), FlipAt(Encode(crc, p), bit);
            s.records == ps && s.validLen == |Frames(crc, ps)| && s.reason != Clean <==> Decode(crc, g, 0).Err?
  {
    var g := FlipAt(Encode(crc, p), bit);
    ScanFrames(crc, ps, g);
    if Decode(crc, g, 0).Ok? {
      assert |ScanOf(crc, g).records| > 0;
    } else {
      assert ps + [] == ps;
    }
  }
}
