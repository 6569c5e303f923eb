// Repairing a torn log, for arbitrary bytes: recover, truncate, recover again.

module WalRepair {
  import opened Wrappers
  import opened ByteStrings
  import opened Frame
  import opened Scan
  import opened Sim
  import opened FsView
  import opened Protocols
  import opened WalModel
  import EngineModel

  /** The listed segments behind `id`. */
  function Behind(ids: seq<nat>, id: nat): (rest: seq<nat>)
    ensures forall i :: i in rest ==> i in ids
  {
    if ids == [] then [] else if ids[0] == id then ids[1..] else Behind(ids[1..], id)
  }

  /** The image once the segment recovery stopped in is cut back to its valid prefix. */
  function Repaired(img: Image, r: Recovered): Image {
    if r.tailSegment.Some? && Segment(r.tailSegment.value) in img && r.tailValidLen <= |img[Segment(r.tailSegment.value)]|
    then img[Segment(r.tailSegment.value) := img[Segment(r.tailSegment.value)][..r.tailValidLen]]
    else img
  }

  predicate Listed(img: Image, ids: seq<nat>) { Ascends(ids) && forall i :: i in ids ==> Segment(i) in img }

  lemma ListedTail(img: Image, ids: seq<nat>)
    requires Listed(img, ids) && ids != []
    ensures Listed(img, ids[1..]) && ids[0] !in ids[1..]
  {
    forall i
      ensures i in ids[1..] ==> i in ids && i != ids[0]
    {
      TailMembers(ids, i);
    }
  }

  lemma {:induction false} RecoverSame(crc: Checksum, img: Image, img': Image, ids: seq<nat>)
    requires Listed(img, ids) && Listed(img', ids) && forall i :: i in ids ==> img'[Segment(i)] == img[Segment(i)]
    ensures RecoverOver(crc, img', ids) == RecoverOver(crc, img, ids)
  {
    hide ScanOf;
    if ids != [] {
      ListedTail(img, ids);
      ListedTail(img', ids);
      RecoverSame(crc, img, img', ids[1..]);
    }
  }

  /** Where recovery stops: in a listed segment, at most at its end. */
  lemma {:induction false} StopsInListed(crc: Checksum, img: Image, ids: seq<nat>)
    requires Listed(img, ids) && ids != []
    ensures var r := RecoverOver(crc, img, ids);
      && r.tailSegment.Some? && r.tailSegment.value in ids && r.tailValidLen <= |img[Segment(r.tailSegment.value)]|
      && (r.reason == Clean ==> Behind(ids, r.tailSegment.value) == [])
  {
    hide ScanOf;
    ListedTail(img, ids);
    if ScanOf(crc, img[Segment(ids[0])]).reason == Clean && |ids| > 1 { StopsInListed(crc, img, ids[1..]); }
  }

  /** What a second recovery finds: the same records, and then whatever lies in the segments behind the repaired one. */
  function Again(crc: Checksum, img: Image, ids: seq<nat>, r: Recovered): Recovered
    requires Listed(img, ids) && r.tailSegment.Some?
  {
    var rest := Behind(ids, r.tailSegment.value);
    if rest == [] then r.(reason := Clean)
    else
      var more := RecoverOver(crc, img, rest);
      more.(records := r.records + more.records)
  }

  lemma {:induction false} RepairOver(crc: Checksum, img: Image, ids: seq<nat>)
    requires Listed(img, ids) && ids != []
    ensures RecoverOver(crc, img, ids).tailSegment.Some?
    ensures Listed(Repaired(img, RecoverOver(crc, img, ids)), ids)
    ensures RecoverOver(crc, Repaired(img, RecoverOver(crc, img, ids)), ids) == Again(crc, img, ids, RecoverOver(crc, img, ids))
  {
    hide ScanOf;
    StopsInListed(crc, img, ids);
    ListedTail(img, ids);
    var r := RecoverOver(crc, img, ids);
    var id := r.tailSegment.value;
    var img' := Repaired(img, r);
    var first := ScanOf(crc, img[Segment(ids[0])]);
    if first.reason != Clean || |ids| == 1 {
      RepairedScansClean(crc, img[Segment(id)]);
      if |ids| > 1 { RecoverSame(crc, img, img', ids[1..]); }
    } else {
      StopsInListed(crc, img, ids[1..]);
      RepairOver(crc, img, ids[1..]);
      var rest := RecoverOver(crc, img, ids[1..]);
      assert Repaired(img, rest) == img';
      var later := Behind(ids, id);
      if later != [] {
        var more := RecoverOver(crc, img, later);
        assert first.records + (rest.records + more.records) == first.records + rest.records + more.records;
      }
    }
  }

  /** The listing of an image, with its segments. */
  function IdsIn(img: Image): set<nat> { SegmentIds(img.Keys) }

  lemma ListingListed(img: Image)
    ensures Listed(img, Ascending(IdsIn(img)))
  {
    AscendingLists(IdsIn(img));
    ListedExist(img);
  }

  lemma RepairedNames(img: Image, r: Recovered)
    ensures Repaired(img, r).Keys == img.Keys
  {
  }

  /** Is the segment recovery stopped in the last one? */
  ghost predicate StoppedInLast(img: Image, r: Recovered) {
    r.tailSegment.Some? ==> Behind(Ascending(IdsIn(img)), r.tailSegment.value) == []
  }

  /** What the segments behind the one recovery stopped in would yield. */
  ghost function Unread(crc: Checksum, img: Image, r: Recovered): seq<Bytes> {
    if r.tailSegment.None? then []
    else
      ListingListed(img);
      RecoverOver(crc, img, Behind(Ascending(IdsIn(img)), r.tailSegment.value)).records
  }

  /** Recover, truncate, recover: when the torn segment is the last one, the same records, cleanly. In general the same
      records are found exactly if no segment behind the torn one holds a readable record. */
  lemma RecoverTruncateRecover(crc: Checksum, img: Image)
    ensures var r := Recover(crc, img);
            var again := Recover(crc, Repaired(img, r));
      && (StoppedInLast(img, r) ==> again == r.(reason := Clean))
      && (again.records == r.records <==> Unread(crc, img, r) == [])
  {
    hide ScanOf, RecoverOver, Ascending;
    var ids, r := Ascending(IdsIn(img)), Recover(crc, img);
    ListingListed(img);
    RepairedNames(img, r);
    NoneListed(crc, img);
    if ids != [] {
      StopsInListed(crc, img, ids);
      RepairOver(crc, img, ids);
      var more := Unread(crc, img, r);
      assert r.records + more == r.records <==> more == [] by { assert |r.records + more| == |r.records| + |more|; }
    }
  }

  /** A log whose first segment is torn and whose second holds one empty record. */
  function TornFirst(crc: Checksum): Image { map[Segment(1) := [0], Segment(2) := Frames(crc, [[]])] }

  /** Repairing a torn segment that is not the last can bring records back: none is recovered from this log, and one
      after the repair. */
  lemma RecordReturns(crc: Checksum)
    ensures var r := Recover(crc, TornFirst(crc));
      r.records == [] && Recover(crc, Repaired(TornFirst(crc), r)).records == [[]]
  {
    hide Ascending, Frames;
    var img := TornFirst(crc);
    forall i
      ensures i in IdsIn(img) <==> i in [1, 2]
    {
      SegmentIdIn(img.Keys, i);
    }
    AscendingLists(IdsIn(img));
    AscendingUnique(Ascending(IdsIn(img)), [1, 2]);
    assert [1, 2][1..] == [2];
    OneByteIsTorn(crc);
    assert Fits([]);
    ScanClean(crc, [[]]);
    ListingListed(img);
    RecoverTruncateRecover(crc, img);
    RepairOver(crc, img, [1, 2]);
    assert RecoverOver(crc, img, [2]).records == [[]];
    RepairedNames(img, Recover(crc, img));
  }

  lemma OneByteIsTorn(crc: Checksum)
    ensures ScanOf(crc, [0]) == Scanned([], 0, StoppedTruncated)
  {
  }

  // ------------------------------------------------------------ after the repair

  lemma {:induction false} AppendOver(crc: Checksum, img: Image, ids: seq<nat>, ps: seq<Bytes>)
    requires Listed(img, ids) && ids != [] && AllFit(ps) && RecoverOver(crc, img, ids).reason == Clean
    ensures var last := Segment(ids[|ids| - 1]);
            var img' := img[last := img[last] + Frames(crc, ps)];
            Listed(img', ids) && RecoverOver(crc, img', ids).records == RecoverOver(crc, img, ids).records + ps
            && RecoverOver(crc, img', ids).reason == Clean
  {
    hide ScanOf, Frames, AllFit;
    var last := ids[|ids| - 1];
    var buf := img[Segment(last)];
    var img' := img[Segment(last) := buf + Frames(crc, ps)];
    ListedTail(img, ids);
    if |ids| == 1 {
      CleanIsFrames(crc, buf);
      var all := ScanOf(crc, buf).records + ps;
      FramesAppend(crc, ScanOf(crc, buf).records, ps);
      AllFitConcat(ScanOf(crc, buf).records, ps);
      ScanClean(crc, all);
    } else {
      assert ids[1..][|ids[1..]| - 1] == last;
      AppendOver(crc, img, ids[1..], ps);
      assert last in ids[1..];
      var rest := RecoverOver(crc, img, ids[1..]);
      var first := ScanOf(crc, img[Segment(ids[0])]);
      assert first.records + (rest.records + ps) == first.records + rest.records + ps;
    }
  }

  lemma AllFitConcat(a: seq<Bytes>, b: seq<Bytes>)
    requires AllFit(a) && AllFit(b)
    ensures AllFit(a + b)
  {
  }

  /** A buffer that scans cleanly is exactly its frames. */
  lemma CleanIsFrames(crc: Checksum, buf: Bytes)
    requires ScanOf(crc, buf).reason == Clean
    ensures Frames(crc, ScanOf(crc, buf).records) == buf && AllFit(ScanOf(crc, buf).records)
  {
    hide Frames;
    CleanConsumesAll(crc, buf);
    ValidPrefixReencodes(crc, buf);
    assert buf[..|buf|] == buf;
  }

  /** What is appended to a clean log is recovered behind what was there. */
  lemma LaterAppends(crc: Checksum, img: Image, ps: seq<Bytes>)
    requires Recover(crc, img).reason == Clean && Recover(crc, img).tailSegment.Some? && AllFit(ps)
    ensures var seg := Segment(Recover(crc, img).tailSegment.value);
      && seg in img
      && Recover(crc, img[seg := img[seg] + Frames(crc, ps)]).records == Recover(crc, img).records + ps
      && Recover(crc, img[seg := img[seg] + Frames(crc, ps)]).reason == Clean
  {
    hide ScanOf, Frames, AllFit, RecoverOver, Ascending;
    var ids, r := Ascending(IdsIn(img)), Recover(crc, img);
    ListingListed(img);
    NoneListed(crc, img);
    StopsInListed(crc, img, ids);
    LastStop(ids, r.tailSegment.value);
    var seg := Segment(r.tailSegment.value);
    assert img[seg := img[seg] + Frames(crc, ps)].Keys == img.Keys;
    AppendOver(crc, img, ids, ps);
  }

  lemma {:induction false} LastStop(ids: seq<nat>, id: nat)
    requires id in ids && Behind(ids, id) == []
    ensures ids[|ids| - 1] == id
  {
    if ids[0] != id { LastStop(ids[1..], id); }
  }

  // ------------------------------------------------------------ crashing meanwhile

  /** A crash at any operation of the repair of a last segment, with any tear, leaves a log with the same records; the
      finished repair leaves it clean. */
  lemma RepairCrashSafe(crc: Checksum, img: Image, tear: Tear)
    requires StoppedInLast(img, Recover(crc, img)) && forall id: nat :: SegmentTmp(id) !in img
    ensures var r, fs := Recover(crc, img), SettledFs(img);
      && SafeRun(fs, EngineModel.RepairOps(fs, r), Goal(tear, (i: Image) => Recover(crc, i).records == r.records))
      && FsRun(fs, EngineModel.RepairOps(fs, r)) == SettledFs(Repaired(img, r))
  {
    hide ScanOf, RecoverOver, Ascending, SafeRun, FsRun, ReplaceOps;
    var r, fs := Recover(crc, img), SettledFs(img);
    var ok := Goal(tear, (i: Image) => Recover(crc, i).records == r.records);
    RecoverTruncateRecover(crc, img);
    SettledCrashSafe(img, ok);
    NothingRuns(fs, ok);
    if r.tailSegment.Some? {
      var id := r.tailSegment.value;
      ListingListed(img);
      NoneListed(crc, img);
      StopsInListed(crc, img, Ascending(IdsIn(img)));
      var buf := img[Segment(id)];
      assert fs.live[Segment(id)].Bytes() == buf;
      assert buf[..|buf|] == buf && img[Segment(id) := buf] == img;
      CleanStop(crc, img, Ascending(IdsIn(img)));
      if r.reason != Clean && r.tailValidLen < |buf| {
        StagedNothing(img);
        assert img + map[] == img;
        ReplaceRun(img, map[], SegmentTmp(id), Segment(id), buf[..r.tailValidLen], ok);
      }
    }
  }

  /** A clean stop is at the end of the segment. */
  lemma {:induction false} CleanStop(crc: Checksum, img: Image, ids: seq<nat>)
    requires Listed(img, ids) && ids != []
    ensures var r := RecoverOver(crc, img, ids);
      r.tailSegment.Some? && r.tailSegment.value in ids
      && (r.reason == Clean ==> r.tailValidLen == |img[Segment(r.tailSegment.value)]|)
  {
    hide ScanOf;
    ListedTail(img, ids);
    CleanConsumesAll(crc, img[Segment(ids[0])]);
    if ScanOf(crc, img[Segment(ids[0])]).reason == Clean && |ids| > 1 { CleanStop(crc, img, ids[1..]); }
  }

  // ---------------------------------------------------------------- torn batches

  /** The frame a flipped bit hits, read with whatever follows it, does not decode. */
  predicate FlipNoticed(crc: Checksum, batch: seq<Bytes>, bit: nat)
    requires AllFit(batch) && bit < 8 * |Frames(crc, batch)|
  {
    var len := |Encode(crc, batch[0])|;
    if bit < 8 * len then Decode(crc, FlipAt(Frames(crc, batch), bit), 0).Err?
    else FlipNoticed(crc, batch[1..], bit - 8 * len)
  }

  lemma FlipBehind(a: Bytes, b: Bytes, bit: nat)
    requires 8 * |a| <= bit < 8 * |a + b|
    ensures bit - 8 * |a| < 8 * |b| && FlipAt(a + b, bit) == a + FlipAt(b, bit - 8 * |a|)
  {
    assert (bit - 8 * |a|) / 8 == bit / 8 - |a| && (bit - 8 * |a|) % 8 == bit % 8;
  }

  lemma {:induction false} FlippedBatch(crc: Checksum, batch: seq<Bytes>, bit: nat) returns (k: nat)
    requires AllFit(batch) && bit < 8 * |Frames(crc, batch)| && FlipNoticed(crc, batch, bit)
    ensures k < |batch| && ScanOf(crc, FlipAt(Frames(crc, batch), bit)).records == batch[..k]
    decreases |batch|
  {
    hide Encode, Decode, FlipAt;
    var f, rest := Encode(crc, batch[0]), Frames(crc, batch[1..]);
    if bit < 8 * |f| {
      k := 0;
    } else {
      FlipBehind(f, rest, bit);
      var flipped := FlipAt(rest, bit - 8 * |f|);
      k := FlippedBatch(crc, batch[1..], bit - 8 * |f|);
      DecodeEncoded(crc, batch[0], flipped);
      HeaderFields(crc, batch[0]);
      assert (f + flipped)[|f|..] == flipped;
      assert [batch[0]] + batch[1..][..k] == batch[..k + 1];
      k := k + 1;
    }
  }

  /** Group commit appends several frames before it syncs them. Whatever a power loss does to the unsynced batch,
      recovery yields everything that was synced and then a prefix of the batch. */
  lemma TornBatch(crc: Checksum, ps: seq<Bytes>, batch: seq<Bytes>, tear: Tear) returns (k: nat)
    requires AllFit(ps) && AllFit(batch) && TearFits(|Frames(crc, batch)|, tear)
    requires tear.BitFlip? ==> FlipNoticed(crc, batch, tear.bit)
    ensures k <= |batch|
    ensures ScanOf(crc, Frames(crc, ps) + Sim.TornTail(Frames(crc, batch), tear)).records == ps + batch[..k]
  {
    hide ScanOf, Frames, FlipNoticed, FlipAt;
    var tail := Sim.TornTail(Frames(crc, batch), tear);
    ScanFrames(crc, ps, tail);
    match tear
    case Drop =>
      k := 0;
      NothingScans(crc);
    case Truncate(n) =>
      k := WholeFrames(crc, batch, n);
      Scan.TornTail(crc, batch, n);
    case BitFlip(bit) => k := FlippedBatch(crc, batch, bit);
  }

  lemma {:induction false} EscapedBatch(crc: Checksum, batch: seq<Bytes>, bit: nat, k: nat)
    requires AllFit(batch) && bit < 8 * |Frames(crc, batch)| && !FlipNoticed(crc, batch, bit) && k <= |batch|
    ensures ScanOf(crc, FlipAt(Frames(crc, batch), bit)).records != batch[..k]
    decreases |batch|
  {
    hide Encode, Decode, FlipAt;
    var f, rest := Encode(crc, batch[0]), Frames(crc, batch[1..]);
    var g := FlipAt(Frames(crc, batch), bit);
    if bit < 8 * |f| {
      EscapedIsOther(crc, batch[0], rest, bit);
    } else {
      FlipBehind(f, rest, bit);
      var flipped := FlipAt(rest, bit - 8 * |f|);
      DecodeEncoded(crc, batch[0], flipped);
      HeaderFields(crc, batch[0]);
      assert (f + flipped)[|f|..] == flipped;
      if k > 0 {
        EscapedBatch(crc, batch[1..], bit - 8 * |f|, k - 1);
        var s := ScanOf(crc, g).records;
        assert s[1..] == ScanOf(crc, flipped).records && batch[..k][1..] == batch[1..][..k - 1];
      }
    }
  }

  /** A flipped frame that decodes decodes to something else. */
  lemma EscapedIsOther(crc: Checksum, p: Bytes, rest: Bytes, bit: nat)
    requires Frame.Fits(p) && bit < 8 * |Encode(crc, p)|
    requires Decode(crc, FlipAt(Encode(crc, p) + rest, bit), 0).Ok?
    ensures Decode(crc, FlipAt(Encode(crc, p) + rest, bit), 0).value.payload != p
  {
    hide Decode;
    var f := Encode(crc, p);
    var g := FlipAt(f + rest, bit);
    DecodedReencodes(crc, g);
    HeaderFields(crc, p);
    assert f[bit / 8] == (f + rest)[bit / 8] && g[..|f|][bit / 8] == g[bit / 8];
  }

  /** Exactly when recovery yields everything synced and then a prefix of the unsynced batch. */
  lemma TornBatchIff(crc: Checksum, ps: seq<Bytes>, batch: seq<Bytes>, tear: Tear)
    requires AllFit(ps) && AllFit(batch) && TearFits(|Frames(crc, batch)|, tear)
    ensures var s := ScanOf(crc, Frames(crc, ps) + Sim.TornTail(Frames(crc, batch), tear)).records;
      (exists k :: 0 <= k <= |batch| && s == ps + batch[..k]) <==> (tear.BitFlip? ==> FlipNoticed(crc, batch, tear.bit))
  {
    hide ScanOf, Frames, FlipNoticed, FlipAt;
    var s := ScanOf(crc, Frames(crc, ps) + Sim.TornTail(Frames(crc, batch), tear)).records;
    if tear.BitFlip? && !FlipNoticed(crc, batch, tear.bit) {
      ScanFrames(crc, ps, FlipAt(Frames(crc, batch), tear.bit));
      forall k | 0 <= k <= |batch|
        ensures s != ps + batch[..k]
      {
        EscapedBatch(crc, batch, tear.bit, k);
        assert s[|ps|..] == ScanOf(crc, FlipAt(Frames(crc, batch), tear.bit)).records && (ps + batch[..k])[|ps|..] == batch[..k];
      }
    } else {
      var k := TornBatch(crc, ps, batch, tear);
    }
  }

  lemma NothingScans(crc: Checksum)
    ensures ScanOf(crc, []).records == []
  {
  }
}
