// Opening the engine on any disk a crash may have left, and crashing while at it.

module OpenSafety {
  import opened Wrappers
  import opened ByteStrings
  import opened Numbers
  import opened Versions
  import opened Sources
  import opened Sim
  import opened FsView
  import opened Protocols
  import opened RecordFormat
  import opened WalModel
  import opened LsmVersion
  import opened ManifestFormat
  import opened Meaning
  import opened EngineModel
  import opened EngineState
  import opened LogSafety
  import Scan

  // --------------------------------------------------------------- the manifest

  const BLANK := OnDisk(EMPTY_VERSION, map[], Log([], []))

  function BlankImage(cfg: Config): Image { map[ManifestFile := EncodeVersion(cfg.codec.crc, EMPTY_VERSION)] }

  lemma BlankMeans(cfg: Config)
    ensures DiskMeans(cfg, BlankImage(cfg), BLANK, map[])
  {
    hide EncodeVersion;
    var img := BlankImage(cfg);
    assert LogRecords(BLANK.log) == [] && LoggedOf(BLANK) == map[];
    assert TablesOf(BLANK) == [];
    var s := RecoveredStack(BLANK);
    assert s.memory + s.tables == [map[]];
    forall k
      ensures Lookup([map[]], k) == None
    {
      LookupInFirst(map[], [], k);
      var none: Source := map[];
      assert [none] + [] == [none];
    }
  }

  lemma LiveIsImage(img: Image)
    ensures LiveImage(SettledFs(img)) == img
  {
    forall n | n in img
      ensures SettledFs(img).live[n].Bytes() == img[n]
    {
    }
  }

  /** First the manifest: what it says is read back, and a missing one is created durably. */
  lemma ManifestSafe(cfg: Config, img: Image, kv: KV, ok: Goal) returns (img': Image, d: OnDisk)
    requires ImageMeans(cfg, img, kv) && Accepts(cfg, ok, kv)
    ensures var fs := SettledFs(img);
      && ManifestRead(cfg, fs) == Some(d.version)
      && SafeRun(fs, ManifestOps(cfg, fs), ok) && FsRun(fs, ManifestOps(cfg, fs)) == SettledFs(img')
    ensures DiskMeans(cfg, img', d, kv) && forall id: nat :: Table(id) in img' <==> Table(id) in img
  {
    hide SafeRun, FsRun, EncodeVersion, DecodeVersion, Sound, AllHeld, FreshIds, LogIn, Below, VersionFits, Accepts, ReplaceOps;
    if img == map[] && kv == map[] {
      assert ImageMeans(cfg, img, kv);
      img', d := BlankImage(cfg), BLANK;
      BlankMeans(cfg);
      AcceptedEmpty(cfg, ok);
      Accepted(cfg, ok, kv, img', d);
      StagedNothing(img);
      ReplaceRun(img, map[], ManifestTmp, ManifestFile, EncodeVersion(cfg.codec.crc, EMPTY_VERSION), ok);
    } else {
      d :| DiskMeans(cfg, img, d, kv);
      img' := img;
      assert SettledFs(img).live[ManifestFile].Bytes() == img[ManifestFile];
      VersionRoundTrip(cfg.codec.crc, d.version);
      Accepted(cfg, ok, kv, img, d);
      SettledCrashSafe(img, ok);
      NothingRuns(SettledFs(img), ok);
    }
  }

  lemma AcceptedEmpty(cfg: Config, ok: Goal)
    requires Accepts(cfg, ok, map[])
    ensures ok.accepts(map[])
  {
    assert ImageMeans(cfg, map[], map[]);
  }

  // ----------------------------------------------------------------- the tail

  /** Then the log's tail is cut back to its valid prefix. A crash while at it changes nothing that is recovered. */
  lemma RepairSafe(cfg: Config, img: Image, d: OnDisk, kv: KV, ok: Goal) returns (img': Image)
    requires DiskMeans(cfg, img, d, kv) && Accepts(cfg, ok, kv)
    ensures var fs := SettledFs(img);
            var ops := RepairOps(fs, Recover(cfg.codec.crc, LiveImage(fs)));
            SafeRun(fs, ops, ok) && FsRun(fs, ops) == SettledFs(img')
    ensures DiskMeans(cfg, img', d, kv) && img'.Keys == img.Keys
    ensures d.log.ids != [] ==> LogClean(cfg.codec.crc, img', d.log)
  {
    hide SafeRun, FsRun, Sound, AllHeld, FreshIds, LogIn, Below, Accepts, ReplaceOps, Recover, LogClean, Scan.ScanOf, ManifestSays, DecodeRecords,
      EncodeRecords, SameOutsideLog, LogRecords, TablesOf, LoggedOf;
    var crc, log := cfg.codec.crc, d.log;
    LiveIsImage(img);
    RecoverYieldsLog(crc, img, log);
    Accepted(cfg, ok, kv, img, d);
    img' := img;
    SettledCrashSafe(img, ok);
    NothingRuns(SettledFs(img), ok);
    LogInShape(crc, img, log);
    if log.ids != [] {
      var id := log.ids[|log.ids| - 1];
      var buf := img[Segment(id)];
      var s := Scan.ScanOf(crc, buf);
      CleanConsumesAll(crc, buf);
      assert SettledFs(img).live[Segment(id)].Bytes() == buf;
      if s.validLen == |buf| {
        CleanScanIsClean(crc, img, log);
      } else {
        img' := img[Segment(id) := buf[..s.validLen]];
        TailTruncated(crc, img, log);
        CleanIsLog(crc, img', log);
        SegmentBytesChanged(img, id, buf[..s.validLen]);
        LogChanged(cfg, img, d, img', log);
        assert d.(log := log) == d;
        Accepted(cfg, ok, kv, img', d);
        StagedNothing(img);
        assert img + map[] == img;
        ReplaceRun(img, map[], SegmentTmp(id), Segment(id), buf[..s.validLen], ok);
      }
    }
  }

  lemma LogInShape(crc: Checksum, img: Image, l: Log)
    requires LogIn(crc, img, l)
    ensures LogShape(l) && (forall i :: i in l.ids <==> Segment(i) in img)
    ensures l.ids != [] ==> Segment(l.ids[|l.ids| - 1]) in img
  {
  }

  // --------------------------------------------------------------- the segment

  lemma NoSegments(cfg: Config, img: Image, log: Log)
    requires LogIn(cfg.codec.crc, img, log)
    ensures SegmentIds(SettledFs(img).live.Keys) == {} <==> log.ids == []
  {
    hide Ascending, LogIn;
    ListedSegments(cfg, img, log);
    AscendingLists(SegmentIds(SettledFs(img).live.Keys));
    if log.ids != [] { assert log.ids[0] in log.ids; }
    if SegmentIds(SettledFs(img).live.Keys) != {} {
      var i :| i in SegmentIds(SettledFs(img).live.Keys);
      assert i in log.ids;
    }
  }

  /** Then a log without segments gets its first. */
  lemma FirstSegmentSafe(cfg: Config, img: Image, d: OnDisk, kv: KV, ok: Goal) returns (img': Image, d': OnDisk)
    requires DiskMeans(cfg, img, d, kv) && Accepts(cfg, ok, kv)
    requires d.log.ids != [] ==> LogClean(cfg.codec.crc, img, d.log)
    ensures var fs := SettledFs(img);
      SafeRun(fs, FirstSegmentOps(fs), ok) && FsRun(fs, FirstSegmentOps(fs)) == SettledFs(img')
    ensures DiskMeans(cfg, img', d', kv) && d'.version == d.version && LogRecords(d'.log) == LogRecords(d.log)
    ensures d'.log.ids != [] && LogClean(cfg.codec.crc, img', d'.log)
    ensures forall id: nat :: Table(id) in img' <==> Table(id) in img
  {
    hide SafeRun, FsRun, Sound, AllHeld, FreshIds, LogIn, Below, Accepts, LogClean, SettledFs, ManifestSays, SameOutsideLog, LogRecords, TablesOf;
    var crc := cfg.codec.crc;
    NoSegments(cfg, img, d.log);
    Accepted(cfg, ok, kv, img, d);
    LogInShape(crc, img, d.log);
    if d.log.ids == [] {
      img' := img[Segment(1) := []];
      var log := Log(d.log.ids + [1], d.log.parts + [[]]);
      d' := d.(log := log);
      SegmentAdded(crc, img, d.log, 1);
      CleanIsLog(crc, img', log);
      SegmentBytesChanged(img, 1, []);
      LogChanged(cfg, img, d, img', log);
      Accepted(cfg, ok, kv, img', d');
      CreateDurablyRun(img, Segment(1), ok);
    } else {
      img', d' := img, d;
      SettledCrashSafe(img, ok);
      NothingRuns(SettledFs(img), ok);
    }
  }

  // ------------------------------------------------------------ memory and clock

  lemma {:induction false} NextStampAbove(floor: nat, records: seq<Record>)
    ensures NextStamp(floor, records) >= floor
    ensures forall i :: 0 <= i < |records| ==> records[i].value.stamp < NextStamp(floor, records)
    decreases |records|
  {
    if records != [] {
      NextStampAbove(Max(floor, records[0].value.stamp + 1), records[1..]);
      assert forall i :: 1 <= i < |records| ==> records[i] == records[1..][i - 1];
    }
  }

  lemma {:induction false} ReplayBelow(m: Source, records: seq<Record>, n: nat)
    requires AllBelow(m, n) && forall i :: 0 <= i < |records| ==> records[i].value.stamp < n
    ensures AllBelow(Replay(m, records), n)
    decreases |records|
  {
    if records != [] {
      assert forall i :: 0 <= i < |records[1..]| ==> records[1..][i] == records[i + 1];
      ReplayBelow(InsertIfNewer(m, records[0].key, records[0].value), records[1..], n);
    }
  }

  /** The recovered engine is running: memory is the replayed log, and the clock is past every stored number. */
  lemma RecoveredRuns(cfg: Config, e: Engine, img: Image, d: OnDisk, kv: KV)
    requires DiskMeans(cfg, img, d, kv) && d.log.ids != [] && LogClean(cfg.codec.crc, img, d.log)
    requires e == Engine(SettledFs(img), d.version, LoggedOf(d), [], d.log.ids[|d.log.ids| - 1],
                         |img[Segment(d.log.ids[|d.log.ids| - 1])]|, NextStamp(d.version.nextSeq, LogRecords(d.log)))
    ensures Running(cfg, e, img, d, kv)
  {
    hide Sound, AllHeld, FreshIds, LogIn, ManifestSays, LogRecords, SettledFs, Replay, TablesOf, SegmentIs;
    var records := LogRecords(d.log);
    NextStampAbove(d.version.nextSeq, records);
    ReplayBelow(map[], records, e.nextSeq);
    assert MemorySources(e) == [LoggedOf(d)];
    assert StackOf(e, d) == RecoveredStack(d);
    var m, t := MemorySources(e), TablesOf(d);
    forall i | 0 <= i < |m + t|
      ensures AllBelow((m + t)[i], e.nextSeq)
    {
      if i > 0 {
        assert (m + t)[i] == t[i - 1];
        assert AllBelow(t[i - 1], d.version.nextSeq);
      }
    }
  }

  /** Opening succeeds on every disk that means some map, and the engine then means it; a crash at any of
      its points leaves a disk that still means it. */
  lemma OpenSafe(cfg: Config, img: Image, kv: KV, ok: Goal) returns (img': Image, d': OnDisk)
    requires ImageMeans(cfg, img, kv) && Accepts(cfg, ok, kv)
    ensures var o := OpenEffect(cfg, SettledFs(img));
      && o.outcome == Done && Safe(SettledFs(img), o, ok)
      && Running(cfg, o.engine, img', d', kv)
    ensures forall id: nat :: Table(id) in img' <==> Table(id) in img
  {
    hide SafeRun, FsRun, ManifestOps, ManifestRead, RepairOps, FirstSegmentOps, Accepts, SettledFs, OpenEffect,
      LogRecords, NextStamp, ImageMeans, LegalRun, DiskMeans, Running, LogClean;
    var fs := SettledFs(img);
    var img1, d1 := ManifestSafe(cfg, img, kv, ok);
    var fs1, ops1 := SettledFs(img1), ManifestOps(cfg, fs);
    var img2 := RepairSafe(cfg, img1, d1, kv, ok);
    var fs2, ops2 := SettledFs(img2), RepairOps(fs1, Recover(cfg.codec.crc, LiveImage(fs1)));
    img', d' := FirstSegmentSafe(cfg, img2, d1, kv, ok);
    ThreeRuns(fs, ops1, fs1, ops2, fs2, FirstSegmentOps(fs2), SettledFs(img'), ok);
    MeansLog(cfg, img1, d1, kv);
    MeansLog(cfg, img', d', kv);
    Opened(cfg, fs, img1, d1, img2, img', d');
    RecoveredRuns(cfg, OpenEffect(cfg, fs).engine, img', d', kv);
  }

  /** What the opened engine consists of. */
  lemma Opened(cfg: Config, fs: Fs, img1: Image, d1: OnDisk, img2: Image, img': Image, d': OnDisk)
    requires ManifestRead(cfg, fs) == Some(d1.version)
    requires FsRun(fs, ManifestOps(cfg, fs)) == SettledFs(img1) && LogIn(cfg.codec.crc, img1, d1.log)
    requires FsRun(SettledFs(img1), RepairOps(SettledFs(img1), Recover(cfg.codec.crc, LiveImage(SettledFs(img1))))) == SettledFs(img2)
    requires FsRun(SettledFs(img2), FirstSegmentOps(SettledFs(img2))) == SettledFs(img')
    requires d'.version == d1.version && LogRecords(d'.log) == LogRecords(d1.log) && d'.log.ids != []
    requires LogIn(cfg.codec.crc, img', d'.log)
    ensures LogShape(d'.log) && Segment(d'.log.ids[|d'.log.ids| - 1]) in img'
    ensures var o, segment := OpenEffect(cfg, fs), d'.log.ids[|d'.log.ids| - 1];
      && o.outcome == Done
      && o.ops == ManifestOps(cfg, fs) + RepairOps(SettledFs(img1), Recover(cfg.codec.crc, LiveImage(SettledFs(img1))))
                  + FirstSegmentOps(SettledFs(img2))
      && o.engine == Engine(SettledFs(img'), d'.version, LoggedOf(d'), [], segment, |img'[Segment(segment)]|,
                            NextStamp(d'.version.nextSeq, LogRecords(d'.log)))
  {
    hide FsRun, ManifestOps, ManifestRead, RepairOps, FirstSegmentOps, Recover, SettledFs,
      LogRecords, DecodeRecords, LiveImage, Replay, NextStamp, Ascending, LogIn, SegmentIds, EncodeRecords, Scan.ScanOf;
    LiveIsImage(img1);
    RecoverYieldsLog(cfg.codec.crc, img1, d1.log);
    ListedSegments(cfg, img', d'.log);
    LogInShape(cfg.codec.crc, img', d'.log);
    SettledBytes(img', Segment(d'.log.ids[|d'.log.ids| - 1]));
  }

  lemma MeansLog(cfg: Config, img: Image, d: OnDisk, kv: KV)
    requires DiskMeans(cfg, img, d, kv)
    ensures LogIn(cfg.codec.crc, img, d.log)
  {
  }

  lemma ThreeRuns(fs: Fs, ops1: seq<Op>, fs1: Fs, ops2: seq<Op>, fs2: Fs, ops3: seq<Op>, fs3: Fs, ok: Goal)
    requires SafeRun(fs, ops1, ok) && FsRun(fs, ops1) == fs1
    requires SafeRun(fs1, ops2, ok) && FsRun(fs1, ops2) == fs2
    requires SafeRun(fs2, ops3, ok) && FsRun(fs2, ops3) == fs3
    ensures SafeRun(fs, ops1 + ops2 + ops3, ok) && FsRun(fs, ops1 + ops2 + ops3) == fs3
  {
    hide SafeRun, FsRun;
    SafeRunLegal(fs, ops1, ok);
    SafeConcat(fs, ops1, ops2, ok);
    SafeConcat(fs, ops1 + ops2, ops3, ok);
  }
}
