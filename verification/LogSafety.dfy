// Writing to the log, rotating it, and releasing it: safe at every crash point.

module LogSafety {
  import opened ByteStrings
  import opened Seqs
  import opened Versions
  import opened Sim
  import opened FsView
  import opened Protocols
  import opened RecordFormat
  import opened WalModel
  import opened LsmVersion
  import opened Meaning
  import opened EngineModel
  import opened EngineState
  import Frame

  // ------------------------------------------------------- one more record

  lemma LoggedMore(d: OnDisk, r: Record)
    requires LogShape(d.log) && d.log.ids != []
    ensures LoggedOf(d.(log := Appended(d.log, r))) == InsertIfNewer(LoggedOf(d), r.key, r.value)
  {
    AppendedRecords(d.log, r);
    ReplaySnoc(LogRecords(d.log), r);
  }

  /** The engine once the write is applied: on top of memory, and counted. */
  function Wrote(e: Engine, r: Record): Engine {
    e.(active := InsertIfNewer(e.active, r.key, r.value), nextSeq := e.nextSeq + 1)
  }

  function WithRecord(d: OnDisk, r: Record): OnDisk
    requires LogShape(d.log) && d.log.ids != []
  {
    d.(log := Appended(d.log, r))
  }

  /** A logged write means the map with that write applied, and its number is used up. */
  lemma WriteMeans(e: Engine, d: OnDisk, kv: KV, r: Record)
    requires LogShape(d.log) && d.log.ids != []
    requires Sound(StackOf(e, d), kv) && SeqsNew(e, d) && r.value.stamp == e.nextSeq
    ensures Sound(StackOf(Wrote(e, r), WithRecord(d, r)), Applied(kv, r.key, r.value.kind))
    ensures SeqsNew(Wrote(e, r), WithRecord(d, r))
  {
    hide Sound, Below, AllBelow, Replay, LogRecords, Appended, NewestFirst, Reversed, SourcesOf, InsertIfNewer;
    LoggedMore(d, r);
    Written(StackOf(e, d), kv, r.key, r.value);
    var s' := WrittenTo(StackOf(e, d), r.key, r.value);
    assert MemorySources(e)[1..] == Reversed(e.frozen);
    assert MemorySources(Wrote(e, r)) == s'.memory;
    assert StackOf(Wrote(e, r), WithRecord(d, r)) == s';
  }

  lemma SegmentBytesChanged(img: Image, id: nat, bytes: Bytes)
    ensures SameOutsideLog(img, img[Segment(id) := bytes])
  {
  }

  /** Whatever a crash leaves of the frame, the disk means the map before or after the write. */
  lemma TornWriteMeans(cfg: Config, e: Engine, img: Image, d: OnDisk, kv: KV, r: Record, ok: Goal)
    requires Running(cfg, e, img, d, kv) && r.value.stamp == e.nextSeq && RecordFits(r)
    requires TearNoticed(cfg.codec.crc, EncodeRecord(r), ok.tear)
    requires TearFits(|Frame.Encode(cfg.codec.crc, EncodeRecord(r))|, ok.tear)
    requires Accepts(cfg, ok, kv) && Accepts(cfg, ok, Applied(kv, r.key, r.value.kind))
    ensures var seg := Segment(e.segment);
            ok.accepts(img[seg := img[seg] + Sim.TornTail(Frame.Encode(cfg.codec.crc, EncodeRecord(r)), ok.tear)])
  {
    hide Sound, RecordFits, TearNoticed, EncodeRecord, Frame.Encode, Sim.TornTail, LogIn, Stored, SeqsNew, Applied,
      FrozenFull, Accepts, MemorySources, TablesOf, LoggedOf;
    var crc, seg := cfg.codec.crc, Segment(e.segment);
    var bytes := img[seg] + Sim.TornTail(Frame.Encode(crc, EncodeRecord(r)), ok.tear);
    OpenLogShape(cfg, e, img, d.log);
    FrameTorn(crc, img, d.log, r, ok.tear);
    SegmentBytesChanged(img, e.segment, bytes);
    if LogIn(crc, img[seg := bytes], d.log) {
      RunningDisk(cfg, e, img, d, kv);
      LogChanged(cfg, img, d, img[seg := bytes], d.log);
      assert d.(log := d.log) == d;
      Accepted(cfg, ok, kv, img[seg := bytes], d);
    } else {
      LoggedDisk(cfg, e, img, d, kv, r, img[seg := bytes]);
      Accepted(cfg, ok, Applied(kv, r.key, r.value.kind), img[seg := bytes], WithRecord(d, r));
    }
  }

  lemma LoggedDisk(cfg: Config, e: Engine, img: Image, d: OnDisk, kv: KV, r: Record, img': Image)
    requires Running(cfg, e, img, d, kv) && r.value.stamp == e.nextSeq
    requires LogShape(d.log) && d.log.ids != []
    requires SameOutsideLog(img, img') && LogIn(cfg.codec.crc, img', Appended(d.log, r))
    ensures DiskMeans(cfg, img', WithRecord(d, r), Applied(kv, r.key, r.value.kind))
    ensures TablesOf(WithRecord(d, r)) == TablesOf(d)
  {
    hide Sound, Stored, SeqsNew, Applied, LogIn, Appended, MemorySources, TablesOf, LoggedOf, LogShape, SameOutsideLog,
      InsertIfNewer, LogClean;
    LogChanged(cfg, img, d, img', Appended(d.log, r));
    WriteMeans(e, d, kv, r);
    MemoryLost(StackOf(Wrote(e, r), WithRecord(d, r)), Applied(kv, r.key, r.value.kind));
  }

  /** The record is on disk once the sync returns; until then a crash may keep any part of it. */
  lemma CommitSafe(cfg: Config, e: Engine, img: Image, d: OnDisk, kv: KV, r: Record, ok: Goal)
    requires Running(cfg, e, img, d, kv) && r.value.stamp == e.nextSeq && RecordFits(r)
    requires TearNoticed(cfg.codec.crc, EncodeRecord(r), ok.tear)
    requires Accepts(cfg, ok, kv) && Accepts(cfg, ok, Applied(kv, r.key, r.value.kind))
    ensures var seg, frame := Segment(e.segment), Frame.Encode(cfg.codec.crc, EncodeRecord(r));
            var ops, img' := [Append(seg, frame), SyncFile(seg)], img[seg := img[seg] + frame];
      && SafeRun(e.fs, ops, ok) && FsRun(e.fs, ops) == SettledFs(img')
      && LogShape(d.log) && d.log.ids != []
      && Running(cfg, Wrote(e, r).(fs := SettledFs(img'), segmentLen := e.segmentLen + |frame|), img', WithRecord(d, r),
                 Applied(kv, r.key, r.value.kind))
  {
    hide Sound, RecordFits, TearNoticed, EncodeRecord, Frame.Encode, LogIn, Stored, SeqsNew, Applied, DiskMeans,
      FrozenFull, Accepts, TablesOf, LoggedOf, Appended, SettledFs, FsRun, SafeRun, InsertIfNewer, LogShape, SameOutsideLog;
    var crc, seg := cfg.codec.crc, Segment(e.segment);
    var frame := Frame.Encode(crc, EncodeRecord(r));
    var img' := img[seg := img[seg] + frame];
    var kv' := Applied(kv, r.key, r.value.kind);
    OpenLogShape(cfg, e, img, d.log);
    FrameAppended(crc, img, d.log, r);
    SegmentBytesChanged(img, e.segment, img[seg] + frame);
    CleanIsLog(crc, img', Appended(d.log, r));
    LoggedDisk(cfg, e, img, d, kv, r, img');
    Accepted(cfg, ok, kv', img', WithRecord(d, r));
    RunningCrashSafe(cfg, e, img, d, kv, ok);
    if TearFits(|frame|, ok.tear) { TornWriteMeans(cfg, e, img, d, kv, r, ok); }
    AppendSyncRun(img, seg, frame, ok);
    WriteMeans(e, d, kv, r);
    var e' := Wrote(e, r).(fs := SettledFs(img'), segmentLen := e.segmentLen + |frame|);
    LogChanged(cfg, img, d, img', Appended(d.log, r));
    SameStack(Wrote(e, r), e', WithRecord(d, r), kv');
    assert LogOpen(cfg, e', img', Appended(d.log, r)) by { AppendedIds(d.log, r); }
    assert FrozenFull(e') by { SameFrozen(e, e'); }
  }

  lemma CleanIsLog(crc: Checksum, img: Image, l: Log)
    requires LogClean(crc, img, l)
    ensures LogIn(crc, img, l) && LogShape(l) && l.ids != []
  {
  }

  lemma AppendedIds(l: Log, r: Record)
    requires LogShape(l) && l.ids != []
    ensures Appended(l, r).ids == l.ids
  {
  }

  /** Soundness is about memory, tables and log only. */
  lemma SameStack(e: Engine, e': Engine, d: OnDisk, kv: KV)
    requires Sound(StackOf(e, d), kv) && SeqsNew(e, d)
    requires e'.active == e.active && e'.frozen == e.frozen && e'.version == e.version && e'.nextSeq == e.nextSeq
    ensures Sound(StackOf(e', d), kv) && SeqsNew(e', d)
  {
    hide Sound, Below, AllBelow;
  }

  lemma SameFrozen(e: Engine, e': Engine)
    requires FrozenFull(e) && e'.frozen == e.frozen
    ensures FrozenFull(e')
  {
  }

  // ------------------------------------------------------------- rotation

  /** A log change that keeps its records keeps the engine running. */
  lemma SameRecords(cfg: Config, e: Engine, img: Image, d: OnDisk, kv: KV, e': Engine, img': Image, log: Log)
    requires Running(cfg, e, img, d, kv)
    requires SameOutsideLog(img, img') && LogRecords(log) == LogRecords(d.log)
    requires LogOpen(cfg, e', img', log)
    requires e' == e.(fs := SettledFs(img'), segment := e'.segment, segmentLen := e'.segmentLen)
    ensures Running(cfg, e', img', d.(log := log), kv)
  {
    hide Sound, LogIn, Stored, SeqsNew, TablesOf, LogRecords, SettledFs, SameOutsideLog, LogOpen;
    OpenLogShape(cfg, e', img', log);
    LogChanged(cfg, img, d, img', log);
    assert StackOf(e', d.(log := log)) == StackOf(e, d);
    SameSeqs(e, d, e', log);
    SameFrozen(e, e');
  }

  lemma SameSeqs(e: Engine, d: OnDisk, e': Engine, log: Log)
    requires SeqsNew(e, d) && LogRecords(log) == LogRecords(d.log)
    requires e' == e.(fs := e'.fs, segment := e'.segment, segmentLen := e'.segmentLen)
    ensures SeqsNew(e', d.(log := log))
  {
    hide Below, AllBelow, LogRecords;
    assert TablesOf(d.(log := log)) == TablesOf(d);
  }

  lemma LargestIsLast(ids: seq<nat>)
    requires Ascends(ids)
    ensures forall i :: i in ids ==> i <= LargestId(ids)
  {
    forall i | i in ids
      ensures i <= LargestId(ids)
    {
      var j :| 0 <= j < |ids| && ids[j] == i;
    }
  }

  function WithSegment(d: OnDisk, id: nat): OnDisk { d.(log := Log(d.log.ids + [id], d.log.parts + [[]])) }

  function Positioned(e: Engine, img: Image, id: nat): Engine {
    e.(fs := SettledFs(img), segment := id, segmentLen := 0)
  }

  /** A new segment, durably named before it is written to. */
  lemma FreshSegment(cfg: Config, e: Engine, img: Image, d: OnDisk, kv: KV, id: nat, ok: Goal)
    requires Running(cfg, e, img, d, kv) && Accepts(cfg, ok, kv)
    requires (forall i :: i in d.log.ids ==> i < id) && Segment(id) !in img
    ensures var img' := img[Segment(id) := []];
      && SafeRun(e.fs, [Create(Segment(id)), SyncDir], ok) && LegalRun(e.fs, [Create(Segment(id)), SyncDir])
      && FsRun(e.fs, [Create(Segment(id)), SyncDir]) == SettledFs(img')
      && Running(cfg, Positioned(e, img', id), img', WithSegment(d, id), kv)
  {
    hide Sound, LogIn, Stored, SeqsNew, FrozenFull, Accepts, TablesOf, LoggedOf, LogRecords, SafeRun, FsRun, SettledFs,
      DiskMeans, SameOutsideLog, LegalRun;
    var img' := img[Segment(id) := []];
    var log := WithSegment(d, id).log;
    OpenLogShape(cfg, e, img, d.log);
    SegmentAdded(cfg.codec.crc, img, d.log, id);
    SegmentBytesChanged(img, id, []);
    RunningCrashSafe(cfg, e, img, d, kv, ok);
    SameRecords(cfg, e, img, d, kv, Positioned(e, img', id), img', log);
    RunningCrashSafe(cfg, Positioned(e, img', id), img', d.(log := log), kv, ok);
    CreateDurablyRun(img, Segment(id), ok);
  }

  /** Rotation never meets an existing segment, and keeps the meaning at every crash point. */
  lemma RotateSafe(cfg: Config, e: Engine, img: Image, d: OnDisk, kv: KV, ok: Goal) returns (img': Image, d': OnDisk)
    requires Running(cfg, e, img, d, kv) && Accepts(cfg, ok, kv)
    ensures Rotated(e).outcome == Done && Safe(e.fs, Rotated(e), ok)
    ensures Running(cfg, Rotated(e).engine, img', d', kv)
    ensures forall n: Name :: n.Table? ==> (n in img' <==> n in img)
  {
    hide Sound, LogIn, Stored, SeqsNew, FrozenFull, Accepts, TablesOf, LoggedOf, LogRecords, SafeRun, FsRun, SettledFs, DiskMeans;
    var id := e.segment + 1;
    OpenLogShape(cfg, e, img, d.log);
    NextIsNew(cfg.codec.crc, img, d.log);
    img', d' := img[Segment(id) := []], WithSegment(d, id);
    FreshSegment(cfg, e, img, d, kv, id, ok);
    RunningCrashSafe(cfg, e, img, d, kv, ok);
    SettledLive(img, Segment(id));
    SyncAgainRun(img, Segment(e.segment), ok);
    SafeConcat(e.fs, [SyncFile(Segment(e.segment))], [Create(Segment(id)), SyncDir], ok);
    assert [SyncFile(Segment(e.segment))] + [Create(Segment(id)), SyncDir] == RotateOps(e);
    assert Rotated(e).engine == Positioned(e, img', id);
  }

  lemma SettledLive(img: Image, n: Name)
    ensures n in SettledFs(img).live <==> n in img
    ensures SettledFs(img).live.Keys == img.Keys
  {
  }

  /** The id after the last segment's is not in use. */
  lemma NextIsNew(crc: Checksum, img: Image, l: Log)
    requires LogIn(crc, img, l)
    ensures forall i :: i in l.ids ==> i < LargestId(l.ids) + 1
    ensures Segment(LargestId(l.ids) + 1) !in img
  {
    hide FullSegments, SegmentScans, RecordsFit;
    LargestIsLast(l.ids);
  }

  /** `append`: the record becomes durable, whether or not the segment is then rotated. */
  lemma AppendSafe(cfg: Config, e: Engine, img: Image, d: OnDisk, kv: KV, r: Record, ok: Goal)
    returns (img': Image, d': OnDisk)
    requires Running(cfg, e, img, d, kv) && r.value.stamp == e.nextSeq && RecordFits(r)
    requires TearNoticed(cfg.codec.crc, EncodeRecord(r), ok.tear)
    requires Accepts(cfg, ok, kv) && Accepts(cfg, ok, Applied(kv, r.key, r.value.kind))
    ensures var a := Logged(cfg, e.(nextSeq := e.nextSeq + 1), EncodeRecord(r));
      && a.outcome == Done && Safe(e.fs, a, ok)
      && Running(cfg, a.engine.(active := InsertIfNewer(e.active, r.key, r.value)), img', d', Applied(kv, r.key, r.value.kind))
      && a.engine.active == e.active && a.engine.version == e.version
    ensures forall n: Name :: n.Table? ==> (n in img' <==> n in img)
  {
    hide Running, RecordFits, TearNoticed, EncodeRecord, Frame.Encode, Applied, Accepts, SafeRun, FsRun, SettledFs, WithRecord,
      InsertIfNewer;
    var seg, frame := Segment(e.segment), Frame.Encode(cfg.codec.crc, EncodeRecord(r));
    var commit := [Append(seg, frame), SyncFile(seg)];
    RunningNames(cfg, e, img, d, kv);
    CommitSafe(cfg, e, img, d, kv, r, ok);
    var imgA := img[seg := img[seg] + frame];
    var eA := Wrote(e, r).(fs := SettledFs(imgA), segmentLen := e.segmentLen + |frame|);
    var e1 := eA.(active := e.active);
    assert Effect(e1, commit, Done).engine == Issue(e.(nextSeq := e.nextSeq + 1), commit).(segmentLen := e.segmentLen + |frame|);
    if e1.segmentLen < cfg.segmentSize {
      img', d' := imgA, WithRecord(d, r);
    } else {
      img', d' := RotateSafe(cfg, eA, imgA, WithRecord(d, r), Applied(kv, r.key, r.value.kind), ok);
      assert Rotated(e1) == Rotated(eA).(engine := Rotated(eA).engine.(active := e.active));
      SequelSafe(e.fs, Effect(e1, commit, Done), Rotated(e1), ok);
    }
  }

  lemma RunningNames(cfg: Config, e: Engine, img: Image, d: OnDisk, kv: KV)
    requires Running(cfg, e, img, d, kv)
    ensures e.fs == SettledFs(img) && Segment(e.segment) in img && e.fs.live.Keys == img.Keys
  {
  }

  // ---------------------------------------------------------------- reset

  function EmptyLog(id: nat): Log { Log([id], [[]]) }

  lemma EmptyLogReplays(id: nat)
    ensures LogRecords(EmptyLog(id)) == []
  {
    FlattenSingle<Record>([]);
  }

  lemma ListedSegments(cfg: Config, img: Image, log: Log)
    requires LogIn(cfg.codec.crc, img, log)
    ensures Ascending(SegmentIds(SettledFs(img).live.Keys)) == log.ids
  {
    hide FullSegments, SegmentScans, RecordsFit, Ascending;
    SettledLive(img, ManifestFile);
    ListingIsLog(img, log);
  }

  lemma SegmentsRemoved(img: Image, ids: seq<nat>)
    ensures SameOutsideLog(img, Remove(img, SegmentNames(ids)))
  {
    var names := SegmentNames(ids);
    forall n | n in names
      ensures n.Segment?
    {
      var i :| 0 <= i < |names| && names[i] == n;
    }
  }

  /** With nothing left in memory, an engine whose log is replaced by an empty one means what it meant. */
  lemma LogEmptied(cfg: Config, e: Engine, img: Image, d: OnDisk, kv: KV, img': Image)
    requires Running(cfg, e, img, d, kv) && e.active == map[] && e.frozen == []
    requires SameOutsideLog(img, img') && LogClean(cfg.codec.crc, img', EmptyLog(e.segment))
    requires e.segmentLen == |img'[Segment(e.segment)]|
    ensures Running(cfg, e.(fs := SettledFs(img')), img', d.(log := EmptyLog(e.segment)), kv)
    ensures LoggedOf(d.(log := EmptyLog(e.segment))) == map[]
  {
    hide Sound, LogIn, Stored, Below, TablesOf, SettledFs, SameOutsideLog, LogRecords;
    var log := EmptyLog(e.segment);
    var e' := e.(fs := SettledFs(img'));
    CleanIsLog(cfg.codec.crc, img', log);
    LogChanged(cfg, img, d, img', log);
    EmptyLogReplays(e.segment);
    assert MemorySources(e) == [map[]];
    LogReleased(StackOf(e, d), kv);
    assert TablesOf(d.(log := log)) == TablesOf(d);
  }

  /** Releasing the log: at every crash point of the reset the disk means the same map. */
  lemma ResetSafe(cfg: Config, e: Engine, img: Image, d: OnDisk, kv: KV, ok: Goal) returns (img': Image, d': OnDisk)
    requires Running(cfg, e, img, d, kv) && Accepts(cfg, ok, kv)
    requires e.active == map[] && e.frozen == []
    ensures Safe(e.fs, Reset(e), ok)
    ensures Running(cfg, Reset(e).engine, img', d', kv) && LoggedOf(d') == map[]
    ensures forall n: Name :: n.Table? ==> (n in img' <==> n in img)
  {
    hide Running, LogIn, Accepts, LogRecords, SafeRun, FsRun, SettledFs, Ascending, DeleteAll, LogOpen, Ascends;
    var ids := d.log.ids;
    var next := LargestId(ids) + 1;
    RunningParts(cfg, e, img, d, kv);
    OpenLogShape(cfg, e, img, d.log);
    ListedSegments(cfg, img, d.log);
    NextIsNew(cfg.codec.crc, img, d.log);
    FreshSegment(cfg, e, img, d, kv, next, ok);
    var img1 := img[Segment(next) := []];
    var e1 := Positioned(e, img1, next);
    OldReleased(cfg, e1, img1, WithSegment(d, next), kv, ids, ok);
    img' := Remove(img1, SegmentNames(ids));
    SegmentsRemoved(img1, ids);
    d' := d.(log := EmptyLog(next));
    SafeConcat(e.fs, [Create(Segment(next)), SyncDir], DeleteAll(SegmentNames(ids)) + [SyncDir], ok);
    assert Reset(e).engine == e1.(fs := SettledFs(img'));
  }

  lemma RunningParts(cfg: Config, e: Engine, img: Image, d: OnDisk, kv: KV)
    requires Running(cfg, e, img, d, kv)
    ensures e.fs == SettledFs(img) && LogOpen(cfg, e, img, d.log) && LogIn(cfg.codec.crc, img, d.log)
  {
  }

  /** Deleting the superseded segments, once the fresh one is in place. */
  lemma OldReleased(cfg: Config, e: Engine, img: Image, d: OnDisk, kv: KV, ids: seq<nat>, ok: Goal)
    requires Running(cfg, e, img, d, kv) && Accepts(cfg, ok, kv)
    requires e.active == map[] && e.frozen == [] && e.segmentLen == 0
    requires d.log.ids == ids + [e.segment] && |d.log.parts| == |ids| + 1 && d.log.parts[|ids|] == []
    ensures var ops, img' := DeleteAll(SegmentNames(ids)) + [SyncDir], Remove(img, SegmentNames(ids));
      && SafeRun(e.fs, ops, ok) && FsRun(e.fs, ops) == SettledFs(img')
      && Running(cfg, e.(fs := SettledFs(img')), img', d.(log := EmptyLog(e.segment)), kv)
      && LoggedOf(d.(log := EmptyLog(e.segment))) == map[]
  {
    hide Sound, Stored, SeqsNew, FrozenFull, Accepts, SafeRun, FsRun, SettledFs, LogClean, DeleteAll, SameOutsideLog, LoggedOf,
      LogIn, DiskMeans;
    var img' := Remove(img, SegmentNames(ids));
    var d' := d.(log := EmptyLog(e.segment));
    assert d.log.ids[..|d.log.ids| - 1] == ids;
    OldSegmentsGone(cfg.codec.crc, img, d.log);
    SegmentsRemoved(img, ids);
    SegmentIsEmpty(cfg.codec.crc, img', e.segment);
    LogEmptied(cfg, e, img, d, kv, img');
    RunningCrashSafe(cfg, e, img, d, kv, ok);
    RunningCrashSafe(cfg, e.(fs := SettledFs(img')), img', d', kv, ok);
    DeleteRun(img, SegmentNames(ids), ok);
  }

  lemma SegmentIsEmpty(crc: Checksum, img: Image, id: nat)
    requires LogClean(crc, img, EmptyLog(id))
    ensures Segment(id) in img && img[Segment(id)] == []
  {
    assert EncodeRecords([]) == [];
  }
}
