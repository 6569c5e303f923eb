// The one way a create can be refused: a compaction whose merge comes out empty does
// not use up its output id, and a crash right after its manifest switch leaves the
// empty output file behind under the id the next flush will ask for.

module Window {
  import opened Wrappers
  import opened ByteStrings
  import opened Versions
  import opened SortedRuns
  import opened Sim
  import opened FsView
  import opened Protocols
  import opened WalModel
  import opened LsmVersion
  import opened ManifestFormat
  import opened Meaning
  import opened EngineModel
  import opened EngineState
  import opened TableSafety
  import opened CompactionSafety
  import opened EngineSafety
  import opened OpenSafety
  import opened LogSafety
  import opened RecordFormat

  /** Exactly when a round of the flush loop is refused: when a file bears the next table id. */
  lemma FlushRoundRefusedIff(cfg: Config, e: Engine, img: Image, d: OnDisk, kv: KV)
    requires Running(cfg, e, img, d, kv) && e.frozen != [] && FlushOldest(cfg, e).outcome != OutOfRange
    ensures FlushOldest(cfg, e).outcome == Collision <==> Table(e.version.nextTableId) in img
  {
    hide Running, FlushOldest, SafeRun, FsRun;
    var ok := ANYTHING;
    if Table(e.version.nextTableId) in img {
      FlushOldestRefused(cfg, e, img, d, kv, ok);
    } else {
      var img', d' := FlushOldestDone(cfg, e, img, d, kv, ok);
    }
  }

  /** Exactly when a compaction is refused. */
  lemma CompactionRefusedIff(cfg: Config, e: Engine, img: Image, d: OnDisk, kv: KV, t: nat)
    requires Running(cfg, e, img, d, kv) && Quiet(e, d) && t < |e.version.tiers|
    requires CompactTier(cfg, e, t).outcome != OutOfRange
    ensures CompactTier(cfg, e, t).outcome == Collision <==> Table(e.version.nextTableId) in img
  {
    hide Running, CompactTier, SafeRun, FsRun, Quiet;
    var ok := ANYTHING;
    if Table(e.version.nextTableId) in img {
      CompactTierRefused(cfg, e, img, d, kv, t, ok);
    } else {
      var img', d' := CompactTierDone(cfg, e, img, d, kv, t, ok);
    }
  }

  /** A refused flush leaves disk and version alone, so the next flush is refused too, for ever. */
  lemma RefusedForGood(cfg: Config, e: Engine, img: Image, d: OnDisk, kv: KV)
    requires Sane(cfg) && Running(cfg, e, img, d, kv) && Table(e.version.nextTableId) in img
    requires e.active != map[] || e.frozen != []
    ensures var f := FlushEffect(cfg, e);
      && f.outcome == Collision && f.engine == Freeze(e) && f.engine.frozen != []
      && Running(cfg, f.engine, img, d, kv) && Table(f.engine.version.nextTableId) in img
  {
    hide Running, FlushOldest, SafeRun, FsRun, Reset, Cascade;
    FreezeKeeps(cfg, e, img, d, kv);
    FlushOldestRefused(cfg, Freeze(e), img, d, kv, ANYTHING);
  }

  // -------------------------------------------------------------- whole calls

  /** Since no table file bears an id beyond the next, there is a stray file exactly if one bears the next id. */
  lemma StrayIsNext(img: Image, v: Version)
    requires IdsBounded(img, v)
    ensures NoStray(img, v) <==> Table(v.nextTableId) !in img
  {
  }

  lemma RunningBounded(cfg: Config, e: Engine, img: Image, d: OnDisk, kv: KV)
    requires Running(cfg, e, img, d, kv)
    ensures IdsBounded(img, e.version)
  {
  }

  /** Does a flush in this state have a table to write? */
  predicate HasWork(cfg: Config, e: Engine) {
    e.active != map[] || e.frozen != [] || FullTier(e.version, cfg.fanout).Some?
  }

  /** Exactly when a flush is refused: when it has a table to write and a file bears the next table id. */
  lemma FlushRefusedIff(cfg: Config, e: Engine, img: Image, d: OnDisk, kv: KV)
    requires Sane(cfg) && Running(cfg, e, img, d, kv) && FlushEffect(cfg, e).outcome != OutOfRange
    ensures FlushEffect(cfg, e).outcome == Collision <==> Table(e.version.nextTableId) in img && HasWork(cfg, e)
  {
    hide Running, SafeRun, FsRun, FlushEffect, NoStray, IdsBounded, FullTier;
    RunningBounded(cfg, e, img, d, kv);
    StrayIsNext(img, e.version);
    var img', d' := FlushSafe(cfg, e, img, d, kv, ANYTHING);
    if Table(e.version.nextTableId) in img {
      if e.active != map[] || e.frozen != [] {
        RefusedForGood(cfg, e, img, d, kv);
      } else {
        IdleFlush(cfg, e, img, d, kv);
      }
    }
  }

  /** A flush with nothing buffered gets as far as the cascade. */
  lemma IdleFlush(cfg: Config, e: Engine, img: Image, d: OnDisk, kv: KV)
    requires Sane(cfg) && Running(cfg, e, img, d, kv) && Table(e.version.nextTableId) in img
    requires e.active == map[] && e.frozen == []
    ensures FlushEffect(cfg, e).outcome == if FullTier(e.version, cfg.fanout).Some? then Collision else Done
  {
    hide Running, SafeRun, FsRun, Reset, CompactTier, FullTier;
    var img1, d1 := ResetSafe(cfg, e, img, d, kv, ANYTHING);
    ResetKeeps(e);
    var r := Reset(e).engine;
    match FullTier(e.version, cfg.fanout)
    case None =>
    case Some(t) => CompactTierRefused(cfg, r, img1, d1, kv, t, ANYTHING);
  }

  /** Exactly when a write comes back refused: when it fills the active table and a file bears the next table id. */
  lemma WriteRefusedIff(cfg: Config, e: Engine, img: Image, d: OnDisk, kv: KV, key: Bytes, kind: ValueKind)
    requires Sane(cfg) && Running(cfg, e, img, d, kv) && WriteEffect(cfg, e, key, kind).outcome != OutOfRange
    ensures WriteEffect(cfg, e, key, kind).outcome == Collision <==>
            && Table(e.version.nextTableId) in img
            && Weight(InsertIfNewer(e.active, key, InternalValue(e.nextSeq, kind))) >= cfg.memtableSize
  {
    hide Running, SafeRun, FsRun, FlushEffect, Logged, Weight, EncodeRecord, RecordFits;
    var r := EngineSafety.Written(e, key, kind);
    var img1, d1 := AppendSafe(cfg, e, img, d, kv, r, ANYTHING);
    var a := Logged(cfg, e.(nextSeq := e.nextSeq + 1), EncodeRecord(r));
    var e1 := a.engine.(active := InsertIfNewer(a.engine.active, key, r.value));
    assert key in e1.active;
    if Weight(e1.active) >= cfg.memtableSize { FlushRefusedIff(cfg, e1, img1, d1, Applied(kv, key, kind)); }
  }

  /** The merge of the tier leaves nothing to write. */
  ghost predicate EmptyOutput(cfg: Config, e: Engine, t: nat)
    requires t < |e.version.tiers|
  {
    var loaded := ReadTables(cfg.codec, e.fs, e.version.tiers[t]);
    loaded.Some? && Output(e.version, t, loaded.value.runs) == []
  }

  const NO_DATA := TableData(1, [])

  /** The disk between the manifest switch and the collection. */
  function WindowImage(cfg: Config, img: Image, v: Version, t: nat): Image
    requires t < |v.tiers|
  {
    Switched(cfg, img, map[Table(v.nextTableId) := []], Cleared(v, t))
  }

  lemma EmptyOutputOps(cfg: Config, e: Engine, img: Image, t: nat)
    requires e.fs == SettledFs(img) && t < |e.version.tiers| && EmptyOutput(cfg, e, t)
    requires CompactTier(cfg, e, t).outcome == Done && Table(e.version.nextTableId) !in img && NoScratch(img)
    ensures VersionFits(Cleared(e.version, t)) && |CompactTier(cfg, e, t).ops| >= 7
    ensures FsRun(e.fs, CompactTier(cfg, e, t).ops[..7]) == SettledFs(WindowImage(cfg, img, e.version, t))
  {
    hide SettledFs, SafeRun, FsRun, VersionFits, EncodeVersion, Cleared, Staged, ReadTables, Output, GcOps, LegalRun;
    var ok := ANYTHING;
    var v, id := e.version, e.version.nextTableId;
    var create, install := [Create(Table(id))], InstallOps(cfg, Cleared(v, t));
    LogSafety.SettledLive(img, Table(id));
    CreateRun(img, Table(id), ok);
    ReplaceRun(img, map[Table(id) := []], ManifestTmp, ManifestFile, EncodeVersion(cfg.codec.crc, Cleared(v, t)), ok);
    SafeConcat(e.fs, create, install, ok);
    var w := TableWritten(cfg, e, id, AtLeastOne(ReadTables(cfg.codec, e.fs, v.tiers[t]).value.expected), []);
    var gc := GcOps(Issue(w.engine, install).fs, ReferencedIds(Cleared(v, t)) + ReferencedIds(v));
    assert CompactTier(cfg, e, t).ops == create + (install + gc);
    assert (create + (install + gc))[..7] == create + install;
  }

  lemma WindowMeans(cfg: Config, e: Engine, img: Image, d: OnDisk, kv: KV, t: nat)
    requires Running(cfg, e, img, d, kv) && Quiet(e, d) && t < |e.version.tiers| && EmptyOutput(cfg, e, t)
    requires VersionFits(Cleared(e.version, t))
    ensures DiskMeans(cfg, WindowImage(cfg, img, e.version, t), CompactedDisk(d, t, NO_DATA), kv)
    ensures CompactedDisk(d, t, NO_DATA).version == Cleared(e.version, t)
  {
    hide SettledFs, VersionFits, EncodeVersion, Sound, Stored, LogOpen, SeqsNew, NewestFirst, Cleared, ReadTables, Output, RunsOf,
      FrozenFull, AllBelow, Sorted, Switched, SourcesOf, TablesOf, Replay, LogRecords, Above, Under;
    InputsRead(cfg, e, img, d, kv, t);
    QuietSound(e, d, kv);
    CompactedMeans(cfg, img, d, t, NO_DATA, kv);
    OutputStored(cfg, img, d, t, NO_DATA);
    assert OutputImage(cfg, e.version.nextTableId, NO_DATA) == map[Table(e.version.nextTableId) := []];
  }

  lemma OpenedVersion(cfg: Config, fs: Fs)
    requires OpenEffect(cfg, fs).outcome == Done
    ensures ManifestRead(cfg, fs) == Some(OpenEffect(cfg, fs).engine.version)
  {
  }

  lemma ManifestOfDisk(cfg: Config, img: Image, d: OnDisk, kv: KV)
    requires DiskMeans(cfg, img, d, kv)
    ensures ManifestRead(cfg, SettledFs(img)) == Some(d.version)
  {
    hide Sound, AllHeld, FreshIds, LogIn, Below, EncodeVersion, DecodeVersion, VersionFits;
    VersionRoundTrip(cfg.codec.crc, d.version);
    SettledBytes(img, ManifestFile);
  }

  /** The window: in every compaction whose output is empty there is a point, right after the manifest
      switch, where a crash leaves a disk that means the right map but carries a file under the next table
      id; the engine reopened on it has every flush of buffered data refused (`RefusedForGood`). */
  lemma EmptyOutputWindow(cfg: Config, e: Engine, img: Image, d: OnDisk, kv: KV, t: nat) returns (img': Image, d': OnDisk)
    requires Running(cfg, e, img, d, kv) && Quiet(e, d) && t < |e.version.tiers| && EmptyOutput(cfg, e, t)
    requires CompactTier(cfg, e, t).outcome == Done && Table(e.version.nextTableId) !in img
    ensures var c, left := CompactTier(cfg, e, t), WindowImage(cfg, img, e.version, t);
      && 7 <= |c.ops| && FsRun(e.fs, c.ops[..7]) == SettledFs(left) && ImageMeans(cfg, left, kv)
    ensures var o := OpenEffect(cfg, SettledFs(WindowImage(cfg, img, e.version, t)));
      && o.outcome == Done && Running(cfg, o.engine, img', d', kv) && Table(o.engine.version.nextTableId) in img'
  {
    hide SettledFs, SafeRun, FsRun, DiskMeans, CompactTier, WindowImage, OpenEffect, ManifestRead, CompactedDisk, Cleared, EmptyOutput,
      Quiet, Running;
    var left := WindowImage(cfg, img, e.version, t);
    RunningVersion(cfg, e, img, d, kv);
    RunningScratch(cfg, e, img, d, kv);
    EmptyOutputOps(cfg, e, img, t);
    WindowMeans(cfg, e, img, d, kv, t);
    assert ImageMeans(cfg, left, kv);
    img', d' := OpenSafe(cfg, left, kv, ANYTHING);
    OpenedVersion(cfg, SettledFs(left));
    ManifestOfDisk(cfg, left, CompactedDisk(d, t, NO_DATA), kv);
    ClearedFields(e.version, t);
    StrayThere(cfg, img, e.version, t);
  }

  lemma RunningScratch(cfg: Config, e: Engine, img: Image, d: OnDisk, kv: KV)
    requires Running(cfg, e, img, d, kv)
    ensures NoScratch(img)
  {
  }

  lemma StrayThere(cfg: Config, img: Image, v: Version, t: nat)
    requires t < |v.tiers|
    ensures Table(v.nextTableId) in WindowImage(cfg, img, v, t)
  {
  }
}
