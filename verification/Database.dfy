// The engine object: its log, in-memory tables and manifest, updated in place by every
// call. Each method is proved to do what the engine model says it does.

module Database {
  import opened Wrappers
  import opened ByteStrings
  import opened Numbers
  import opened Seqs
  import opened Versions
  import opened Memtables
  import opened Sources
  import opened SortedRuns
  import opened Merge
  import opened Sim
  import opened FsView
  import opened Protocols
  import opened Simulator
  import opened RecordFormat
  import opened WalModel
  import opened TableFormat
  import opened LsmVersion
  import opened ManifestFormat
  import opened Meaning
  import opened EngineModel
  import opened EngineState
  import opened TableFiles
  import opened WalLog
  import opened ManifestStore
  import LogSafety
  import TableSafety
  import CompactionSafety
  import EngineSafety
  import Reading
  import Frame

  datatype DbError = StorageFailed(error: StorageError) | TableFailed(reason: TableError) | CorruptManifest | CorruptRecord

  /** The entries of an in-memory table in key order. */
  method SnapshotOf(m: Source) returns (run: seq<Record>)
    ensures run == Snapshot(m)
  {
    hide Less;
    run := [];
    var left := m;
    while left != map[]
      invariant Snapshot(m) == run + Snapshot(left)
      decreases |left|
    {
      LeastKeyExists(left);
      var k :| k in left && forall j :: j in left ==> AtMost(k, j);
      LeastKeyUnique(left, k);
      var r := Record(k, left[k]);
      assert run + Snapshot(left) == (run + [r]) + Snapshot(left - {k});
      run, left := run + [r], left - {k};
    }
    assert run + [] == run;
  }

  lemma LeastKeyUnique(m: Source, k: Bytes)
    requires IsLeastKey(m, k)
    ensures LeastKey(m) == k
  {
    var l := LeastKey(m);
    if l != k { LessAsymmetric(l, k); }
  }

  /** The merged stream, with deletions filtered out at the bottom. */
  method Drain(runs: Runs, dropTombstones: bool) returns (es: seq<Record>)
    requires AllSorted(runs)
    ensures es == Filtered(dropTombstones, Merged(runs))
  {
    hide Merged, MinKey, Filtered, AllSorted, OnePerSource;
    var merge := new MergeIterator(runs);
    es := [];
    ghost var whole := Filtered(dropTombstones, Merged(runs));
    assert [] + whole == whole;
    while true
      invariant fresh(merge) && merge.Valid() && whole == es + Filtered(dropTombstones, Merged(merge.rest))
      decreases Total(merge.rest)
    {
      var e := merge.Next();
      if e.None? {
        FilteredNone(dropTombstones, es);
        return;
      }
      FilteredStep(dropTombstones, es, e.value, Merged(merge.rest));
      if !(dropTombstones && e.value.value.kind == Tombstone) { es := es + [e.value]; }
    }
  }

  /** What reaches the builder of a merged stream. */
  function Filtered(dropTombstones: bool, run: seq<Record>): seq<Record> {
    if dropTombstones then WithoutDeletes(run) else run
  }

  lemma FilteredNone(drop: bool, es: seq<Record>)
    ensures es + Filtered(drop, []) == es
  {
  }

  lemma FilteredStep(drop: bool, es: seq<Record>, e: Record, rest: seq<Record>)
    ensures es + Filtered(drop, [e] + rest)
         == if drop && e.value.kind == Tombstone then es + Filtered(drop, rest) else (es + [e]) + Filtered(drop, rest)
  {
    assert ([e] + rest)[1..] == rest;
    if !(drop && e.value.kind == Tombstone) { assert es + ([e] + Filtered(drop, rest)) == (es + [e]) + Filtered(drop, rest); }
  }

  class Db {
    const cfg: Config
    const fs: SimFs
    const wal: Wal
    const memtables: MemtableSet
    const manifest: Manifest
    var nextSeq: nat
    var inFlight: nat
    var flushPending: bool

    ghost function Eng(): Engine
      reads this, fs, wal, wal.active, memtables, memtables.active, memtables.frozen, manifest, manifest.current
    {
      Engine(fs.View(), manifest.current.version, memtables.active.entries, memtables.FrozenContents(),
             wal.active.id, wal.active.writeOffset, nextSeq)
    }

    /** The parts belong together. */
    ghost predicate Whole()
      reads this, fs, wal, wal.active, memtables, memtables.Tables(), manifest, manifest.current, manifest.obsolete
    {
      && wal.fs == fs && wal.crc == cfg.codec.crc && wal.segmentSize == cfg.segmentSize && wal.Valid() && ManifestWhole()
      && memtables.Valid() && memtables.maxBytes == cfg.memtableSize
    }

    /** Nobody holds a version. */
    ghost predicate ManifestWhole()
      reads manifest, manifest.current, manifest.obsolete
    {
      && manifest.fs == fs && manifest.crc == cfg.codec.crc
      && manifest.current.pins == 0 && manifest.current !in manifest.obsolete
      && (forall i :: 0 <= i < |manifest.obsolete| ==> manifest.obsolete[i].pins == 0)
    }

    constructor (cfg: Config, fs: SimFs, wal: Wal, memtables: MemtableSet, manifest: Manifest, nextSeq: nat)
      ensures this.cfg == cfg && this.fs == fs && this.wal == wal && this.memtables == memtables && this.manifest == manifest
      ensures this.nextSeq == nextSeq && inFlight == 0 && !flushPending
    {
      this.cfg, this.fs, this.wal, this.memtables, this.manifest := cfg, fs, wal, memtables, manifest;
      this.nextSeq, inFlight, flushPending := nextSeq, 0, false;
    }

    /** Install the next version and let go of the one pinned while it was built. */
    method SwitchFrom(version: VersionHandle, newVersion: Version)
      requires fs.Valid() && fs.Calm() && ManifestTmp !in fs.View().durable
      requires manifest.fs == fs && manifest.crc == cfg.codec.crc && manifest.current == version && version.pins == 1
      requires version !in manifest.obsolete && forall i :: 0 <= i < |manifest.obsolete| ==> manifest.obsolete[i].pins == 0
      modifies fs, manifest, version
      ensures fs.Valid() && fs.Calm() && ManifestWhole() && fresh(manifest.current) && manifest.current.version == newVersion
      ensures var ops := SwitchOps(cfg.codec.crc, old(fs.View()), newVersion, ReferencedIds(newVersion) + ReferencedIds(version.version));
        fs.issued == old(fs.issued) + ops && fs.View() == FsRun(old(fs.View()), ops)
    {
      hide Abstract, Disciplined, FsRun, WellFormed, IdsOf, Retained, SwitchOps, ReferencedIds;
      RetainedOne(manifest.obsolete, version);
      manifest.Install(newVersion);
      manifest.Unpin(version);
    }

    /** Write a table file and install the version that has it in tier 0, holding the superseded version meanwhile. */
    method WriteAndInstall(entries: seq<Record>) returns (r: Result<(), DbError>)
      requires fs.Valid() && fs.Calm() && ManifestWhole() && entries != [] && Sorted(entries)
      requires var id := manifest.current.version.nextTableId;
        Table(id) !in fs.View().live ==> ManifestTmp !in FsRun(fs.View(), TableOps(cfg.codec, id, AtLeastOne(|entries|), entries)).durable
      modifies fs, manifest, manifest.current
      ensures fs.Valid() && fs.Calm() && ManifestWhole() && (manifest.current == old(manifest.current) || fresh(manifest.current))
      ensures var was := old(manifest.current.version);
        var id, ops := was.nextTableId, InstallTableOps(cfg, old(fs.View()), was, entries, nextSeq);
        && (r.Err? <==> Table(id) in old(fs.View()).live)
        && manifest.current.version == (if r.Ok? then Flushed(was, MetaOf(id, entries), nextSeq) else was)
        && fs.issued == old(fs.issued) + ops && fs.View() == FsRun(old(fs.View()), ops)
    {
      hide Abstract, Disciplined, FsRun, WellFormed, IdsOf, Retained, TableOps, SwitchOps, ReferencedIds, Flushed, MetaOf, Sorted;
      var version := manifest.Pin();
      var id := version.version.nextTableId;
      var table := WriteTable(fs, id, cfg.codec, |entries|, entries);
      if table.Err? {
        manifest.Unpin(version);
        return Err(TableFailed(table.error));
      }
      var newVersion := Flushed(version.version, table.value.value, nextSeq);
      ghost var v, w := old(fs.View()), fs.View();
      SwitchFrom(version, newVersion);
      RunThen(v, TableOps(cfg.codec, id, AtLeastOne(|entries|), entries),
              SwitchOps(cfg.codec.crc, w, newVersion, ReferencedIds(newVersion) + ReferencedIds(version.version)));
      return Ok(());
    }

    /** One round of the flush loop. */
    method FlushOldestTable(ghost img: Image, ghost d: OnDisk, ghost kv: KV)
      returns (r: Result<(), DbError>, ghost img': Image, ghost d': OnDisk)
      requires Whole() && Running(cfg, Eng(), img, d, kv) && memtables.frozen != []
      requires FlushOldest(cfg, Eng()).outcome != OutOfRange
      modifies fs, memtables, manifest, manifest.current
      ensures memtables.active == old(memtables.active)
      ensures memtables.frozen == if r.Ok? then old(memtables.frozen)[1..] else old(memtables.frozen)
      ensures var f := FlushOldest(cfg, old(Eng()));
        Eng() == f.engine && fs.issued == old(fs.issued) + f.ops && (r.Ok? <==> f.outcome == Done)
      ensures Whole() && Running(cfg, Eng(), img', d', kv) && (manifest.current == old(manifest.current) || fresh(manifest.current))
    {
      hide Abstract, Disciplined, FsRun, WellFormed, Running, FlushOldest, Snapshot, InstallTableOps, Flushed, MetaOf, Sorted, TableOps;
      ghost var e := Eng();
      img', d' := FlushFacts(cfg, e, img, d, kv);
      var frozen := memtables.frozen[0];
      var entries := SnapshotOf(frozen.entries);
      r := WriteAndInstall(entries);
      if r.Ok? { memtables.DiscardFrozen(frozen); }
    }

    /** Open every input table and read all its entries. */
    method ReadInputs(inputs: seq<TableMeta>) returns (r: Option<Loaded>)
      requires fs.Valid() && fs.Calm()
      ensures r == ReadTables(cfg.codec, fs.View(), inputs)
    {
      hide Abstract, Disciplined, WellFormed, Open, LoadAll;
      var runs: Runs, expected: nat := [], 0;
      for i := 0 to |inputs|
        invariant ReadTables(cfg.codec, fs.View(), inputs[..i]) == Some(Loaded(runs, expected))
      {
        ReadTablesSnoc(cfg.codec, fs.View(), inputs[..i], inputs[i]);
        assert inputs[..i + 1] == inputs[..i] + [inputs[i]];
        ReadTablesBroken(cfg.codec, fs.View(), inputs, i);
        var reader := OpenTable(fs, Table(inputs[i].id), cfg.codec);
        if reader.Err? { return None; }
        var entries := ReadAllEntries(reader.value);
        if entries.None? { return None; }
        runs, expected := runs + [entries.value], expected + reader.value.numEntries;
      }
      assert inputs[..|inputs|] == inputs;
      return Some(Loaded(runs, expected));
    }

    /** Write the merged table of tier `t`, if there is anything to write, and install the version without the tier. */
    method WriteOutput(t: nat, expected: nat, es: seq<Record>) returns (r: Result<(), DbError>)
      requires fs.Valid() && fs.Calm() && ManifestWhole() && Sorted(es) && t < |manifest.current.version.tiers|
      requires var id := manifest.current.version.nextTableId;
        Table(id) !in fs.View().live ==> ManifestTmp !in FsRun(fs.View(), TableOps(cfg.codec, id, AtLeastOne(expected), es)).durable
      modifies fs, manifest, manifest.current
      ensures fs.Valid() && fs.Calm() && ManifestWhole() && (manifest.current == old(manifest.current) || fresh(manifest.current))
      ensures var was := old(manifest.current.version);
        var id, ops := was.nextTableId, CompactOps(cfg, old(fs.View()), was, t, expected, es);
        && (r.Err? <==> Table(id) in old(fs.View()).live)
        && manifest.current.version == (if r.Ok? then CompactedVersion(was, t, es) else was)
        && fs.issued == old(fs.issued) + ops && fs.View() == FsRun(old(fs.View()), ops)
    {
      hide Abstract, Disciplined, FsRun, WellFormed, IdsOf, Retained, TableOps, SwitchOps, ReferencedIds, Compacted, Cleared, MetaOf, Sorted;
      var version := manifest.Pin();
      var id := version.version.nextTableId;
      var output := WriteTable(fs, id, cfg.codec, expected, es);
      if output.Err? {
        manifest.Unpin(version);
        return Err(TableFailed(output.error));
      }
      var newVersion := if output.value.Some? then Compacted(version.version, t, output.value.value) else Cleared(version.version, t);
      ghost var v, w := old(fs.View()), fs.View();
      SwitchFrom(version, newVersion);
      RunThen(v, TableOps(cfg.codec, id, AtLeastOne(expected), es),
              SwitchOps(cfg.codec.crc, w, newVersion, ReferencedIds(newVersion) + ReferencedIds(version.version)));
      return Ok(());
    }

    /** `compact_tier`. */
    method CompactOne(t: nat, ghost img: Image, ghost d: OnDisk, ghost kv: KV)
      returns (r: Result<(), DbError>, ghost img': Image, ghost d': OnDisk)
      requires Whole() && Running(cfg, Eng(), img, d, kv) && CompactionSafety.Quiet(Eng(), d)
      requires t < |manifest.current.version.tiers| && CompactTier(cfg, Eng(), t).outcome != OutOfRange
      modifies fs, manifest, manifest.current
      ensures var c := CompactTier(cfg, old(Eng()), t);
        Eng() == c.engine && fs.issued == old(fs.issued) + c.ops && (r.Ok? <==> c.outcome == Done)
      ensures Whole() && Running(cfg, Eng(), img', d', kv) && CompactionSafety.Quiet(Eng(), d')
      ensures manifest.current == old(manifest.current) || fresh(manifest.current)
    {
      hide Abstract, Disciplined, FsRun, WellFormed, Running, CompactTier, CompactOps, CompactedVersion, Sorted, TableOps, ReadTables,
        CompactionSafety.Quiet, OutputIsBottom;
      ghost var e := Eng();
      img', d' := CompactFacts(cfg, e, img, d, kv, t);
      var version := manifest.current.version;
      var loaded := ReadInputs(version.tiers[t]);
      assert loaded.Some?;
      var es := Drain(loaded.value.runs, OutputIsBottom(version, t));
      r := WriteOutput(t, loaded.value.expected, es);
    }

    /** The flush loop: every frozen table, oldest first. */
    method FlushAllFrozen(ghost img: Image, ghost d: OnDisk, ghost kv: KV)
      returns (r: Result<(), DbError>, ghost img': Image, ghost d': OnDisk)
      requires Whole() && Running(cfg, Eng(), img, d, kv) && FlushFrozen(cfg, Eng()).outcome != OutOfRange
      modifies fs, memtables, manifest, manifest.current
      ensures var f := FlushFrozen(cfg, old(Eng()));
        Eng() == f.engine && fs.issued == old(fs.issued) + f.ops && (r.Ok? <==> f.outcome == Done)
      ensures Whole() && Running(cfg, Eng(), img', d', kv) && (manifest.current == old(manifest.current) || fresh(manifest.current))
      ensures memtables.active == old(memtables.active)
    {
      hide Abstract, Disciplined, FsRun, WellFormed, Running, FlushOldest, FlushFrozen, Whole, ManifestWhole, SoFarFlushed;
      ghost var e, issued, ops: seq<Op> := Eng(), fs.issued, [];
      img', d' := img, d;
      var all := memtables.frozen;
      var i := 0;
      assert all[0..] == all;
      FrozenBegin(cfg, e);
      while i < |all|
        invariant 0 <= i <= |all| && memtables.frozen == all[i..] && memtables.active == old(memtables.active)
        invariant Whole() && Running(cfg, Eng(), img', d', kv) && (manifest.current == old(manifest.current) || fresh(manifest.current))
        invariant fs.issued == issued + ops && SoFarFlushed(cfg, e, ops, Eng())
      {
        FrozenStep(cfg, e, ops, Eng());
        ghost var f := FlushOldest(cfg, Eng());
        r, img', d' := FlushOldestTable(img', d', kv);
        ops := ops + f.ops;
        if r.Err? { return; }
        i := i + 1;
      }
      FrozenEnd(cfg, e, ops, Eng());
      r := Ok(());
    }

    /** `maybe_compact`: merge down the youngest tier that has reached the fanout, if there is one. */
    method MaybeCompact(ghost img: Image, ghost d: OnDisk, ghost kv: KV)
      returns (r: Result<bool, DbError>, ghost img': Image, ghost d': OnDisk)
      requires Whole() && Running(cfg, Eng(), img, d, kv) && CompactionSafety.Quiet(Eng(), d)
      requires match FullTier(manifest.current.version, cfg.fanout)
               case None => true
               case Some(t) => CompactTier(cfg, Eng(), t).outcome != OutOfRange
      modifies fs, manifest, manifest.current
      ensures match FullTier(old(manifest.current.version), cfg.fanout)
              case None => r == Ok(false) && Eng() == old(Eng()) && fs.issued == old(fs.issued)
              case Some(t) =>
                var c := CompactTier(cfg, old(Eng()), t);
                && Eng() == c.engine && fs.issued == old(fs.issued) + c.ops && r.Ok? == (c.outcome == Done) && (r.Ok? ==> r.value)
      ensures Whole() && Running(cfg, Eng(), img', d', kv) && CompactionSafety.Quiet(Eng(), d')
      ensures manifest.current == old(manifest.current) || fresh(manifest.current)
    {
      hide Abstract, Disciplined, FsRun, WellFormed, Running, CompactTier, CompactionSafety.Quiet, FullTier, Whole, ManifestWhole;
      var t := FullTier(manifest.current.version, cfg.fanout);
      if t.None? { return Ok(false), img, d; }
      var c, img1, d1 := CompactOne(t.value, img, d, kv);
      img', d' := img1, d1;
      r := if c.Ok? then Ok(true) else Err(c.error);
    }

    /** The cascade loop. */
    method CascadeAll(ghost img: Image, ghost d: OnDisk, ghost kv: KV)
      returns (r: Result<(), DbError>, ghost img': Image, ghost d': OnDisk)
      requires Sane(cfg) && Whole() && Running(cfg, Eng(), img, d, kv) && CompactionSafety.Quiet(Eng(), d)
      requires Cascade(cfg, Eng()).outcome != OutOfRange
      modifies fs, manifest, manifest.current
      ensures var c := Cascade(cfg, old(Eng()));
        Eng() == c.engine && fs.issued == old(fs.issued) + c.ops && (r.Ok? <==> c.outcome == Done)
      ensures Whole() && Running(cfg, Eng(), img', d', kv)
      ensures manifest.current == old(manifest.current) || fresh(manifest.current)
    {
      hide Abstract, Disciplined, FsRun, WellFormed, Running, CompactTier, CompactionSafety.Quiet, FullTier, Cascade, Count, Whole, ManifestWhole,
        SoFarCascaded;
      ghost var e, issued, ops: seq<Op> := Eng(), fs.issued, [];
      img', d' := img, d;
      CascadeBegin(cfg, e);
      while true
        invariant Whole() && Running(cfg, Eng(), img', d', kv) && CompactionSafety.Quiet(Eng(), d')
        invariant manifest.current == old(manifest.current) || fresh(manifest.current)
        invariant fs.issued == issued + ops && SoFarCascaded(cfg, e, ops, Eng())
        decreases Count(manifest.current.version.tiers)
      {
        ghost var now := Eng();
        CascadeStep(cfg, e, ops, now);
        var more: Result<bool, DbError>;
        more, img', d' := MaybeCompact(img', d', kv);
        if more == Ok(false) { return Ok(()), img', d'; }
        ops := ops + CompactTier(cfg, now, FullTier(now.version, cfg.fanout).value).ops;
        if more.Err? { return Err(more.error), img', d'; }
      }
    }

    /** Move what is buffered to the frozen list, so that the active table is empty. */
    method FreezeActive()
      requires Whole()
      modifies memtables
      ensures Whole() && Eng() == Freeze(old(Eng())) && (memtables.active == old(memtables.active) || fresh(memtables.active))
    {
      hide Abstract, Disciplined, WellFormed;
      if memtables.ActiveBytes() > 0 { memtables.Freeze(); }
    }

    /** Release the whole log. */
    method ReleaseLog()
      requires Whole()
      modifies wal, fs
      ensures Whole() && Eng() == Reset(old(Eng())).engine && fs.issued == old(fs.issued) + Reset(old(Eng())).ops
      ensures wal.active == old(wal.active) || fresh(wal.active)
    {
      hide Abstract, Disciplined, FsRun, WellFormed, Reset;
      ResetIs(Eng());
      wal.Release(cfg, Eng());
    }

    /** The flush body, with the write path at rest: freeze, flush, release the log, compact. */
    method FlushQuiesced(ghost img: Image, ghost d: OnDisk, ghost kv: KV)
      returns (r: Result<(), DbError>, ghost img': Image, ghost d': OnDisk)
      requires Sane(cfg) && Whole() && Running(cfg, Eng(), img, d, kv) && FlushEffect(cfg, Eng()).outcome != OutOfRange
      modifies fs, wal, memtables, manifest, manifest.current
      ensures var f := FlushEffect(cfg, old(Eng()));
        Eng() == f.engine && fs.issued == old(fs.issued) + f.ops && (r.Ok? <==> f.outcome == Done)
      ensures Whole() && Running(cfg, Eng(), img', d', kv)
      ensures (manifest.current == old(manifest.current) || fresh(manifest.current)) && (wal.active == old(wal.active) || fresh(wal.active))
      ensures memtables.active == old(memtables.active) || fresh(memtables.active)
    {
      hide Abstract, Disciplined, FsRun, WellFormed, Running, FlushFrozen, Cascade, Reset, CompactionSafety.Quiet, Whole, ManifestWhole,
        Freeze;
      ghost var e := Eng();
      EngineSafety.FreezeKeeps(cfg, e, img, d, kv);
      FreezeActive();
      ghost var f := FlushFrozen(cfg, Freeze(e));
      r, img', d' := FlushAllFrozen(img, d, kv);
      if r.Ok? {
        ResetState(cfg, f.engine, img', d', kv, e);
        ReleaseLog();
        img', d' := ResetRuns(cfg, f.engine, img', d', kv);
        FlushIs(cfg, e);
        r, img', d' := CascadeAll(img', d', kv);
      }
    }

    /** No call is under way. */
    ghost predicate Idle()
      reads this
    {
      inFlight == 0 && !flushPending
    }

    /** `flush`: close the write path to new writers, run the flush body, reopen it. */
    method FlushNow(ghost img: Image, ghost d: OnDisk, ghost kv: KV)
      returns (r: Result<(), DbError>, ghost img': Image, ghost d': OnDisk)
      requires Sane(cfg) && Whole() && Idle() && Running(cfg, Eng(), img, d, kv) && FlushEffect(cfg, Eng()).outcome != OutOfRange
      modifies this`flushPending, fs, wal, memtables, manifest, manifest.current
      ensures var f := FlushEffect(cfg, old(Eng()));
        Eng() == f.engine && fs.issued == old(fs.issued) + f.ops && (r.Ok? <==> f.outcome == Done)
      ensures Whole() && Idle() && Running(cfg, Eng(), img', d', kv)
    {
      hide Abstract, Disciplined, FsRun, WellFormed, Running, FlushEffect, ManifestWhole;
      flushPending := true;
      r, img', d' := FlushQuiesced(img, d, kv);
      flushPending := false;
    }

    /** The three phases of a write: claim a number, log, apply and clear the mark. */
    method LogAndApply(key: Bytes, kind: ValueKind, ghost a: Effect)
      requires Whole() && Idle()
      requires a == Logged(cfg, Eng().(nextSeq := nextSeq + 1), EncodeRecord(EngineSafety.Written(Eng(), key, kind))) && a.outcome == Done
      requires a.engine == Eng().(fs := a.engine.fs, segment := a.engine.segment, segmentLen := a.engine.segmentLen, nextSeq := nextSeq + 1)
      modifies this, fs, wal, wal.active, memtables.active
      ensures Whole() && Idle() && fs.issued == old(fs.issued) + a.ops
      ensures Eng() == a.engine.(active := InsertIfNewer(a.engine.active, key, InternalValue(old(nextSeq), kind)))
      ensures wal.active == old(wal.active) || fresh(wal.active)
    {
      hide Abstract, Disciplined, FsRun, WellFormed, Logged, InsertIfNewer, EncodeRecord, Weight;
      // Phase 1: claim.
      var stamp := nextSeq;
      nextSeq, inFlight := stamp + 1, inFlight + 1;
      // Phase 2: log.
      var record := EncodeRecord(Record(key, InternalValue(stamp, kind)));
      var logged := wal.Append(record, cfg, Eng());
      assert logged.Ok?;
      // Phase 3: apply and clear.
      memtables.InsertIfNewer(key, InternalValue(stamp, kind));
      inFlight := inFlight - 1;
    }

    /** The active table has reached its size. */
    method ActiveIsFull() returns (full: bool)
      requires Whole()
      ensures Whole() && (full <==> Weight(Eng().active) >= cfg.memtableSize)
    {
      hide Weight, Abstract, Disciplined, WellFormed;
      assert memtables.active in memtables.Tables() && memtables.active.Valid();
      full := memtables.IsFull();
    }

    /** The shared path of `put` and `delete`: log and apply, then flush if the active table has become full. */
    method Write(key: Bytes, kind: ValueKind, ghost img: Image, ghost d: OnDisk, ghost kv: KV)
      returns (r: Result<(), DbError>, ghost img': Image, ghost d': OnDisk)
      requires Sane(cfg) && Whole() && Idle() && Running(cfg, Eng(), img, d, kv)
      requires WriteEffect(cfg, Eng(), key, kind).outcome != OutOfRange
      modifies this, fs, wal, wal.active, memtables, memtables.active, manifest, manifest.current
      ensures var w := WriteEffect(cfg, old(Eng()), key, kind);
        Eng() == w.engine && fs.issued == old(fs.issued) + w.ops && (r.Ok? <==> w.outcome == Done)
      ensures Whole() && Idle() && Running(cfg, Eng(), img', d', Applied(kv, key, kind))
    {
      hide Abstract, Disciplined, FsRun, WellFormed, Running, FlushEffect, WriteEffect, Logged, InsertIfNewer, EncodeRecord, Weight,
        Applied, Whole, ManifestWhole;
      ghost var e := Eng();
      img', d' := WriteFacts(cfg, e, img, d, kv, key, kind);
      ghost var a := Logged(cfg, e.(nextSeq := e.nextSeq + 1), EncodeRecord(EngineSafety.Written(e, key, kind)));
      LogAndApply(key, kind, a);
      var full := ActiveIsFull();
      r := Ok(());
      if full { r, img', d' := FlushNow(img', d', Applied(kv, key, kind)); }
    }

    method Put(key: Bytes, value: Bytes, ghost img: Image, ghost d: OnDisk, ghost kv: KV)
      returns (r: Result<(), DbError>, ghost img': Image, ghost d': OnDisk)
      requires Sane(cfg) && Whole() && Idle() && Running(cfg, Eng(), img, d, kv)
      requires CallEffect(cfg, Eng(), Call.Put(key, value)).outcome != OutOfRange
      modifies this, fs, wal, wal.active, memtables, memtables.active, manifest, manifest.current
      ensures var c := CallEffect(cfg, old(Eng()), Call.Put(key, value));
        Eng() == c.engine && fs.issued == old(fs.issued) + c.ops && (r.Ok? <==> c.outcome == Done)
      ensures Whole() && Idle() && Running(cfg, Eng(), img', d', kv[key := value])
    {
      hide Running, WriteEffect, Whole;
      r, img', d' := Write(key, Value(value), img, d, kv);
    }

    method Delete(key: Bytes, ghost img: Image, ghost d: OnDisk, ghost kv: KV)
      returns (r: Result<(), DbError>, ghost img': Image, ghost d': OnDisk)
      requires Sane(cfg) && Whole() && Idle() && Running(cfg, Eng(), img, d, kv)
      requires CallEffect(cfg, Eng(), Call.Delete(key)).outcome != OutOfRange
      modifies this, fs, wal, wal.active, memtables, memtables.active, manifest, manifest.current
      ensures var c := CallEffect(cfg, old(Eng()), Call.Delete(key));
        Eng() == c.engine && fs.issued == old(fs.issued) + c.ops && (r.Ok? <==> c.outcome == Done)
      ensures Whole() && Idle() && Running(cfg, Eng(), img', d', kv - {key})
    {
      hide Running, WriteEffect, Whole;
      r, img', d' := Write(key, Tombstone, img, d, kv);
    }

    /** `get`: memory first, then the tables newest first, skipping those whose key range excludes the key. */
    method Get(key: Bytes) returns (r: Option<Option<Bytes>>)
      requires Whole()
      ensures r == GetOf(cfg, Eng(), key)
    {
      hide Abstract, Disciplined, WellFormed, Open, TableFormat.Get, NewestFirst;
      var m := memtables.Get(key);
      if m.Some? { return Some(Visible(m)); }
      var tables := NewestFirst(manifest.current.version.tiers);
      var i := 0;
      assert tables[0..] == tables;
      while i < |tables|
        invariant 0 <= i <= |tables|
        invariant GetFromTables(cfg, fs.View(), tables, key) == GetFromTables(cfg, fs.View(), tables[i..], key)
      {
        assert tables[i..][1..] == tables[i + 1..];
        if KeyInRange(tables[i], key) {
          var reader := OpenTable(fs, Table(tables[i].id), cfg.codec);
          if reader.Err? { return None; }
          var found := reader.value.Get(key);
          if found.None? { return None; }
          if found.value.Some? { return Some(Visible(Some(found.value.value.value))); }
        }
        i := i + 1;
      }
      assert tables[|tables|..] == [];
      return Some(None);
    }

    /** `scan_iters`: the active table, then the frozen ones oldest first, each clipped to the range. */
    method MemoryRuns(lo: Bound, hi: Bound) returns (runs: Runs)
      ensures runs == ClipAll(Snapshots([memtables.active.entries] + memtables.FrozenContents()), lo, hi)
    {
      hide Clip, Snapshot, ClipAll, Snapshots;
      ghost var frozen := memtables.FrozenContents();
      ghost var tables := [memtables.active.entries];
      var first := SnapshotOf(memtables.active.entries);
      runs := [Clip(first, lo, hi)];
      ScanFirst(memtables.active.entries, lo, hi);
      assert tables + frozen[..0] == tables;
      var i := 0;
      while i < |memtables.frozen|
        invariant 0 <= i <= |memtables.frozen| && tables == [memtables.active.entries] + frozen[..i]
        invariant runs == ClipAll(Snapshots(tables), lo, hi)
      {
        var m := memtables.frozen[i].entries;
        var run := SnapshotOf(m);
        ScanAdds(tables, m, lo, hi);
        runs := runs + [Clip(run, lo, hi)];
        OneMore(memtables.active.entries, frozen, i);
        tables := tables + [m];
        i := i + 1;
      }
      assert frozen[..i] == frozen;
    }

    /** `scan`: every source clipped to the range, and over them the lazy merge with deletions left out; `None` when a
        table cannot be read. */
    method Scan(lo: Bound, hi: Bound) returns (r: Option<LiveIter>)
      requires Whole() && RunsInOrder(cfg, Eng(), lo, hi)
      ensures match ScanOf(cfg, Eng(), lo, hi)
              case None => r == None
              case Some(pairs) => r.Some? && fresh(r.value.inner) && r.value.inner.Valid() && LiveOf(Merged(r.value.inner.rest)) == pairs
    {
      hide Abstract, Disciplined, WellFormed, Merged, Clip, AllTables, Snapshot, ReadTables, LiveOf, MinKey, Sorted, ManifestWhole,
        ClipAll, Snapshots, AllSorted;
      var runs := MemoryRuns(lo, hi);
      var loaded := ReadInputs(AllTables(manifest.current.version));
      if loaded.None? { return None; }
      ClipAllConcat(Snapshots([memtables.active.entries] + memtables.FrozenContents()), loaded.value.runs, lo, hi);
      var merge := new MergeIterator(runs + ClipAll(loaded.value.runs, lo, hi));
      var live := new LiveIter(merge);
      return Some(live);
    }
  }

  /** Everything a round of the flush loop issues. */
  ghost function InstallTableOps(cfg: Config, v: Fs, version: Version, es: seq<Record>, nextSeq: nat): seq<Op>
    requires es != []
  {
    var id := version.nextTableId;
    if Table(id) in v.live then [Op.Create(Table(id))]
    else
      var ops := TableOps(cfg.codec, id, AtLeastOne(|es|), es);
      var next := Flushed(version, MetaOf(id, es), nextSeq);
      ops + SwitchOps(cfg.codec.crc, FsRun(v, ops), next, ReferencedIds(next) + ReferencedIds(version))
  }

  /** Of the superseded versions only the one the installer itself holds is still pinned. */
  lemma RetainedOne(hs: seq<VersionHandle>, h: VersionHandle)
    requires (forall i :: 0 <= i < |hs| ==> hs[i].pins == 0) && h.pins > 0
    ensures Retained(hs + [h]) == [h] && IdsOf([h]) == ReferencedIds(h.version)
  {
    hide IdsOf, ReferencedIds;
    IdsOfOne(h);
    RetainedLast(hs, h);
  }

  lemma {:induction false} RetainedLast(hs: seq<VersionHandle>, h: VersionHandle)
    requires (forall i :: 0 <= i < |hs| ==> hs[i].pins == 0) && h.pins > 0
    ensures Retained(hs + [h]) == [h]
  {
    if hs == [] {
      assert hs + [h] == [h] && [h][1..] == [];
    } else {
      assert (hs + [h])[1..] == hs[1..] + [h] && (hs + [h])[0] == hs[0];
      RetainedLast(hs[1..], h);
    }
  }

  lemma IdsOfOne(h: VersionHandle)
    ensures IdsOf([h]) == ReferencedIds(h.version)
  {
    hide ReferencedIds;
    assert [h][1..] == [] && IdsOf([]) == {};
    assert IdsOf([h]) == ReferencedIds(h.version) + IdsOf([h][1..]);
  }

  /** The log's active segment exists, and ends where the engine thinks it does. */
  predicate LogAt(e: Engine) {
    Name.Segment(e.segment) in e.fs.live && e.segmentLen == |e.fs.live[Name.Segment(e.segment)].Bytes()|
  }

  lemma RunningWal(cfg: Config, e: Engine, img: Image, d: OnDisk, kv: KV)
    requires Running(cfg, e, img, d, kv)
    ensures LogAt(e)
    ensures ManifestTmp !in e.fs.durable && forall id: nat :: SegmentTmp(id) !in e.fs.durable
  {
    hide Stored, Sound, SeqsNew, LogIn;
    SettledBytes(img, Name.Segment(e.segment));
    assert NoScratch(img) by { StoredScratch(cfg, img, d); }
  }

  lemma StoredScratch(cfg: Config, img: Image, d: OnDisk)
    requires Stored(cfg, img, d)
    ensures NoScratch(img)
  {
  }

  /** The manifest switch as the object issues it is the install of the model. */
  lemma InstallSame(cfg: Config, e: Engine, v: Version)
    requires Installed(cfg, e, v).outcome != OutOfRange
    ensures var ops := SwitchOps(cfg.codec.crc, e.fs, v, ReferencedIds(v) + ReferencedIds(e.version));
            Installed(cfg, e, v) == Effect(e.(fs := FsRun(e.fs, ops), version := v), ops, Done)
  {
    hide VersionFits, EncodeVersion, GcOps, FsRun, ReferencedIds, ReplaceOps;
    var first := InstallOps(cfg, v);
    RunThen(e.fs, first, GcOps(FsRun(e.fs, first), ReferencedIds(v) + ReferencedIds(e.version)));
  }

  /** What a round of the flush loop does, and the disk it leaves. */
  ghost predicate FlushRound(cfg: Config, e: Engine, es: seq<Record>)
    requires e.frozen != [] && es != []
  {
    var id := e.version.nextTableId;
    var ops := InstallTableOps(cfg, e.fs, e.version, es, e.nextSeq);
    var f := FlushOldest(cfg, e);
    && f.ops == ops
    && (Table(id) in e.fs.live ==> f.outcome == Collision && f.engine == e.(fs := FsRun(e.fs, ops)))
    && (Table(id) !in e.fs.live ==> f.outcome == Done && f.engine == e.(fs := FsRun(e.fs, ops), frozen := e.frozen[1..],
                                      version := Flushed(e.version, MetaOf(id, es), e.nextSeq)))
  }

  lemma FlushFacts(cfg: Config, e: Engine, img: Image, d: OnDisk, kv: KV) returns (img': Image, d': OnDisk)
    requires Running(cfg, e, img, d, kv) && e.frozen != [] && FlushOldest(cfg, e).outcome != OutOfRange
    ensures var es := Snapshot(e.frozen[0]);
      && es != [] && Sorted(es) && FlushRound(cfg, e, es)
      && (Table(e.version.nextTableId) !in e.fs.live ==>
            ManifestTmp !in FsRun(e.fs, TableOps(cfg.codec, e.version.nextTableId, AtLeastOne(|es|), es)).durable)
    ensures Running(cfg, FlushOldest(cfg, e).engine, img', d', kv) && LogAt(FlushOldest(cfg, e).engine)
  {
    hide FsRun, SettledFs, Stored, Sound, LogOpen, SeqsNew, Snapshot, FlushOldest, FlushRound, TableOps, Sorted, SafeRun;
    SnapshotSorted(e.frozen[0]);
    assert e.frozen[0] != map[];
    LogSafety.SettledLive(img, Table(e.version.nextTableId));
    StoredScratch(cfg, img, d);
    var ok := ANYTHING;
    if Table(e.version.nextTableId) in e.fs.live {
      TableSafety.FlushOldestRefused(cfg, e, img, d, kv, ok);
      img', d' := img, d;
      RoundRefused(cfg, e, img);
    } else {
      img', d' := TableSafety.FlushOldestDone(cfg, e, img, d, kv, ok);
      RoundDone(cfg, e, img);
    }
    RunningWal(cfg, FlushOldest(cfg, e).engine, img', d', kv);
  }

  lemma RoundRefused(cfg: Config, e: Engine, img: Image)
    requires e.frozen != [] && Snapshot(e.frozen[0]) != [] && Table(e.version.nextTableId) in e.fs.live
    ensures FlushRound(cfg, e, Snapshot(e.frozen[0]))
  {
    hide FsRun, TableOps, SwitchOps, Flushed, Snapshot, TableFits;
  }

  lemma RoundDone(cfg: Config, e: Engine, img: Image)
    requires e.fs == SettledFs(img) && NoScratch(img) && e.frozen != [] && Snapshot(e.frozen[0]) != []
    requires Table(e.version.nextTableId) !in e.fs.live && FlushOldest(cfg, e).outcome == Done
    ensures FlushRound(cfg, e, Snapshot(e.frozen[0]))
    ensures var es := Snapshot(e.frozen[0]);
            ManifestTmp !in FsRun(e.fs, TableOps(cfg.codec, e.version.nextTableId, AtLeastOne(|es|), es)).durable
  {
    hide FsRun, SwitchOps, Flushed, Snapshot, TableFits, SettledFs, Staged, Installed, ReferencedIds, SafeRun, TableChunks, WriteFileOps, MetaOf;
    var es, id := Snapshot(e.frozen[0]), e.version.nextTableId;
    LogSafety.SettledLive(img, Table(id));
    TableSafety.TableStaged(cfg, e, img, id, AtLeastOne(|es|), es, ANYTHING);
    var w := TableWritten(cfg, e, id, AtLeastOne(|es|), es);
    StagedScratch(img, map[Table(id) := File(cfg.codec, AtLeastOne(|es|), es)]);
    var v := Flushed(e.version, MetaOf(id, es), e.nextSeq);
    InstallSame(cfg, w.engine, v);
    RunThen(e.fs, w.ops, SwitchOps(cfg.codec.crc, w.engine.fs, v, ReferencedIds(v) + ReferencedIds(e.version)));
  }

  lemma StagedScratch(img: Image, extra: Image)
    requires NoScratch(img)
    ensures ManifestTmp !in Staged(img, extra).durable
  {
  }

  // --------------------------------------------------------------- compaction

  lemma {:induction false} ReadTablesSnoc(c: Codec, fs: Fs, a: seq<TableMeta>, m: TableMeta)
    ensures ReadTables(c, fs, a + [m])
         == match ReadTables(c, fs, a)
            case None => None
            case Some(l) =>
              match ReadTable(c, fs, m.id)
              case None => None
              case Some((es, n)) => Some(Loaded(l.runs + [es], l.expected + n))
  {
    hide ReadTable;
    if a == [] {
      assert a + [m] == [m] && [m][1..] == [];
      var only := ReadTable(c, fs, m.id);
      if only.Some? { assert [] + [only.value.0] == [only.value.0] + []; }
    } else {
      assert (a + [m])[1..] == a[1..] + [m];
      ReadTablesSnoc(c, fs, a[1..], m);
      var first, rest, last := ReadTable(c, fs, a[0].id), ReadTables(c, fs, a[1..]), ReadTable(c, fs, m.id);
      if first.Some? && rest.Some? && last.Some? {
        assert [first.value.0] + (rest.value.runs + [last.value.0]) == ([first.value.0] + rest.value.runs) + [last.value.0];
      }
    }
  }

  /** One unreadable table makes the whole tier unreadable. */
  lemma {:induction false} ReadTablesBroken(c: Codec, fs: Fs, inputs: seq<TableMeta>, i: nat)
    requires i < |inputs|
    ensures ReadTable(c, fs, inputs[i].id).None? ==> ReadTables(c, fs, inputs).None?
  {
    hide ReadTable;
    if i > 0 { ReadTablesBroken(c, fs, inputs[1..], i - 1); }
  }

  /** Everything a compaction issues. */
  ghost function CompactOps(cfg: Config, v: Fs, version: Version, t: nat, expected: nat, es: seq<Record>): seq<Op>
    requires t < |version.tiers|
  {
    var id := version.nextTableId;
    if Table(id) in v.live then [Op.Create(Table(id))]
    else
      var ops := TableOps(cfg.codec, id, AtLeastOne(expected), es);
      var next := CompactedVersion(version, t, es);
      ops + SwitchOps(cfg.codec.crc, FsRun(v, ops), next, ReferencedIds(next) + ReferencedIds(version))
  }

  /** What a compaction does. */
  ghost predicate CompactRound(cfg: Config, e: Engine, t: nat, loaded: Loaded)
    requires t < |e.version.tiers|
  {
    var id := e.version.nextTableId;
    var es := Output(e.version, t, loaded.runs);
    var ops := CompactOps(cfg, e.fs, e.version, t, loaded.expected, es);
    var c := CompactTier(cfg, e, t);
    && c.ops == ops
    && (Table(id) in e.fs.live ==> c.outcome == Collision && c.engine == e.(fs := FsRun(e.fs, ops)))
    && (Table(id) !in e.fs.live ==> c.outcome == Done)
    && (Table(id) !in e.fs.live ==> c.engine == e.(fs := FsRun(e.fs, ops), version := CompactedVersion(e.version, t, es)))
  }

  lemma CompactFacts(cfg: Config, e: Engine, img: Image, d: OnDisk, kv: KV, t: nat) returns (img': Image, d': OnDisk)
    requires Running(cfg, e, img, d, kv) && CompactionSafety.Quiet(e, d)
    requires t < |e.version.tiers| && CompactTier(cfg, e, t).outcome != OutOfRange
    ensures ReadTables(cfg.codec, e.fs, e.version.tiers[t]).Some?
    ensures var loaded := ReadTables(cfg.codec, e.fs, e.version.tiers[t]).value;
            var es := Output(e.version, t, loaded.runs);
      && AllSorted(loaded.runs) && Sorted(es) && CompactRound(cfg, e, t, loaded)
      && (Table(e.version.nextTableId) !in e.fs.live ==>
            ManifestTmp !in FsRun(e.fs, TableOps(cfg.codec, e.version.nextTableId, AtLeastOne(loaded.expected), es)).durable)
    ensures var c := CompactTier(cfg, e, t);
      Running(cfg, c.engine, img', d', kv) && LogAt(c.engine) && CompactionSafety.Quiet(c.engine, d')
  {
    hide FsRun, SettledFs, Stored, Sound, LogOpen, SeqsNew, CompactTier, CompactRound, TableOps, Sorted, SafeRun, ReadTables, AllSorted,
      CompactionSafety.Quiet, Output, CompactionSafety.RunsOf, NewestFirst;
    LogSafety.SettledLive(img, Table(e.version.nextTableId));
    StoredScratch(cfg, img, d);
    CompactionSafety.InputsRead(cfg, e, img, d, kv, t);
    InputsSorted(cfg, e, img, d, kv, t);
    var ok := ANYTHING;
    if Table(e.version.nextTableId) in e.fs.live {
      CompactionSafety.CompactTierRefused(cfg, e, img, d, kv, t, ok);
      img', d' := img, d;
      CompactRefused(cfg, e, t);
    } else {
      img', d' := CompactionSafety.CompactTierDone(cfg, e, img, d, kv, t, ok);
      CompactDone(cfg, e, img, t);
    }
    RunningWal(cfg, CompactTier(cfg, e, t).engine, img', d', kv);
  }

  lemma InputsSorted(cfg: Config, e: Engine, img: Image, d: OnDisk, kv: KV, t: nat)
    requires Running(cfg, e, img, d, kv) && t < |e.version.tiers|
    ensures var runs := CompactionSafety.RunsOf(d.tabs, d.version.tiers[t]);
            AllSorted(runs) && Sorted(Output(e.version, t, runs))
  {
    hide NewestFirst, SettledFs, AllHeld, FreshIds, LogIn, Sound, SeqsNew, LogOpen, SourcesOf, Reversed, Sorted, Merged, AllSorted,
      CompactionSafety.RunsOf, OutputIsBottom;
    var tier := d.version.tiers[t];
    var a, b, z := CompactionSafety.Above(d.version, t), Reversed(tier), CompactionSafety.Under(d.version, t);
    CompactionSafety.OrderBelow(d, t);
    CompactionSafety.HeldParts(cfg.codec, img, d.tabs, a, b, z);
    CompactionSafety.HeldReversed(cfg.codec, img, d.tabs, tier);
    CompactionSafety.RunsSorted(cfg.codec, img, d.tabs, tier);
    var runs := CompactionSafety.RunsOf(d.tabs, tier);
    MergedCorrect(runs);
    CompactionSafety.WithoutDeletesKeeps(Merged(runs));
  }

  lemma CompactRefused(cfg: Config, e: Engine, t: nat)
    requires t < |e.version.tiers| && Table(e.version.nextTableId) in e.fs.live
    requires ReadTables(cfg.codec, e.fs, e.version.tiers[t]).Some?
    ensures CompactRound(cfg, e, t, ReadTables(cfg.codec, e.fs, e.version.tiers[t]).value)
  {
    hide FsRun, TableOps, SwitchOps, CompactedVersion, TableFits, ReadTables, Output;
  }

  lemma CompactDone(cfg: Config, e: Engine, img: Image, t: nat)
    requires e.fs == SettledFs(img) && NoScratch(img) && t < |e.version.tiers| && Table(e.version.nextTableId) !in e.fs.live
    requires ReadTables(cfg.codec, e.fs, e.version.tiers[t]).Some? && CompactTier(cfg, e, t).outcome == Done
    ensures var loaded := ReadTables(cfg.codec, e.fs, e.version.tiers[t]).value;
            var es := Output(e.version, t, loaded.runs);
      && CompactRound(cfg, e, t, loaded)
      && ManifestTmp !in FsRun(e.fs, TableOps(cfg.codec, e.version.nextTableId, AtLeastOne(loaded.expected), es)).durable
  {
    hide FsRun, SwitchOps, CompactedVersion, TableFits, SettledFs, Staged, Installed, ReferencedIds, SafeRun, TableChunks, WriteFileOps,
      ReadTables, Output;
    var loaded := ReadTables(cfg.codec, e.fs, e.version.tiers[t]).value;
    var es, id := Output(e.version, t, loaded.runs), e.version.nextTableId;
    LogSafety.SettledLive(img, Table(id));
    TableSafety.TableStaged(cfg, e, img, id, AtLeastOne(loaded.expected), es, ANYTHING);
    var w := TableWritten(cfg, e, id, AtLeastOne(loaded.expected), es);
    StagedScratch(img, map[Table(id) := if es == [] then [] else File(cfg.codec, AtLeastOne(loaded.expected), es)]);
    var v := CompactedVersion(e.version, t, es);
    InstallSame(cfg, w.engine, v);
    RunThen(e.fs, w.ops, SwitchOps(cfg.codec.crc, w.engine.fs, v, ReferencedIds(v) + ReferencedIds(e.version)));
  }

  // ------------------------------------------------------------ the two loops

  /** The flush so far, with the rest of the loop behind it, is the whole loop. */
  ghost predicate SoFarFlushed(cfg: Config, e: Engine, ops: seq<Op>, now: Engine) {
    FlushFrozen(cfg, e) == Sequel(Effect(now, ops, Done), FlushFrozen(cfg, now))
  }

  lemma FrozenBegin(cfg: Config, e: Engine)
    ensures SoFarFlushed(cfg, e, [], e)
  {
    hide FlushFrozen;
    assert [] + FlushFrozen(cfg, e).ops == FlushFrozen(cfg, e).ops;
  }

  lemma FrozenStep(cfg: Config, e: Engine, ops: seq<Op>, now: Engine)
    requires SoFarFlushed(cfg, e, ops, now) && now.frozen != [] && FlushFrozen(cfg, e).outcome != OutOfRange
    ensures var f := FlushOldest(cfg, now);
      && f.outcome != OutOfRange
      && (f.outcome != Done ==> FlushFrozen(cfg, e) == Effect(f.engine, ops + f.ops, f.outcome))
      && (f.outcome == Done ==> SoFarFlushed(cfg, e, ops + f.ops, f.engine))
  {
    hide FlushOldest;
    var f := FlushOldest(cfg, now);
    if f.outcome == Done {
      var rest := FlushFrozen(cfg, f.engine).ops;
      assert ops + (f.ops + rest) == (ops + f.ops) + rest;
    }
  }

  lemma FrozenEnd(cfg: Config, e: Engine, ops: seq<Op>, now: Engine)
    requires SoFarFlushed(cfg, e, ops, now) && now.frozen == []
    ensures FlushFrozen(cfg, e) == Effect(now, ops, Done)
  {
    assert ops + [] == ops;
  }

  ghost predicate SoFarCascaded(cfg: Config, e: Engine, ops: seq<Op>, now: Engine)
    requires Sane(cfg)
  {
    Cascade(cfg, e) == Sequel(Effect(now, ops, Done), Cascade(cfg, now))
  }

  lemma CascadeBegin(cfg: Config, e: Engine)
    requires Sane(cfg)
    ensures SoFarCascaded(cfg, e, [], e)
  {
    hide Cascade;
    assert [] + Cascade(cfg, e).ops == Cascade(cfg, e).ops;
  }

  lemma CascadeStep(cfg: Config, e: Engine, ops: seq<Op>, now: Engine)
    requires Sane(cfg) && SoFarCascaded(cfg, e, ops, now) && Cascade(cfg, e).outcome != OutOfRange
    ensures match FullTier(now.version, cfg.fanout)
            case None => Cascade(cfg, e) == Effect(now, ops, Done)
            case Some(t) =>
              var c := CompactTier(cfg, now, t);
              && c.outcome != OutOfRange
              && (c.outcome != Done ==> Cascade(cfg, e) == Effect(c.engine, ops + c.ops, c.outcome))
              && (c.outcome == Done ==> SoFarCascaded(cfg, e, ops + c.ops, c.engine)
                                        && Count(c.engine.version.tiers) < Count(now.version.tiers))
  {
    hide CompactTier, FullTier, Count;
    assert ops + [] == ops;
    var full := FullTier(now.version, cfg.fanout);
    if full.Some? {
      var c := CompactTier(cfg, now, full.value);
      if c.outcome == Done {
        CompactTierVersion(cfg, now, full.value);
        var rest := Cascade(cfg, c.engine).ops;
        assert ops + (c.ops + rest) == (ops + c.ops) + rest;
      }
    }
  }

  lemma ResetIs(e: Engine)
    ensures var r := Reset(e);
      r.engine == e.(fs := r.engine.fs, segment := r.engine.segment, segmentLen := r.engine.segmentLen) && r.outcome == Done
  {
    hide Ascending;
  }

  lemma FlushIs(cfg: Config, e: Engine)
    requires Sane(cfg) && FlushFrozen(cfg, Freeze(e)).outcome == Done
    ensures var f := FlushFrozen(cfg, Freeze(e));
            var r := Reset(f.engine);
            var c := Cascade(cfg, r.engine);
            FlushEffect(cfg, e) == Effect(c.engine, f.ops + r.ops + c.ops, c.outcome)
  {
    hide FlushFrozen, Freeze, Reset, Cascade;
    var f := FlushFrozen(cfg, Freeze(e));
    var r := Reset(f.engine);
    var c := Cascade(cfg, r.engine);
    assert f.ops + (r.ops + c.ops) == f.ops + r.ops + c.ops;
  }

  /** With everything flushed, memory is empty; the log can go. */
  lemma ResetState(cfg: Config, e: Engine, img: Image, d: OnDisk, kv: KV, before: Engine)
    requires Running(cfg, e, img, d, kv) && e == FlushFrozen(cfg, Freeze(before)).engine
    requires FlushFrozen(cfg, Freeze(before)).outcome == Done
    ensures e.active == map[] && e.frozen == []
  {
    hide Running;
    FlushFrozenEmpties(cfg, Freeze(before));
  }

  lemma {:induction false} FlushFrozenEmpties(cfg: Config, e: Engine)
    requires FlushFrozen(cfg, e).outcome == Done
    ensures FlushFrozen(cfg, e).engine.frozen == [] && FlushFrozen(cfg, e).engine.active == e.active
    decreases |e.frozen|
  {
    hide GcOps, InstallOps, TableFits, VersionFits, Flushed, Snapshot;
    if e.frozen != [] { FlushFrozenEmpties(cfg, FlushOldest(cfg, e).engine); }
  }

  lemma ResetRuns(cfg: Config, e: Engine, img: Image, d: OnDisk, kv: KV) returns (img': Image, d': OnDisk)
    requires Running(cfg, e, img, d, kv) && e.active == map[] && e.frozen == []
    ensures Running(cfg, Reset(e).engine, img', d', kv) && CompactionSafety.Quiet(Reset(e).engine, d')
  {
    hide Running, SafeRun, FsRun;
    img', d' := LogSafety.ResetSafe(cfg, e, img, d, kv, ANYTHING);
  }

  // ------------------------------------------------------------------- writes

  /** The append succeeds, and the engine with the write applied is running. */
  lemma WriteFacts(cfg: Config, e: Engine, img: Image, d: OnDisk, kv: KV, key: Bytes, kind: ValueKind)
    returns (img': Image, d': OnDisk)
    requires Sane(cfg) && Running(cfg, e, img, d, kv)
    requires WriteEffect(cfg, e, key, kind).outcome != OutOfRange
    ensures var rec := EngineSafety.Written(e, key, kind);
            var a := Logged(cfg, e.(nextSeq := e.nextSeq + 1), EncodeRecord(rec));
            var e1 := a.engine.(active := InsertIfNewer(a.engine.active, key, rec.value));
      && a.outcome == Done && Running(cfg, e1, img', d', Applied(kv, key, kind))
      && a.engine == e.(fs := a.engine.fs, segment := a.engine.segment, segmentLen := a.engine.segmentLen, nextSeq := e.nextSeq + 1)
      && (Weight(e1.active) >= cfg.memtableSize ==>
            var f := FlushEffect(cfg, e1);
            f.outcome != OutOfRange && WriteEffect(cfg, e, key, kind) == Sequel(a, f))
      && (Weight(e1.active) < cfg.memtableSize ==> WriteEffect(cfg, e, key, kind) == Effect(e1, a.ops, Done))
  {
    hide Running, FlushEffect, Logged, InsertIfNewer, EncodeRecord, RecordFits, Weight, Applied, SafeRun, FsRun;
    var rec := EngineSafety.Written(e, key, kind);
    img', d' := LogSafety.AppendSafe(cfg, e, img, d, kv, rec, ANYTHING);
    LoggedShape(cfg, e.(nextSeq := e.nextSeq + 1), EncodeRecord(rec));
  }

  lemma LoggedShape(cfg: Config, e: Engine, payload: Bytes)
    ensures var l := Logged(cfg, e, payload).engine;
            l == e.(fs := l.fs, segment := l.segment, segmentLen := l.segmentLen)
  {
    hide Frame.Encode, FsRun;
  }

  // -------------------------------------------------------------------- scans

  lemma {:induction false} ClipAllConcat(a: Runs, b: Runs, lo: Bound, hi: Bound)
    ensures ClipAll(a + b, lo, hi) == ClipAll(a, lo, hi) + ClipAll(b, lo, hi)
  {
    hide Clip;
    var s, t := ClipAll(a + b, lo, hi), ClipAll(a, lo, hi) + ClipAll(b, lo, hi);
    assert |s| == |t|;
    forall i | 0 <= i < |s|
      ensures s[i] == t[i]
    {
    }
  }

  lemma ScanFirst(m: Source, lo: Bound, hi: Bound)
    ensures ClipAll(Snapshots([m]), lo, hi) == [Clip(Snapshot(m), lo, hi)]
  {
    hide Clip, Snapshot;
    var one := ClipAll(Snapshots([m]), lo, hi);
    assert |one| == 1 && one[0] == Clip(Snapshot(m), lo, hi);
  }

  lemma OneMore<T>(x: T, s: seq<T>, i: nat)
    requires i < |s|
    ensures [x] + s[..i + 1] == ([x] + s[..i]) + [s[i]]
  {
  }

  lemma ScanAdds(tables: seq<Source>, m: Source, lo: Bound, hi: Bound)
    ensures ClipAll(Snapshots(tables + [m]), lo, hi) == ClipAll(Snapshots(tables), lo, hi) + [Clip(Snapshot(m), lo, hi)]
  {
    hide Clip, Snapshot;
    var s, t := ClipAll(Snapshots(tables + [m]), lo, hi), ClipAll(Snapshots(tables), lo, hi) + [Clip(Snapshot(m), lo, hi)];
    assert |s| == |t|;
    forall i | 0 <= i < |s|
      ensures s[i] == t[i]
    {
    }
  }

  /** What can be read of the tables is in key order, as the builder enforces. */
  ghost predicate RunsInOrder(cfg: Config, e: Engine, lo: Bound, hi: Bound) {
    var loaded := ReadTables(cfg.codec, e.fs, AllTables(e.version));
    loaded.Some? ==> AllSorted(ClipAll(Snapshots([e.active] + e.frozen) + loaded.value.runs, lo, hi))
  }

  /** The tables of a running engine can be read, and every clipped source is sorted. */
  lemma RunningInOrder(cfg: Config, e: Engine, img: Image, d: OnDisk, kv: KV, lo: Bound, hi: Bound)
    requires Running(cfg, e, img, d, kv)
    ensures RunsInOrder(cfg, e, lo, hi) && ScanOf(cfg, e, lo, hi).Some?
  {
    hide AllHeld, SettledFs, LogOpen, SeqsNew, NewestFirst, FreshIds, ReadTables, Sorted, InRange, Snapshot,
      Clip, AllTables, CompactionSafety.RunsOf, AllSorted, LogIn, Sound, Merged, LiveOf;
    var mem, tab := Snapshots([e.active] + e.frozen), CompactionSafety.RunsOf(d.tabs, AllTables(d.version));
    Reading.AllTablesHeld(cfg.codec, img, d.tabs, d.version);
    CompactionSafety.ReadTablesHeld(cfg.codec, img, d.tabs, AllTables(d.version));
    CompactionSafety.RunsSorted(cfg.codec, img, d.tabs, AllTables(d.version));
    Reading.SnapshotsSorted([e.active] + e.frozen);
    Reading.SortedConcat(mem, tab);
    Reading.ClipNewest(mem + tab, lo, hi, []);
  }

  // ------------------------------------------------------------------ opening

  /** Decoding record by record. */
  lemma {:induction false} DecodeSnoc(ps: seq<Bytes>, p: Bytes)
    ensures var init, last := DecodeRecords(ps), DecodeRecord(p);
      DecodeRecords(ps + [p]) == if init.None? || last.None? then None else Some(init.value + [last.value])
  {
    hide DecodeRecord;
    if ps == [] {
      assert ps + [p] == [p] && [p][1..] == [] && DecodeRecords([]) == Some([]);
      var last := DecodeRecord(p);
      if last.Some? { assert [last.value] + [] == [] + [last.value]; }
    } else {
      assert (ps + [p])[1..] == ps[1..] + [p] && (ps + [p])[0] == ps[0];
      DecodeSnoc(ps[1..], p);
      var head, rest, last := DecodeRecord(ps[0]), DecodeRecords(ps[1..]), DecodeRecord(p);
      if head.Some? && rest.Some? && last.Some? { Assoc([head.value], rest.value, [last.value]); }
    }
  }

  /** One record that does not decode is enough. */
  lemma {:induction false} DecodeBroken(ps: seq<Bytes>, i: nat)
    requires i < |ps| && DecodeRecord(ps[i]).None?
    ensures DecodeRecords(ps).None?
  {
    hide DecodeRecord;
    if i > 0 { DecodeBroken(ps[1..], i - 1); }
  }

  lemma {:induction false} NextStampSnoc(floor: nat, rs: seq<Record>, r: Record)
    ensures NextStamp(floor, rs + [r]) == Max(NextStamp(floor, rs), r.value.stamp + 1)
    decreases |rs|
  {
    if rs == [] {
      assert rs + [r] == [r] && [r][1..] == [];
    } else {
      assert (rs + [r])[1..] == rs[1..] + [r];
      NextStampSnoc(Max(floor, rs[0].value.stamp + 1), rs[1..], r);
    }
  }

  /** Replay the recovered records into memory and move the clock past them; `None` when one does not decode. */
  method ReplayLog(memtables: MemtableSet, records: seq<Bytes>, floor: nat) returns (nextSeq: Option<nat>)
    requires memtables.Valid() && memtables.active.entries == map[] && memtables.frozen == []
    modifies memtables.active
    ensures memtables.Valid()
    ensures match DecodeRecords(records)
            case None => nextSeq == None
            case Some(rs) => memtables.active.entries == Replay(map[], rs) && nextSeq == Some(NextStamp(floor, rs))
  {
    hide DecodeRecord, DecodeRecords, Replay, NextStamp, InsertIfNewer;
    ghost var rs: seq<Record> := [];
    var next := floor;
    ReplayNothing(floor);
    assert records[..0] == [];
    for i := 0 to |records|
      invariant memtables.Valid() && DecodeRecords(records[..i]) == Some(rs)
      invariant memtables.active.entries == Replay(map[], rs) && next == NextStamp(floor, rs)
    {
      assert records[..i + 1] == records[..i] + [records[i]];
      DecodeSnoc(records[..i], records[i]);
      var rec := DecodeRecord(records[i]);
      if rec.None? {
        DecodeBroken(records, i);
        return None;
      }
      ReplaySnoc(rs, rec.value);
      NextStampSnoc(floor, rs, rec.value);
      rs := rs + [rec.value];
      next := Max(next, rec.value.value.stamp + 1);
      memtables.InsertIfNewer(rec.value.key, rec.value.value);
    }
    assert records[..|records|] == records;
    return Some(next);
  }

  lemma ReplayNothing(floor: nat)
    ensures Replay(map[], []) == map[] && NextStamp(floor, []) == floor && DecodeRecords([]) == Some([])
  {
  }

  /** No scratch file of an interrupted rewrite is there. After a power loss none is: they are never durably named. */
  ghost predicate NoScratchFiles(v: Fs) {
    && ManifestTmp !in v.live && ManifestTmp !in v.durable
    && forall id: nat :: SegmentTmp(id) !in v.live && SegmentTmp(id) !in v.durable
  }

  /** The disks a database leaves are such. */
  lemma MeansNoScratch(cfg: Config, img: Image, kv: KV)
    requires ImageMeans(cfg, img, kv)
    ensures NoScratchFiles(SettledFs(img))
  {
    hide Sound, AllHeld, FreshIds, LogIn, Below, ManifestSays;
    assert NoScratch(img);
  }

  predicate Binds(op: Op, n: Name) {
    match op
    case Create(x) => x == n
    case Rename(_, to) => to == n
    case _ => false
  }

  /** A name no operation binds does not appear. */
  lemma {:induction false} NeverBound(v: Fs, ops: seq<Op>, n: Name)
    requires n !in v.live && n !in v.durable && forall i :: 0 <= i < |ops| ==> !Binds(ops[i], n)
    ensures n !in FsRun(v, ops).live && n !in FsRun(v, ops).durable
    decreases |ops|
  {
    if ops != [] {
      assert !Binds(ops[0], n);
      NeverBound(FsStep(v, ops[0]), ops[1..], n);
    }
  }

  lemma ManifestKeepsScratch(cfg: Config, v: Fs)
    requires NoScratchFiles(v)
    ensures forall id: nat :: SegmentTmp(id) !in FsRun(v, ManifestOps(cfg, v)).durable
  {
    hide FsRun;
    forall id: nat
      ensures SegmentTmp(id) !in FsRun(v, ManifestOps(cfg, v)).durable
    {
      NeverBound(v, ManifestOps(cfg, v), SegmentTmp(id));
    }
  }

  /** What opening comes to, once the manifest has been read. */
  lemma OpenIs(cfg: Config, v: Fs)
    requires ManifestRead(cfg, v).Some?
    ensures var o, v1 := OpenEffect(cfg, v), FsRun(v, ManifestOps(cfg, v));
            var r := Recover(cfg.codec.crc, LiveImage(v1));
      && o.ops == ManifestOps(cfg, v) + OpenOps(v1, r) && o.engine.fs == FsRun(v1, OpenOps(v1, r))
      && (o.outcome == Done <==> DecodeRecords(r.records).Some?)
      && (o.outcome == Done ==>
            var segment := LargestId(Ascending(SegmentIds(o.engine.fs.live.Keys)));
            var len := if Name.Segment(segment) in o.engine.fs.live then |o.engine.fs.live[Name.Segment(segment)].Bytes()| else 0;
            o.engine == Engine(o.engine.fs, ManifestRead(cfg, v).value, Replay(map[], DecodeRecords(r.records).value), [], segment, len,
                               NextStamp(ManifestRead(cfg, v).value.nextSeq, DecodeRecords(r.records).value)))
  {
    hide FsRun, ManifestOps, ManifestRead, Recover, LiveImage, DecodeRecords, RepairOps, FirstSegmentOps, Ascending, SegmentIds,
      Replay, NextStamp;
    var v1 := FsRun(v, ManifestOps(cfg, v));
    var r := Recover(cfg.codec.crc, LiveImage(v1));
    RunThen(v1, RepairOps(v1, r), FirstSegmentOps(FsRun(v1, RepairOps(v1, r))));
    Assoc(ManifestOps(cfg, v), RepairOps(v1, r), FirstSegmentOps(FsRun(v1, RepairOps(v1, r))));
  }

  /** The manifest of a database, created if there is none. */
  method ManifestFor(cfg: Config, fs: SimFs) returns (r: Option<Manifest>)
    requires fs.Valid() && fs.Calm() && ManifestTmp !in fs.View().durable
    modifies fs
    ensures fs.Valid() && fs.Calm() && (r.Some? <==> ManifestRead(cfg, old(fs.View())).Some?)
    ensures r.Some? ==>
              && fresh(r.value) && fresh(r.value.current) && r.value.fs == fs && r.value.crc == cfg.codec.crc
              && r.value.obsolete == [] && r.value.current.pins == 0
              && r.value.current.version == ManifestRead(cfg, old(fs.View())).value
    ensures fs.issued == old(fs.issued) + ManifestOps(cfg, old(fs.View()))
    ensures fs.View() == FsRun(old(fs.View()), ManifestOps(cfg, old(fs.View())))
  {
    hide Abstract, Disciplined, WellFormed, FsRun, DecodeVersion, EncodeVersion;
    NothingRuns(fs.View(), ANYTHING);
    r := OpenManifest(fs, cfg.codec.crc);
  }

  /** The parts, put together: nothing in flight, nothing frozen. */
  method Assemble(cfg: Config, fs: SimFs, wal: Wal, memtables: MemtableSet, manifest: Manifest, nextSeq: nat) returns (db: Db)
    requires wal.fs == fs && wal.crc == cfg.codec.crc && wal.segmentSize == cfg.segmentSize && wal.Valid()
    requires manifest.fs == fs && manifest.crc == cfg.codec.crc && manifest.current.pins == 0 && manifest.obsolete == []
    requires memtables.Valid() && memtables.maxBytes == cfg.memtableSize
    ensures fresh(db) && db.cfg == cfg && db.fs == fs && db.Whole() && db.Idle()
    ensures db.Eng() == Engine(fs.View(), manifest.current.version, memtables.active.entries, memtables.FrozenContents(),
                               wal.active.id, wal.active.writeOffset, nextSeq)
  {
    hide Abstract, Disciplined, WellFormed;
    db := new Db(cfg, fs, wal, memtables, manifest, nextSeq);
  }

  /** `open_on`: manifest, log, replay. It fails exactly when the manifest or a recovered record does not decode. */
  method OpenDb(cfg: Config, fs: SimFs) returns (r: Result<Db, DbError>)
    requires fs.Valid() && fs.Calm() && NoScratchFiles(fs.View())
    modifies fs
    ensures var o := OpenEffect(cfg, old(fs.View()));
      && (r.Ok? <==> o.outcome == Done) && fs.issued == old(fs.issued) + o.ops && fs.View() == o.engine.fs
      && (r.Ok? ==> r.value.Eng() == o.engine)
    ensures r.Ok? ==> fresh(r.value) && r.value.cfg == cfg && r.value.fs == fs && r.value.Whole() && r.value.Idle()
  {
    hide Abstract, Disciplined, WellFormed, FsRun, Recover, LiveImage, OpenOps, Ascending, SegmentIds, DecodeRecords, Replay, NextStamp,
      OpenEffect, ManifestOps, ManifestRead;
    ghost var v := fs.View();
    NothingOpened(cfg, v);
    var manifest := ManifestFor(cfg, fs);
    if manifest.None? { return Err(CorruptManifest); }
    OpenIs(cfg, v);
    ManifestKeepsScratch(cfg, v);
    r := OpenLog(cfg, fs, manifest.value);
  }

  /** With an unreadable manifest nothing is done. */
  lemma NothingOpened(cfg: Config, v: Fs)
    ensures ManifestRead(cfg, v).None? ==>
              OpenEffect(cfg, v) == Effect(Engine(v, EMPTY_VERSION, map[], [], 0, 0, 0), [], Unreadable)
              && ManifestOps(cfg, v) == [] && FsRun(v, ManifestOps(cfg, v)) == v
  {
  }

  /** The rest of opening, with the manifest in hand. */
  method OpenLog(cfg: Config, fs: SimFs, manifest: Manifest) returns (r: Result<Db, DbError>)
    requires fs.Valid() && fs.Calm() && forall id: nat :: SegmentTmp(id) !in fs.View().durable
    requires manifest.fs == fs && manifest.crc == cfg.codec.crc && manifest.current.pins == 0 && manifest.obsolete == []
    modifies fs
    ensures var v1 := old(fs.View());
            var rec := Recover(cfg.codec.crc, LiveImage(v1));
            var rs, floor := DecodeRecords(rec.records), manifest.current.version.nextSeq;
      && fs.issued == old(fs.issued) + OpenOps(v1, rec) && fs.View() == FsRun(v1, OpenOps(v1, rec))
      && (r.Ok? <==> rs.Some?)
      && (r.Ok? ==>
            var segment := LargestId(Ascending(SegmentIds(fs.View().live.Keys)));
            && Name.Segment(segment) in fs.View().live
            && r.value.Eng() == Engine(fs.View(), manifest.current.version, Replay(map[], rs.value), [], segment,
                                       |fs.View().live[Name.Segment(segment)].Bytes()|, NextStamp(floor, rs.value)))
    ensures r.Ok? ==> fresh(r.value) && r.value.cfg == cfg && r.value.fs == fs && r.value.Whole() && r.value.Idle()
  {
    hide Abstract, Disciplined, WellFormed, FsRun, Recover, LiveImage, DecodeRecords, OpenOps, Ascending, SegmentIds, Replay, NextStamp;
    var wal, recovered := OpenWal(fs, cfg.codec.crc, cfg.segmentSize);
    var memtables := new MemtableSet(cfg.memtableSize);
    var nextSeq := ReplayLog(memtables, recovered.records, manifest.current.version.nextSeq);
    if nextSeq.None? { return Err(CorruptRecord); }
    var db := Assemble(cfg, fs, wal, memtables, manifest, nextSeq.value);
    return Ok(db);
  }
}
