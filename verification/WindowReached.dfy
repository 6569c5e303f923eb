// The window is real: a short life, of one key put and deleted, that ends with a file
// under the next table id.

module WindowReached {
  import opened Wrappers
  import opened ByteStrings
  import opened Versions
  import opened Sources
  import opened SortedRuns
  import opened Merge
  import opened Sim
  import opened FsView
  import opened Protocols
  import opened RecordFormat
  import opened WalModel
  import opened TableFormat
  import opened LsmVersion
  import opened ManifestFormat
  import opened Meaning
  import opened EngineModel
  import opened EngineState
  import opened LogSafety
  import opened TableSafety
  import opened CompactionSafety
  import opened EngineSafety
  import opened OpenSafety
  import opened Lives
  import opened Window
  import Reading
  import Frame

  // ---------------------------------------------------------- everything fits

  predicate Tiny(r: Record) {
    r.key == [] && r.value.stamp < POW64 && (r.value.kind == Tombstone || r.value.kind == Value([]))
  }

  lemma TinyRecordFits(r: Record)
    requires Tiny(r)
    ensures RecordFits(r) && EntryFits(r) && |TableFormat.EntryBytes(r)| <= 17
  {
  }

  lemma TinyBlocks(r: Record)
    ensures BlocksOf([r]) == [[r]] && Body([r]) == TableFormat.EntryBytes(r)
  {
    var es := [r];
    assert es[..|es| - 1] == [] && es[1..] == [];
    assert [] + es == es && Filled(es) == Blocks([], es);
    assert Body(es) == TableFormat.EntryBytes(r) + Body([]);
  }

  lemma TinyFilter(c: Codec, r: Record)
    requires r.key == []
    ensures var f := FilterOf(c, 1, [r]); Bloom.Fits(f) && |f.bits| == 8
  {
    var f0 := Bloom.New(c.probes, 1, BITS_PER_KEY);
    assert KeysOf([r]) == [r.key] && [r.key][1..] == [];
    assert |f0.bits| == 8;
  }

  lemma TinyTableFits(c: Codec, r: Record)
    requires Tiny(r)
    ensures TableFits(c, 1, [r])
  {
    hide Bloom.InsertAll, Bloom.New, FilterOf, Filled, SealCurrent, Bloom.Fits, TableFormat.EntryBytes, PutU32, PutU64;
    TinyRecordFits(r);
    TinyBlocks(r);
    TinyFilter(c, r);
    var blocks := [[r]];
    assert blocks[..0] == [] && blocks[1..] == [];
    assert |Data(c.crc, blocks)| <= 21;
    var h := Handle([], 0, |Body([r])| + 4);
    assert Handles(c.crc, blocks) == [h];
    assert [h][1..] == [] && HandlesBytes([h]) == HandleBytes(h) + HandlesBytes([]);
    assert |HandleBytes(h)| == 16;
  }

  // ------------------------------------------------------------------- the calls

  /** A write of the empty key that does not fill the active table. */
  lemma TinyWrite(cfg: Config, e: Engine, img: Image, d: OnDisk, kv: KV, kind: ValueKind) returns (img': Image, d': OnDisk)
    requires Sane(cfg) && cfg.memtableSize > 64 && Running(cfg, e, img, d, kv) && NoStray(img, e.version)
    requires e.active == map[] && e.frozen == [] && e.nextSeq < 9 && (kind == Tombstone || kind == Value([]))
    ensures var w := WriteEffect(cfg, e, [], kind);
      && w.outcome == Done && Running(cfg, w.engine, img', d', Applied(kv, [], kind)) && NoStray(img', w.engine.version)
      && w.engine.active == map[[] := InternalValue(e.nextSeq, kind)] && w.engine.frozen == []
      && w.engine.version == e.version && w.engine.nextSeq == e.nextSeq + 1
  {
    hide Running, SafeRun, FsRun, FlushEffect, NoStray, EncodeRecord, RecordFits, Frame.Encode, Weight;
    var r := EngineSafety.Written(e, [], kind);
    TinyRecordFits(r);
    var img1, d1 := AppendSafe(cfg, e, img, d, kv, r, ANYTHING);
    assert InsertIfNewer(map[], [], r.value) == map[[] := r.value];
    WeightInsert(map[], [], r.value);
    WeightZero(map[]);
    img', d' := WriteSafe(cfg, e, img, d, kv, [], kind, ANYTHING);
    RunningVersion(cfg, WriteEffect(cfg, e, [], kind).engine, img', d', Applied(kv, [], kind));
  }

  /** The versions of this life: one tier of at most one table, small numbers. */
  predicate TinyVersion(v: Version) {
    && v.nextSeq < 9 && v.nextTableId < 9
    && (v.tiers == [] || (|v.tiers| == 1 && |v.tiers[0]| == 1 && MetaFits(v.tiers[0][0])))
  }

  lemma TinyFlushed(v: Version, es: seq<Record>, nextSeq: nat)
    requires TinyVersion(v) && |es| == 1 && es[0].key == [] && nextSeq < 9
    ensures var v' := Flushed(v, MetaOf(v.nextTableId, es), nextSeq);
      && VersionFits(v') && |v'.tiers| == 1 && v'.nextTableId == v.nextTableId + 1 && v'.nextSeq < 9
      && |v'.tiers[0]| == (if v.tiers == [] then 1 else 2) && (v.tiers == [] ==> MetaFits(v'.tiers[0][0]))
  {
  }

  lemma OneEntry(v: InternalValue)
    ensures Snapshot(map[[] := v]) == [Record([], v)]
  {
    var m: Source := map[[] := v];
    assert LeastKey(m) == [];
    assert m - {[]} == map[];
  }

  /** A flush of one tiny entry, up to and including the release of the log. */
  lemma TinyHead(cfg: Config, e: Engine, img: Image, d: OnDisk, kv: KV, v: InternalValue) returns (img': Image, d': OnDisk)
    requires Sane(cfg) && Running(cfg, e, img, d, kv) && NoStray(img, e.version)
    requires e.active == map[[] := v] && e.frozen == [] && Tiny(Record([], v)) && TinyVersion(e.version) && e.nextSeq < 9
    ensures var f := FlushFrozen(cfg, Freeze(e));
            var r := Reset(f.engine);
      && f.outcome == r.outcome == Done && Safe(e.fs, Sequel(f, r), ANYTHING)
      && r.engine.version == Flushed(e.version, MetaOf(e.version.nextTableId, [Record([], v)]), e.nextSeq)
      && r.engine.active == map[] && r.engine.frozen == [] && r.engine.nextSeq == e.nextSeq
      && Running(cfg, r.engine, img', d', kv) && Quiet(r.engine, d') && NoStray(img', r.engine.version)
  {
    hide Running, SafeRun, FsRun, NoStray, TableFits, TableChunks, WriteFileOps, InstallOps, GcOps, Flushed, VersionFits, Snapshot,
      Tiny, TinyVersion, LoggedOf, ReferencedIds;
    var es := [Record([], v)];
    OneEntry(v);
    TinyTableFits(cfg.codec, es[0]);
    TinyFlushed(e.version, es, e.nextSeq);
    var e0 := Freeze(e);
    assert e.active != map[] by { assert [] in e.active; }
    assert [] + [e.active] == [e.active];
    assert e0.frozen == [e.active];
    FreezeKeeps(cfg, e, img, d, kv);
    TinyRound(cfg, e0, img, d, kv, es);
    var f := FlushFrozen(cfg, e0);
    var img1, d1 := FlushFrozenSafe(cfg, e0, img, d, kv, ANYTHING);
    ResetKeeps(f.engine);
    img', d' := ResetSafe(cfg, f.engine, img1, d1, kv, ANYTHING);
    RunningVersion(cfg, f.engine, img1, d1, kv);
    StrayFewer(img1, img', f.engine.version);
    SequelSafe(e.fs, f, Reset(f.engine), ANYTHING);
  }

  /** The one round of that flush. */
  lemma TinyRound(cfg: Config, e: Engine, img: Image, d: OnDisk, kv: KV, es: seq<Record>)
    requires Running(cfg, e, img, d, kv) && NoStray(img, e.version) && e.active == map[] && |e.frozen| == 1 && es != []
    requires Snapshot(e.frozen[0]) == es && |es| == 1 && TableFits(cfg.codec, 1, es)
    requires VersionFits(Flushed(e.version, MetaOf(e.version.nextTableId, es), e.nextSeq))
    ensures var f := FlushFrozen(cfg, e);
      && f.outcome == Done && f.engine.version == Flushed(e.version, MetaOf(e.version.nextTableId, es), e.nextSeq)
      && f.engine.active == map[] && f.engine.frozen == [] && f.engine.nextSeq == e.nextSeq
  {
    hide Running, SafeRun, FsRun, TableFits, TableChunks, WriteFileOps, InstallOps, GcOps, Flushed, VersionFits, Snapshot,
      ReferencedIds;
    RunningVersion(cfg, e, img, d, kv);
    SettledLive(img, Table(e.version.nextTableId));
    var f := FlushOldest(cfg, e);
    assert e.frozen[1..] == [];
    assert f.outcome == Done && f.engine.frozen == [];
    assert FlushFrozen(cfg, f.engine) == Effect(f.engine, [], Done);
  }

  /** When the map is empty and there is only one tier, merging it leaves nothing. */
  lemma NothingLeft(cfg: Config, e: Engine, img: Image, d: OnDisk)
    requires Running(cfg, e, img, d, map[]) && Quiet(e, d) && |e.version.tiers| == 1
    ensures EmptyOutput(cfg, e, 0)
  {
    hide Sound, Stored, LogOpen, SeqsNew, NewestFirst, ReadTables, RunsOf, FrozenFull, AllBelow, Sorted, SourcesOf, TablesOf, Replay,
      LogRecords, Merged, MapOf;
    InputsRead(cfg, e, img, d, map[], 0);
    QuietSound(e, d, map[]);
    var runs := RunsOf(d.tabs, d.version.tiers[0]);
    var es := Output(d.version, 0, runs);
    var data := TableData(1, es);
    CompactedMeans(cfg, img, d, 0, data, map[]);
    assert Above(d.version, 0) == [] && Under(d.version, 0) == [] by { OneTier(d.version); }
    assert SourcesOf(d.tabs, []) == [] by { NoSources(d.tabs); }
    if es != [] {
      var tables := [MapOf(es)];
      assert [] + Optional(data) + [] == tables by { MapOfNothing(es); }
      OnlyTombstones(es, tables);
      KeptIsValue(Merged(runs));
    }
  }

  lemma OneTier(v: Version)
    requires |v.tiers| == 1
    ensures Above(v, 0) == [] && Under(v, 0) == [] && OutputIsBottom(v, 0)
  {
  }

  lemma OnlyTombstones(es: seq<Record>, tables: seq<Source>)
    requires es != [] && Sorted(es) && tables == [MapOf(es)] && Sound(Stack([map[]], tables, map[]), map[])
    ensures es[0].value.kind == Tombstone
  {
    hide MapOf, Sorted, Recent;
    MapOfAt(es, 0);
    var k := es[0].key;
    var none: Source := map[];
    LookupInFirst(none, tables, k);
    LookupInFirst(MapOf(es), [], k);
    assert [MapOf(es)] + [] == tables;
    assert Visible(Lookup([none] + tables, k)) == ValueIn(map[], k);
  }

  lemma {:induction false} KeptIsValue(run: seq<Record>)
    ensures WithoutDeletes(run) != [] ==> WithoutDeletes(run)[0].value.kind != Tombstone
  {
    if run != [] { KeptIsValue(run[1..]); }
  }

  // -------------------------------------------------------------------- the crash

  /** On a disk with nothing buffered there is nothing to tear. */
  lemma NothingTearable(d: Disk, img: Image)
    requires WellFormed(d) && Abstract(d) == SettledFs(img)
    ensures CrashAllowed(d, None, Drop)
  {
    hide Abstract, WellFormed;
    forall i | i in d.inodes
      ensures !Tearable(d, i)
    {
      if DurablyReferenced(d, i) {
        var n :| n in d.files && d.files[n].durable == Some(i);
        NothingBuffered(d, img, n, i);
      }
    }
  }

  lemma NothingBuffered(d: Disk, img: Image, n: Name, i: nat)
    requires Abstract(d) == SettledFs(img) && n in d.files && d.files[n].durable == Some(i) && i in d.inodes
    ensures |d.inodes[i].live| <= |d.inodes[i].durable|
  {
    hide Abstract;
    AbstractShows(d, n);
    assert ContentOf(d.inodes[i]).tail == [];
  }

  /** and a power loss leaves it as it is. */
  lemma SettledStays(d: Disk, img: Image)
    requires Disciplined(d) && Abstract(d) == SettledFs(img) && CrashAllowed(d, None, Drop)
    ensures Abstract(Crash(d, None, Drop)) == SettledFs(img)
  {
    hide Abstract, WellFormed, AppendOnly, Exclusive, CrashAllowed, Crash, SettledFs, CrashImage;
    var torn := CrashRefines(d, None, Drop);
    SettledCrashSafe(img, Goal(Drop, (i: Image) => i == img));
  }

  // --------------------------------------------------------------------- the life

  /** Opening a blank disk gives an empty engine. */
  lemma BlankOpened(cfg: Config) returns (img: Image, d: OnDisk)
    ensures var o := OpenEffect(cfg, EMPTY_FS);
      && o.outcome == Done && Running(cfg, o.engine, img, d, map[]) && NoStray(img, EMPTY_VERSION)
      && o.engine.version == EMPTY_VERSION && o.engine.active == map[] && o.engine.frozen == [] && o.engine.nextSeq == 1
  {
    hide Running, EncodeVersion, SafeRun, FsRun, ReplaceOps, RecoverOver, Ascending;
    var none: Image := map[];
    assert EMPTY_FS == SettledFs(none);
    img, d := OpenSafe(cfg, none, map[], ANYTHING);
    var bytes := EncodeVersion(cfg.codec.crc, EMPTY_VERSION);
    StagedNothing(none);
    ReplaceRun(none, none, ManifestTmp, ManifestFile, bytes, ANYTHING);
    assert (none + none)[ManifestFile := bytes] == BlankImage(cfg);
    var fs1 := SettledFs(BlankImage(cfg));
    assert FsRun(EMPTY_FS, ManifestOps(cfg, EMPTY_FS)) == fs1;
    assert SegmentIds(LiveImage(fs1).Keys) == {};
    NoIds();
    NoneListed(cfg.codec.crc, LiveImage(fs1));
  }

  lemma NoIds()
    ensures Ascending({}) == []
  {
  }

  const CALLS: seq<Call> := [Call.Put([], []), Call.Flush, Call.Delete([])]

  /** The engine after the put, the flush and the delete, and what its second flush does. */
  lemma AfterCalls(cfg: Config, e: Engine)
    requires Sane(cfg)
    ensures var e1 := WriteEffect(cfg, e, [], Value([])).engine;
            var e2 := FlushEffect(cfg, e1).engine;
      && CallsRun(cfg, e, CALLS) == WriteEffect(cfg, e2, [], Tombstone).engine
      && (CallsFit(cfg, e, CALLS) <==>
            WriteEffect(cfg, e, [], Value([])).outcome != OutOfRange && FlushEffect(cfg, e1).outcome != OutOfRange
            && WriteEffect(cfg, e2, [], Tombstone).outcome != OutOfRange)
  {
    hide WriteEffect, FlushEffect;
    var flush, delete: seq<Call> := [Call.Flush, Call.Delete([])], [Call.Delete([])];
    assert CALLS[1..] == flush && flush[1..] == delete && delete[1..] == [];
    var e1 := WriteEffect(cfg, e, [], Value([])).engine;
    var e2 := FlushEffect(cfg, e1).engine;
    assert CallsRun(cfg, e2, delete) == CallsRun(cfg, WriteEffect(cfg, e2, [], Tombstone).engine, []);
    assert CallsRun(cfg, e1, flush) == CallsRun(cfg, e2, delete);
    assert CallsFit(cfg, WriteEffect(cfg, e2, [], Tombstone).engine, []);
  }

  /** The state before the last flush: two entries of one key, the older in a table, and an empty map. */
  lemma BeforeLast(cfg: Config) returns (img: Image, d: OnDisk, v: InternalValue)
    requires cfg.fanout == 2 && cfg.memtableSize > 64
    ensures var e := CallsRun(cfg, OpenEffect(cfg, EMPTY_FS).engine, CALLS);
      && CallsFit(cfg, OpenEffect(cfg, EMPTY_FS).engine, CALLS)
      && Running(cfg, e, img, d, map[]) && NoStray(img, e.version) && e.active == map[[] := v] && e.frozen == []
      && Tiny(Record([], v)) && TinyVersion(e.version) && |e.version.tiers| == 1 && e.nextSeq == 3
  {
    hide Running, WriteEffect, OpenEffect, NoStray, FlushFrozen, Reset, Flushed, MetaOf, VersionFits, CallsRun, CallsFit, Safe;
    var e := OpenEffect(cfg, EMPTY_FS).engine;
    var img0, d0 := BlankOpened(cfg);
    var none: KV := map[];
    var img1, d1 := TinyWrite(cfg, e, img0, d0, none, Value([]));
    var e1 := WriteEffect(cfg, e, [], Value([])).engine;
    var kv1 := Applied(none, [], Value([]));
    var put := InternalValue(1, Value([]));
    var img2, d2 := TinyHead(cfg, e1, img1, d1, kv1, put);
    TinyFlushed(EMPTY_VERSION, [Record([], put)], 2);
    var r := Reset(FlushFrozen(cfg, Freeze(e1)).engine);
    FullBelow(r.engine.version);
    assert FlushEffect(cfg, e1).engine == r.engine && FlushEffect(cfg, e1).outcome == Done;
    v := InternalValue(2, Tombstone);
    img, d := TinyWrite(cfg, r.engine, img2, d2, kv1, Tombstone);
    assert Applied(kv1, [], Tombstone) == none;
    AfterCalls(cfg, e);
  }

  lemma FullBelow(v: Version)
    requires |v.tiers| == 1
    ensures |v.tiers[0]| == 1 ==> FullTier(v, 2).None?
    ensures |v.tiers[0]| == 2 ==> FullTier(v, 2) == Some(0)
  {
  }

  /** The last flush: its first part, and then a compaction that writes nothing. */
  lemma LastFlush(cfg: Config, e: Engine, img: Image, d: OnDisk, v: InternalValue) returns (head: seq<Op>, r: Engine, img': Image, d': OnDisk)
    requires cfg.fanout == 2 && Running(cfg, e, img, d, map[]) && NoStray(img, e.version)
    requires e.active == map[[] := v] && e.frozen == [] && Tiny(Record([], v))
    requires TinyVersion(e.version) && |e.version.tiers| == 1 && e.nextSeq < 9
    ensures FlushEffect(cfg, e).outcome == Done && |r.version.tiers| == 1
    ensures var c := CompactTier(cfg, r, 0);
      && c.outcome == Done && head + c.ops <= FlushEffect(cfg, e).ops && r.fs == FsRun(e.fs, head)
    ensures Running(cfg, r, img', d', map[]) && Quiet(r, d') && EmptyOutput(cfg, r, 0) && Table(r.version.nextTableId) !in img'
  {
    hide Running, SafeRun, FsRun, FlushFrozen, Reset, Flushed, MetaOf, VersionFits, EmptyOutput, CompactTier, LoggedOf, FullTier,
      FreshIds;
    img', d' := TinyHead(cfg, e, img, d, map[], v);
    TinyFlushed(e.version, [Record([], v)], e.nextSeq);
    var f := FlushFrozen(cfg, Freeze(e));
    r := Reset(f.engine).engine;
    head := f.ops + Reset(f.engine).ops;
    FullBelow(r.version);
    NothingLeft(cfg, r, img', d');
    Clears(cfg, r, img', d');
    var c := CompactTier(cfg, r, 0);
    var rest := Cascade(cfg, c.engine);
    assert Cascade(cfg, r) == Sequel(c, rest);
    assert FlushEffect(cfg, e) == Sequel(f, Sequel(Reset(f.engine), Sequel(c, rest)));
    assert f.ops + (Reset(f.engine).ops + (c.ops + rest.ops)) == head + c.ops + rest.ops;
  }

  /** The compaction that writes nothing leaves no tier. */
  lemma Clears(cfg: Config, e: Engine, img: Image, d: OnDisk)
    requires Running(cfg, e, img, d, map[]) && |e.version.tiers| == 1 && EmptyOutput(cfg, e, 0)
    requires Table(e.version.nextTableId) !in img && e.version.nextSeq < 9 && e.version.nextTableId <= 9
    ensures var c := CompactTier(cfg, e, 0);
      c.outcome == Done && c.engine.version.tiers == [] && FullTier(c.engine.version, cfg.fanout) == None
  {
    hide Running, FsRun, ReadTables, Output, TableFits, InstallOps, GcOps, ReferencedIds;
    RunningVersion(cfg, e, img, d, map[]);
    SettledLive(img, Table(e.version.nextTableId));
    var v := Cleared(e.version, 0);
    assert e.version.tiers[0 := []] == [[]];
    assert v.tiers == [];
    assert VersionFits(v);
  }

  /** The life: put, flush, delete, and power lost seven operations into the compaction of the next flush. Reopened, the
      database reads as the empty map it should be, but it has a file under the next table id, and whatever is
      put into it, the next flush is refused. */
  lemma WindowReached(cfg: Config) returns (life: seq<Event>)
    requires cfg.fanout == 2 && cfg.memtableSize > 64
    ensures LifeOk(cfg, EMPTY_DISK, life)
    ensures var o := OpenEffect(cfg, Abstract(AfterLife(cfg, EMPTY_DISK, life)));
      && o.outcome == Done && Table(o.engine.version.nextTableId) in o.engine.fs.live && ReadsAs(cfg, o.engine, map[])
      && forall k, b :: FlushAfterPutRefused(cfg, o.engine, k, b)
  {
    hide Running, WriteEffect, FlushEffect, OpenEffect, CompactTier, EmptyOutput, WindowImage, CallsRun, CallsFit, CallsOps, Disciplined,
      WellFormed, Abstract, SafeRun, FsRun, SettledFs, LegalRun, DiskRun, Crash, CrashAllowed, ReadsAs, FlushAfterPutRefused, Quiet, DiskShows,
      ImageMeans, LifeOk, AfterLife, NoStray;
    var img, d, v := BeforeLast(cfg);
    var e := CallsRun(cfg, OpenEffect(cfg, EMPTY_FS).engine, CALLS);
    var head, r, img1, d1 := LastFlush(cfg, e, img, d, v);
    var img2, d2 := EmptyOutputWindow(cfg, r, img1, d1, map[], 0);
    var left := WindowImage(cfg, img1, r.version, 0);
    var c := CompactTier(cfg, r, 0);
    RunThen(e.fs, head, c.ops[..7]);
    var cut := |head| + 7;
    PrefixOf(head, c.ops, FlushEffect(cfg, e).ops, 7);
    life := OneLife(cfg, e, img, d, cut, left);
    var o := OpenEffect(cfg, SettledFs(left));
    StrayLive(cfg, o.engine, img2, d2, map[]);
    ReadsEmpty(cfg, left);
    forall k, b
      ensures FlushAfterPutRefused(cfg, o.engine, k, b)
    {
      PutThenRefused(cfg, o.engine, img2, d2, map[], k, b);
    }
  }

  lemma PrefixOf(a: seq<Op>, b: seq<Op>, all: seq<Op>, n: nat)
    requires a + b <= all && n <= |b|
    ensures |a| + n <= |all| && all[..|a| + n] == a + b[..n]
  {
  }

  /** A put that does not itself flush, and a flush: the flush is refused. */
  ghost predicate FlushAfterPutRefused(cfg: Config, e: Engine, k: Bytes, b: Bytes)
    requires Sane(cfg)
  {
    var w := WriteEffect(cfg, e, k, Value(b));
    w.outcome == Done ==> FlushEffect(cfg, w.engine).outcome == Collision
  }

  lemma PutThenRefused(cfg: Config, e: Engine, img: Image, d: OnDisk, kv: KV, k: Bytes, b: Bytes)
    requires Sane(cfg) && Running(cfg, e, img, d, kv) && Table(e.version.nextTableId) in img
    ensures FlushAfterPutRefused(cfg, e, k, b)
  {
    hide Running, SafeRun, FsRun, FlushEffect, Logged, Weight, EncodeRecord, RecordFits;
    var w := WriteEffect(cfg, e, k, Value(b));
    if w.outcome == Done {
      WriteRefusedIff(cfg, e, img, d, kv, k, Value(b));
      var r := EngineSafety.Written(e, k, Value(b));
      var img1, d1 := AppendSafe(cfg, e, img, d, kv, r, ANYTHING);
      assert k in w.engine.active;
      RefusedForGood(cfg, w.engine, img1, d1, Applied(kv, k, Value(b)));
    }
  }

  lemma StrayLive(cfg: Config, e: Engine, img: Image, d: OnDisk, kv: KV)
    requires Running(cfg, e, img, d, kv) && Table(e.version.nextTableId) in img
    ensures Table(e.version.nextTableId) in e.fs.live
  {
  }

  lemma ReadsEmpty(cfg: Config, left: Image)
    requires ImageMeans(cfg, left, map[])
    ensures ReadsAs(cfg, OpenEffect(cfg, SettledFs(left)).engine, map[])
  {
    hide Running, GetOf, ScanOf, OpenEffect, ImageMeans;
    var img, d := OpenSafe(cfg, left, map[], ANYTHING);
    var e := OpenEffect(cfg, SettledFs(left)).engine;
    forall k
      ensures GetOf(cfg, e, k) == Some(ValueIn(map[], k))
    {
      Reading.GetCorrect(cfg, e, img, d, map[], k);
    }
    forall lo, hi
      ensures ScanReads(cfg, e, lo, hi, map[])
    {
      Reading.ScanOfCorrect(cfg, e, img, d, map[], lo, hi);
    }
  }

  /** The life whose one session makes the calls and is cut `cut` operations into one more flush, where nothing is buffered. */
  lemma OneLife(cfg: Config, e: Engine, img: Image, d: OnDisk, cut: nat, left: Image) returns (life: seq<Event>)
    requires Sane(cfg) && CallsFit(cfg, OpenEffect(cfg, EMPTY_FS).engine, CALLS)
    requires e == CallsRun(cfg, OpenEffect(cfg, EMPTY_FS).engine, CALLS) && Running(cfg, e, img, d, map[])
    requires FlushEffect(cfg, e).outcome == Done && cut <= |FlushEffect(cfg, e).ops|
    requires FsRun(e.fs, FlushEffect(cfg, e).ops[..cut]) == SettledFs(left)
    ensures LifeOk(cfg, EMPTY_DISK, life) && Abstract(AfterLife(cfg, EMPTY_DISK, life)) == SettledFs(left)
  {
    hide Running, WriteEffect, FlushEffect, OpenEffect, CallsRun, CallsFit, CallsOps, Disciplined, WellFormed, Abstract, SafeRun, FsRun,
      SettledFs, LegalRun, DiskRun, Crash, CrashAllowed;
    EmptyDiskAbstracts();
    FreshDiskShows(cfg);
    OpenRuns(cfg, EMPTY_DISK, map[]);
    ShownWellFormed(cfg, EMPTY_DISK, map[]);
    var o := OpenEffect(cfg, EMPTY_FS);
    var d1 := DiskRun(EMPTY_DISK, o.ops);
    CallsRuns(cfg, d1, o.engine, map[], CALLS);
    var more := CallsOps(cfg, o.engine, CALLS);
    var d2 := DiskRun(d1, more);
    OnDisciplined(cfg, d2, e, CallsApplied(map[], CALLS));
    var last := FlushEffect(cfg, e).ops[..cut];
    var img', o' := FlushSafe(cfg, e, img, d, map[], ANYTHING);
    SafeAtCut(e.fs, FlushEffect(cfg, e).ops, ANYTHING, cut);
    RunRefines(d2, last);
    DiskRunConcat(EMPTY_DISK, o.ops, more);
    DiskRunConcat(EMPTY_DISK, o.ops + more, last);
    var d3 := DiskRun(d2, last);
    NothingTearable(d3, left);
    SettledStays(d3, left);
    var ev := Session(CALLS, Call.Flush, cut, None, Drop);
    life := [ev];
    OneEvent(cfg, ev, o, more, d3);
  }

  lemma OneEvent(cfg: Config, ev: Event, o: Effect, more: seq<Op>, d: Disk)
    requires Sane(cfg) && ev.Session? && ev.calls == CALLS && ev.last == Call.Flush && ev.tear == Drop && WellFormed(EMPTY_DISK)
    requires o == OpenEffect(cfg, Abstract(EMPTY_DISK)) && more == CallsOps(cfg, o.engine, CALLS) && CallsFit(cfg, o.engine, CALLS)
    requires var f := FlushEffect(cfg, CallsRun(cfg, o.engine, CALLS));
      f.outcome != OutOfRange && ev.cut <= |f.ops| && d == DiskRun(EMPTY_DISK, o.ops + more + f.ops[..ev.cut])
    requires WellFormed(d) && CrashAllowed(d, ev.target, ev.tear)
    ensures LifeOk(cfg, EMPTY_DISK, [ev]) && AfterLife(cfg, EMPTY_DISK, [ev]) == Crash(d, ev.target, ev.tear)
  {
    hide WriteEffect, FlushEffect, OpenEffect, CallsRun, CallsFit, CallsOps, WellFormed, Abstract, DiskRun, Crash, CrashAllowed;
    assert EventOk(cfg, EMPTY_DISK, ev);
    assert [ev][1..] == [];
  }
}
