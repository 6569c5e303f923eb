// Table files and the manifest switch: flushing, collecting garbage and compacting
// are safe at every crash point and keep the meaning.

module TableSafety {
  import opened ByteStrings
  import opened Seqs
  import opened Versions
  import opened SortedRuns
  import opened Sim
  import opened FsView
  import opened Protocols
  import opened RecordFormat
  import opened WalModel
  import opened TableFormat
  import opened LsmVersion
  import opened ManifestFormat
  import opened Meaning
  import opened EngineModel
  import opened EngineState
  import LogSafety

  // --------------------------------------------------------- writing a table

  lemma {:induction false} BlockChunksJoin(crc: Checksum, blocks: seq<seq<Record>>)
    ensures Joined(BlockChunks(crc, blocks)) == Data(crc, blocks)
  {
    hide Body;
    if blocks != [] { BlockChunksJoin(crc, blocks[1..]); }
  }

  lemma {:induction false} JoinedConcat(a: seq<Bytes>, b: seq<Bytes>)
    ensures Joined(a + b) == Joined(a) + Joined(b)
  {
    if a == [] {
      assert a + b == b;
    } else {
      assert (a + b)[1..] == a[1..] + b;
      JoinedConcat(a[1..], b);
    }
  }

  /** The builder's appends add up to the table file. */
  lemma ChunksAreFile(c: Codec, expected: nat, es: seq<Record>)
    ensures Joined(TableChunks(c, expected, es)) == File(c, expected, es)
  {
    hide IndexPart, BloomPart, FooterPart, BlockChunks, Data, BlocksOf;
    var i, b, f := IndexPart(c, es), BloomPart(c, expected, es), FooterPart(c, expected, es);
    BlockChunksJoin(c.crc, BlocksOf(es));
    JoinedConcat(BlockChunks(c.crc, BlocksOf(es)), [i, b, f]);
    assert [i, b, f][1..] == [b, f] && [b, f][1..] == [f];
    assert Joined([f]) == f + [];
    assert Joined([i, b, f]) == i + (b + f);
  }

  /** After `write_table` the file is complete and synced, but no crash shows it yet. */
  lemma TableStaged(cfg: Config, e: Engine, img: Image, id: nat, expected: nat, es: seq<Record>, ok: Goal)
    requires e.fs == SettledFs(img) && ok.accepts(img) && Table(id) !in img
    requires TableWritten(cfg, e, id, expected, es).outcome != OutOfRange
    ensures var w := TableWritten(cfg, e, id, expected, es);
      && w.outcome == Done && Safe(e.fs, w, ok)
      && w.engine == e.(fs := Staged(img, map[Table(id) := if es == [] then [] else File(cfg.codec, expected, es)]))
      && (es != [] ==> TableFits(cfg.codec, expected, es))
  {
    hide SettledFs, FsRun, SafeRun, Staged, File, TableFits, TableChunks, WriteFileOps;
    LogSafety.SettledLive(img, Table(id));
    if es == [] {
      CreateRun(img, Table(id), ok);
    } else {
      WriteFileRun(img, Table(id), TableChunks(cfg.codec, expected, es), ok);
      ChunksAreFile(cfg.codec, expected, es);
    }
  }

  /** The one refusal: a file that already bears the new table's name. Nothing changes. */
  lemma TableRefused(cfg: Config, e: Engine, img: Image, id: nat, expected: nat, es: seq<Record>, ok: Goal)
    requires e.fs == SettledFs(img) && ok.accepts(img) && Table(id) in img
    ensures var w := TableWritten(cfg, e, id, expected, es);
      w.outcome == Collision && Safe(e.fs, w, ok) && w.engine == e
  {
    LogSafety.SettledLive(img, Table(id));
    RefusedRun(img, Create(Table(id)), ok);
  }

  // ------------------------------------------------------- the manifest switch

  /** The image once the manifest names version `v` and the staged table is durable. */
  function Switched(cfg: Config, img: Image, extra: Image, v: Version): Image {
    (img + extra)[ManifestFile := EncodeVersion(cfg.codec.crc, v)]
  }

  /** The files collection removes. */
  ghost function Garbage(img: Image, liveIds: set<nat>): seq<nat> { Ascending(TableIds(img.Keys) - liveIds) }

  lemma GarbageIs(img: Image, liveIds: set<nat>, n: Name)
    ensures n in TableNames(Garbage(img, liveIds)) <==> n in img && n.Table? && n.id !in liveIds
  {
    var ids := TableIds(img.Keys) - liveIds;
    var g := Garbage(img, liveIds);
    AscendingLists(ids);
    var names := TableNames(g);
    if n in names {
      var i :| 0 <= i < |names| && names[i] == n;
      assert g[i] in g;
    }
    if n in img && n.Table? && n.id !in liveIds {
      assert n.id in ids;
      var i :| 0 <= i < |g| && g[i] == n.id;
      assert names[i] == n;
    }
  }

  ghost function Collected(img: Image, liveIds: set<nat>): Image { Remove(img, TableNames(Garbage(img, liveIds))) }

  lemma CollectedIs(img: Image, liveIds: set<nat>)
    ensures Collected(img, liveIds).Keys <= img.Keys
    ensures forall n :: n in img && (n.Table? ==> n.id in liveIds) ==> n in Collected(img, liveIds)
    ensures forall n :: n in Collected(img, liveIds) ==> img[n] == Collected(img, liveIds)[n] && (n.Table? ==> n.id in liveIds)
  {
    forall n
      ensures n in TableNames(Garbage(img, liveIds)) <==> n in img && n.Table? && n.id !in liveIds
    {
      GarbageIs(img, liveIds, n);
    }
  }

  lemma GcRun(img: Image, liveIds: set<nat>, ok: Goal)
    requires ok.accepts(img) && ok.accepts(Collected(img, liveIds))
    ensures SafeRun(SettledFs(img), GcOps(SettledFs(img), liveIds), ok)
    ensures FsRun(SettledFs(img), GcOps(SettledFs(img), liveIds)) == SettledFs(Collected(img, liveIds))
  {
    hide SettledFs, FsRun, SafeRun, DeleteAll, Ascending;
    LogSafety.SettledLive(img, ManifestFile);
    if Garbage(img, liveIds) == [] {
      assert Remove(img, []) == img;
      SettledCrashSafe(img, ok);
      NothingRuns(SettledFs(img), ok);
    } else {
      DeleteRun(img, TableNames(Garbage(img, liveIds)), ok);
    }
  }

  /** Collection keeps every table the version names. */
  lemma CollectKeeps(cfg: Config, img: Image, d: OnDisk, liveIds: set<nat>)
    requires Stored(cfg, img, d) && ReferencedIds(d.version) <= liveIds
    ensures Stored(cfg, Collected(img, liveIds), d)
  {
    hide File, GoodTable, Below, FreshIds, VersionFits, EncodeVersion, NewestFirst, Collected, LogIn, Flatten;
    var img' := Collected(img, liveIds);
    CollectedIs(img, liveIds);
    var ts := TableOrder(d);
    forall i | 0 <= i < |ts|
      ensures TableHeld(cfg.codec, img', d.tabs, ts[i])
    {
      NewestMembers(d.version.tiers, ts[i]);
      assert ts[i] in AllTables(d.version);
      assert TableHeld(cfg.codec, img, d.tabs, ts[i]);
    }
    LogElsewhere(cfg.codec.crc, img, img', d.log);
  }

  /** `install`: at every crash point the disk is the old image, or the new one with or without its garbage. */
  lemma InstallSafe(cfg: Config, e: Engine, img: Image, extra: Image, d: OnDisk, kv: KV, ok: Goal)
    requires e.fs == Staged(img, extra) && NoScratch(img) && img.Keys !! extra.Keys
    requires forall n :: n in extra ==> n.Table?
    requires ok.accepts(img) && Accepts(cfg, ok, kv)
    requires DiskMeans(cfg, Switched(cfg, img, extra, d.version), d, kv)
    ensures var i := Installed(cfg, e, d.version);
            var img' := Collected(Switched(cfg, img, extra, d.version), ReferencedIds(d.version) + ReferencedIds(e.version));
      && i.outcome == Done && Safe(e.fs, i, ok)
      && i.engine == e.(fs := SettledFs(img'), version := d.version)
      && DiskMeans(cfg, img', d, kv)
  {
    hide SettledFs, FsRun, SafeRun, Staged, Sound, AllHeld, FreshIds, LogIn, Below, VersionFits, EncodeVersion, Collected,
      ReferencedIds, Accepts, NewestFirst, ReplaceOps, GcOps;
    var v := d.version;
    var img1 := Switched(cfg, img, extra, v);
    var live := ReferencedIds(v) + ReferencedIds(e.version);
    assert ManifestTmp !in extra && ManifestFile !in extra;
    CollectKeeps(cfg, img1, d, live);
    Accepted(cfg, ok, kv, img1, d);
    Accepted(cfg, ok, kv, Collected(img1, live), d);
    ReplaceRun(img, extra, ManifestTmp, ManifestFile, EncodeVersion(cfg.codec.crc, v), ok);
    GcRun(img1, live, ok);
    var e1 := Issue(e, InstallOps(cfg, v)).(version := v);
    var gc := GcOps(e1.fs, live);
    SequelSafe(e.fs, Effect(e1, InstallOps(cfg, v), Done), Effect(Issue(e1, gc), gc, Done), ok);
  }

  // ------------------------------------------------------------ a new table

  ghost predicate SameSegments(img: Image, img': Image) {
    && (forall n :: n in img && n.Segment? ==> n in img' && img'[n] == img[n])
    && (forall n :: n in img' && n.Segment? ==> n in img)
  }

  lemma SwitchedSegments(cfg: Config, img: Image, extra: Image, v: Version, liveIds: set<nat>)
    requires forall n :: n in extra ==> n.Table?
    ensures SameSegments(img, Switched(cfg, img, extra, v))
    ensures SameSegments(img, Collected(Switched(cfg, img, extra, v), liveIds))
  {
    CollectedIs(Switched(cfg, img, extra, v), liveIds);
  }

  lemma LogInElsewhere(cfg: Config, img: Image, img': Image, log: Log)
    requires LogIn(cfg.codec.crc, img, log) && SameSegments(img, img')
    ensures LogIn(cfg.codec.crc, img', log)
  {
    hide FullSegments, SegmentScans, RecordsFit, LogClean;
    LogElsewhere(cfg.codec.crc, img, img', log);
  }

  lemma LogOpenElsewhere(cfg: Config, e: Engine, img: Image, e': Engine, img': Image, log: Log)
    requires LogOpen(cfg, e, img, log) && SameSegments(img, img')
    requires e'.segment == e.segment && e'.segmentLen == e.segmentLen
    ensures LogOpen(cfg, e', img', log)
  {
    hide FullSegments, SegmentScans, RecordsFit, SegmentIs;
    LogElsewhere(cfg.codec.crc, img, img', log);
  }

  /** A disk on which one more table has been switched in, at its place in the lookup order. */
  lemma NewTableStored(cfg: Config, img: Image, d: OnDisk, v: Version, data: TableData,
                       above: seq<TableMeta>, below: seq<TableMeta>)
    requires Stored(cfg, img, d) && GoodTable(cfg.codec, data) && VersionFits(v)
    requires AllHeld(cfg.codec, img, d.tabs, above + below) && FreshIds(above + below, d.version.nextTableId)
    requires NewestFirst(v.tiers) == above + [MetaOf(d.version.nextTableId, data.entries)] + below
    requires v.nextTableId == d.version.nextTableId + 1
    requires Below(SourcesOf(d.tabs, above + below), v.nextSeq) && AllBelow(MapOf(data.entries), v.nextSeq)
    ensures var id := d.version.nextTableId;
            var extra: Image := map[Table(id) := File(cfg.codec, data.expected, data.entries)];
            var d' := OnDisk(v, d.tabs[id := data], d.log);
      && Stored(cfg, Switched(cfg, img, extra, v), d')
      && TablesOf(d') == SourcesOf(d.tabs, above) + [MapOf(data.entries)] + SourcesOf(d.tabs, below)
  {
    hide File, TableFits, Sorted, MapOf, LogIn, VersionFits, EncodeVersion, NewestFirst;
    var c, id := cfg.codec, d.version.nextTableId;
    var meta := MetaOf(id, data.entries);
    var extra: Image := map[Table(id) := File(c, data.expected, data.entries)];
    var img' := Switched(cfg, img, extra, v);
    var tabs := d.tabs[id := data];
    var others := above + below;
    FreshIdsInsert(above, meta, below, id);
    OthersHeld(c, img, d.tabs, others, id, data, img');
    SourcesConcat(d.tabs, above, below);
    SourcesConcat(tabs, above, below);
    SourcesConcat(tabs, above + [meta], below);
    SourcesConcat(tabs, above, [meta]);
    assert SourcesOf(tabs, [meta]) == [MapOf(data.entries)];
    assert SourcesOf(tabs, above) == SourcesOf(d.tabs, above) && SourcesOf(tabs, below) == SourcesOf(d.tabs, below) by {
      assert SourcesOf(tabs, above) == SourcesOf(tabs, others)[..|above|];
      assert SourcesOf(tabs, below) == SourcesOf(tabs, others)[|above|..];
    }
    InsertHeld(c, img', tabs, above, meta, below);
    SwitchedSegments(cfg, img, extra, v, {});
    LogInElsewhere(cfg, img, img', d.log);
    InsertBelow(SourcesOf(d.tabs, above), MapOf(data.entries), SourcesOf(d.tabs, below), v.nextSeq);
  }

  lemma InsertHeld(c: Codec, img: Image, tabs: Tabs, above: seq<TableMeta>, t: TableMeta, below: seq<TableMeta>)
    requires AllHeld(c, img, tabs, above + below) && TableHeld(c, img, tabs, t)
    ensures AllHeld(c, img, tabs, above + [t] + below)
  {
    hide TableHeld;
    var s, r := above + below, above + [t] + below;
    forall i | 0 <= i < |r|
      ensures TableHeld(c, img, tabs, r[i])
    {
      if i < |above| { assert r[i] == s[i]; } else if i > |above| { assert r[i] == s[i - 1]; }
    }
  }

  lemma InsertBelow(a: seq<Source>, m: Source, b: seq<Source>, n: nat)
    requires Below(a + b, n) && AllBelow(m, n)
    ensures Below(a + [m] + b, n)
  {
    hide AllBelow;
    var s, r := a + b, a + [m] + b;
    forall i | 0 <= i < |r|
      ensures AllBelow(r[i], n)
    {
      if i < |a| { assert r[i] == s[i]; } else if i > |a| { assert r[i] == s[i - 1]; }
    }
  }

  // ------------------------------------------------------------------ flush

  function TableImage(cfg: Config, id: nat, data: TableData): Image {
    map[Table(id) := File(cfg.codec, data.expected, data.entries)]
  }

  /** The disk with one more tier-0 table. */
  function FlushedDisk(d: OnDisk, data: TableData, nextSeq: nat): OnDisk
    requires data.entries != []
  {
    var id := d.version.nextTableId;
    OnDisk(Flushed(d.version, MetaOf(id, data.entries), nextSeq), d.tabs[id := data], d.log)
  }

  lemma StoredParts(cfg: Config, img: Image, d: OnDisk)
    requires Stored(cfg, img, d)
    ensures NoScratch(img) && FreshIds(TableOrder(d), d.version.nextTableId)
    ensures AllHeld(cfg.codec, img, d.tabs, TableOrder(d)) && Below(TablesOf(d), d.version.nextSeq)
    ensures ManifestFile in img && LogIn(cfg.codec.crc, img, d.log)
  {
  }

  lemma FlushedFields(v: Version, t: TableMeta, nextSeq: nat)
    requires t.id == v.nextTableId && v.nextSeq <= nextSeq
    ensures Flushed(v, t, nextSeq).nextSeq == nextSeq && Flushed(v, t, nextSeq).nextTableId == t.id + 1
  {
  }

  lemma AtFront<T>(t: T, ts: seq<T>)
    ensures [] + ts == ts && [] + [t] + ts == [t] + ts
  {
  }

  lemma NoSources(tabs: Tabs)
    ensures SourcesOf(tabs, []) == []
  {
  }

  lemma FlushedStored(cfg: Config, img: Image, d: OnDisk, data: TableData, nextSeq: nat)
    requires Stored(cfg, img, d) && GoodTable(cfg.codec, data) && VersionFits(FlushedDisk(d, data, nextSeq).version)
    requires Below(TablesOf(d), nextSeq) && AllBelow(MapOf(data.entries), nextSeq) && d.version.nextSeq <= nextSeq
    ensures var d' := FlushedDisk(d, data, nextSeq);
      && Stored(cfg, Switched(cfg, img, TableImage(cfg, d.version.nextTableId, data), d'.version), d')
      && TablesOf(d') == [MapOf(data.entries)] + TablesOf(d) && d'.version.nextSeq == nextSeq
  {
    hide File, TableFits, Sorted, VersionFits, AllBelow, FreshIds, MapOf, AllHeld, Stored, Switched, Below, Flushed, NewestFirst,
      SourcesOf;
    StoredParts(cfg, img, d);
    FlushedFields(d.version, MetaOf(d.version.nextTableId, data.entries), nextSeq);
    var meta := MetaOf(d.version.nextTableId, data.entries);
    var v := Flushed(d.version, meta, nextSeq);
    var ts := TableOrder(d);
    FlushedOrder(d.version, meta, nextSeq);
    AtFront(meta, ts);
    AtFront(MapOf(data.entries), TablesOf(d));
    NoSources(d.tabs);
    NewTableStored(cfg, img, d, v, data, [], ts);
  }

  lemma FlushedMeans(e: Engine, d: OnDisk, d': OnDisk, kv: KV)
    requires Sound(StackOf(e, d), kv) && SeqsNew(e, d) && FrozenFull(e) && e.frozen != []
    requires TablesOf(d') == [e.frozen[0]] + TablesOf(d) && d'.log == d.log && d'.version.nextSeq <= e.nextSeq
    ensures var e' := e.(version := d'.version, frozen := e.frozen[1..]);
      Sound(StackOf(e', d'), kv) && SeqsNew(e', d') && FrozenFull(e')
  {
    hide Sound, AllBelow, TablesOf, Replay, LogRecords, MemorySources;
    OldestSplit(e);
    OldestFlushed(StackOf(e, d), kv);
    var e' := e.(version := d'.version, frozen := e.frozen[1..]);
    assert MemorySources(e') == MemorySources(e.(frozen := e.frozen[1..])) by { SameMemory(e', e.(frozen := e.frozen[1..])); }
    assert MemorySources(e') + TablesOf(d') == MemorySources(e) + TablesOf(d);
  }

  lemma SameMemory(e: Engine, e': Engine)
    requires e.active == e'.active && e.frozen == e'.frozen
    ensures MemorySources(e) == MemorySources(e')
  {
  }

  lemma OldestSplit(e: Engine)
    requires e.frozen != []
    ensures var n := |MemorySources(e)| - 1;
      && MemorySources(e)[n] == e.frozen[0] && MemorySources(e)[..n] == MemorySources(e.(frozen := e.frozen[1..]))
      && MemorySources(e) == MemorySources(e.(frozen := e.frozen[1..])) + [e.frozen[0]]
  {
  }

  lemma OldestBelow(e: Engine, d: OnDisk)
    requires SeqsNew(e, d) && e.frozen != []
    ensures AllBelow(e.frozen[0], e.nextSeq) && Below(TablesOf(d), e.nextSeq)
  {
    hide AllBelow;
    OldestSplit(e);
    var m, t := MemorySources(e), TablesOf(d);
    assert (m + t)[|m| - 1] == e.frozen[0];
    assert forall i :: 0 <= i < |t| ==> t[i] == (m + t)[|m| + i];
  }

  /** One round of the flush loop that is not refused. */
  lemma FlushOldestDone(cfg: Config, e: Engine, img: Image, d: OnDisk, kv: KV, ok: Goal) returns (img': Image, d': OnDisk)
    requires Running(cfg, e, img, d, kv) && Accepts(cfg, ok, kv) && e.frozen != []
    requires FlushOldest(cfg, e).outcome != OutOfRange && Table(e.version.nextTableId) !in img
    ensures var f := FlushOldest(cfg, e); f.outcome == Done && Safe(e.fs, f, ok)
    ensures Running(cfg, FlushOldest(cfg, e).engine, img', d', kv)
    ensures FlushOldest(cfg, e).engine.frozen == e.frozen[1..] && FlushOldest(cfg, e).engine.active == e.active
    ensures NoStray(img, e.version) ==> NoStray(img', d'.version)
  {
    hide SettledFs, Staged, SafeRun, FsRun, File, TableFits, LogIn, VersionFits, EncodeVersion, Sound, AllBelow, Below, AllHeld, Replay,
      LogRecords, Accepts, TableWritten, Installed, FreshIds, NewestFirst, Flushed, MapOf, Sorted, Collected, LogClean, MemorySources,
      Switched, SourcesOf, ReferencedIds;
    var es := Snapshot(e.frozen[0]);
    var id := e.version.nextTableId;
    var data := TableData(AtLeastOne(|es|), es);
    SnapshotSorted(e.frozen[0]);
    assert e.frozen[0] != map[];
    RunningCrashSafe(cfg, e, img, d, kv, ok);
    TableStaged(cfg, e, img, id, data.expected, es, ok);
    var w := TableWritten(cfg, e, id, data.expected, es);
    var extra := TableImage(cfg, id, data);
    var d1 := FlushedDisk(d, data, e.nextSeq);
    assert Installed(cfg, w.engine, d1.version).outcome != OutOfRange;
    InstalledFits(cfg, w.engine, d1.version);
    OldestBelow(e, d);
    FlushedStored(cfg, img, d, data, e.nextSeq);
    FlushedMeans(e, d, d1, kv);
    var e1 := e.(version := d1.version, frozen := e.frozen[1..]);
    MemoryLost(StackOf(e1, d1), kv);
    InstallSafe(cfg, w.engine, img, extra, d1, kv, ok);
    var i := Installed(cfg, w.engine, d1.version);
    SequelSafe(e.fs, w, i, ok);
    img' := Collected(Switched(cfg, img, extra, d1.version), ReferencedIds(d1.version) + ReferencedIds(e.version));
    d' := d1;
    var e2 := e1.(fs := SettledFs(img'));
    SwitchedSegments(cfg, img, extra, d1.version, ReferencedIds(d1.version) + ReferencedIds(e.version));
    LogOpenElsewhere(cfg, e, img, e2, img', d.log);
    LogSafety.SameStack(e1, e2, d1, kv);
    FlushStray(cfg, img, d, data, e.nextSeq, ReferencedIds(d1.version) + ReferencedIds(e.version));
    assert FlushOldest(cfg, e).engine == e2;
  }

  lemma InstalledFits(cfg: Config, e: Engine, v: Version)
    requires Installed(cfg, e, v).outcome != OutOfRange
    ensures VersionFits(v)
  {
    hide VersionFits;
  }

  lemma FlushStray(cfg: Config, img: Image, d: OnDisk, data: TableData, nextSeq: nat, liveIds: set<nat>)
    requires data.entries != []
    ensures var id, d' := d.version.nextTableId, FlushedDisk(d, data, nextSeq);
            NoStray(img, d.version) ==> NoStray(Collected(Switched(cfg, img, TableImage(cfg, id, data), d'.version), liveIds), d'.version)
  {
    hide File, EncodeVersion, Collected;
    CollectedIs(Switched(cfg, img, TableImage(cfg, d.version.nextTableId, data), FlushedDisk(d, data, nextSeq).version), liveIds);
  }

  /** A round that meets a file with the new table's name is refused and changes nothing. */
  lemma FlushOldestRefused(cfg: Config, e: Engine, img: Image, d: OnDisk, kv: KV, ok: Goal)
    requires Running(cfg, e, img, d, kv) && Accepts(cfg, ok, kv) && e.frozen != []
    requires Table(e.version.nextTableId) in img
    ensures var f := FlushOldest(cfg, e); f.outcome == Collision && Safe(e.fs, f, ok) && f.engine == e
  {
    hide SafeRun, FsRun, TableWritten, Installed, DiskMeans, Stored, Sound, LogOpen, SeqsNew, Accepts, Snapshot;
    RunningCrashSafe(cfg, e, img, d, kv, ok);
    var es := Snapshot(e.frozen[0]);
    TableRefused(cfg, e, img, e.version.nextTableId, AtLeastOne(|es|), es, ok);
  }

  /** The flush loop: it stops at a refusal, and otherwise leaves nothing frozen. */
  lemma {:induction false} FlushFrozenSafe(cfg: Config, e: Engine, img: Image, d: OnDisk, kv: KV, ok: Goal)
    returns (img': Image, d': OnDisk)
    requires Running(cfg, e, img, d, kv) && Accepts(cfg, ok, kv)
    requires FlushFrozen(cfg, e).outcome != OutOfRange
    ensures var f := FlushFrozen(cfg, e); f.outcome in {Done, Collision} && Safe(e.fs, f, ok)
    ensures Running(cfg, FlushFrozen(cfg, e).engine, img', d', kv)
    ensures FlushFrozen(cfg, e).outcome == Done ==> FlushFrozen(cfg, e).engine.frozen == []
    ensures FlushFrozen(cfg, e).engine.active == e.active
    ensures NoStray(img, e.version) ==> FlushFrozen(cfg, e).outcome == Done && NoStray(img', d'.version)
    decreases |e.frozen|
  {
    hide Running, SafeRun, FsRun, FlushOldest, Accepts;
    RunningVersion(cfg, e, img, d, kv);
    if e.frozen == [] {
      img', d' := img, d;
      RunningCrashSafe(cfg, e, img, d, kv, ok);
      NothingRuns(e.fs, ok);
    } else if Table(e.version.nextTableId) in img {
      FlushOldestRefused(cfg, e, img, d, kv, ok);
      img', d' := img, d;
    } else {
      var f := FlushOldest(cfg, e);
      var img1, d1 := FlushOldestDone(cfg, e, img, d, kv, ok);
      RunningVersion(cfg, f.engine, img1, d1, kv);
      img', d' := FlushFrozenSafe(cfg, f.engine, img1, d1, kv, ok);
      SequelSafe(e.fs, f, FlushFrozen(cfg, f.engine), ok);
    }
  }

  lemma RunningVersion(cfg: Config, e: Engine, img: Image, d: OnDisk, kv: KV)
    requires Running(cfg, e, img, d, kv)
    ensures d.version == e.version && e.fs == SettledFs(img)
  {
  }
}
