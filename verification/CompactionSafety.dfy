// Compaction of one tier and the cascade: the merged table takes the tier's place
// without changing what any key reads, at every crash point.

module CompactionSafety {
  import opened Wrappers
  import opened ByteStrings
  import opened Seqs
  import opened Versions
  import opened Sources
  import opened SortedRuns
  import opened Merge
  import opened Sim
  import opened FsView
  import opened Protocols
  import opened WalModel
  import opened TableFormat
  import opened LsmVersion
  import opened ManifestFormat
  import opened Meaning
  import opened EngineModel
  import opened EngineState
  import opened TableSafety

  // ------------------------------------------------------- reading the inputs

  function RunsOf(tabs: Tabs, ts: seq<TableMeta>): (r: Runs)
    ensures |r| == |ts|
    ensures forall i :: 0 <= i < |ts| ==> r[i] == (if ts[i].id in tabs then tabs[ts[i].id].entries else [])
  {
    if ts == [] then []
    else [if ts[0].id in tabs then tabs[ts[0].id].entries else []] + RunsOf(tabs, ts[1..])
  }

  lemma ReadTableHeld(c: Codec, img: Image, tabs: Tabs, t: TableMeta)
    requires TableHeld(c, img, tabs, t)
    ensures ReadTable(c, SettledFs(img), t.id) == Some((tabs[t.id].entries, |tabs[t.id].entries|))
  {
    hide Open, File, TableFits, LoadAll, Sorted;
    var data := tabs[t.id];
    assert SettledFs(img).live[Table(t.id)].Bytes() == img[Table(t.id)];
    OpenBuilt(c, data.expected, data.entries);
    TableRoundTrip(c, data.expected, data.entries);
  }

  /** The tables a version names read back as what they were built from. */
  lemma {:induction false} ReadTablesHeld(c: Codec, img: Image, tabs: Tabs, ts: seq<TableMeta>)
    requires AllHeld(c, img, tabs, ts)
    ensures ReadTables(c, SettledFs(img), ts).Some?
    ensures ReadTables(c, SettledFs(img), ts).value.runs == RunsOf(tabs, ts)
  {
    hide ReadTable, SettledFs, File, GoodTable;
    if ts != [] {
      assert TableHeld(c, img, tabs, ts[0]);
      ReadTableHeld(c, img, tabs, ts[0]);
      assert forall i :: 0 <= i < |ts[1..]| ==> ts[1..][i] == ts[i + 1];
      ReadTablesHeld(c, img, tabs, ts[1..]);
    }
  }

  lemma RunsSorted(c: Codec, img: Image, tabs: Tabs, ts: seq<TableMeta>)
    requires AllHeld(c, img, tabs, ts)
    ensures AllSorted(RunsOf(tabs, ts)) && Contents(RunsOf(tabs, ts)) == SourcesOf(tabs, ts)
  {
    hide File, TableFits, Sorted, MapOf;
    forall i | 0 <= i < |ts|
      ensures Sorted(RunsOf(tabs, ts)[i]) && Contents(RunsOf(tabs, ts))[i] == SourcesOf(tabs, ts)[i]
    {
      assert TableHeld(c, img, tabs, ts[i]);
    }
  }

  // ------------------------------------------------------------ the merged run

  lemma {:induction false} WithoutDeletesKeeps(run: seq<Record>)
    requires Sorted(run)
    ensures Sorted(WithoutDeletes(run))
    ensures forall k :: k in MapOf(WithoutDeletes(run)) <==> k in MapOf(run) && MapOf(run)[k].kind != Tombstone
    ensures forall k :: k in MapOf(WithoutDeletes(run)) ==> MapOf(WithoutDeletes(run))[k] == MapOf(run)[k]
  {
    hide Sorted;
    if run != [] {
      var w := WithoutDeletes(run[1..]);
      SortedTail(run);
      WithoutDeletesKeeps(run[1..]);
      HeadOfSorted(run, run[0].key);
      forall k | k in MapOf(w)
        ensures Less(run[0].key, k)
      {
        HeadOfSorted(run, k);
      }
      SortedCons(run[0], w);
      assert ([run[0]] + w)[1..] == w;
    }
  }

  /** What reaches the builder is a merge of the tier, in the sense that keeps every key's visible value. */
  lemma OutputIsMerge(v: Version, t: nat, runs: Runs, block: seq<Source>)
    requires AllSorted(runs) && Recent(block)
    requires forall s :: s in block <==> s in Contents(runs)
    ensures Sorted(Output(v, t, runs))
    ensures MergeOf(block, MapOf(Output(v, t, runs)), OutputIsBottom(v, t))
  {
    hide Sorted, Merged, AllSorted, OutputIsBottom;
    var all := Merged(runs);
    var es := Output(v, t, runs);
    MergedCorrect(runs);
    WithoutDeletesKeeps(all);
    forall k
      ensures if k in MapOf(es) then Newest(block, k) == Some(MapOf(es)[k])
              else Newest(block, k).None? || (OutputIsBottom(v, t) && Newest(block, k).value.kind == Tombstone)
    {
      NewestAnyOrder(block, Contents(runs), k);
      PositionIsNewest(block, k);
    }
  }

  lemma MapOfNothing(run: seq<Record>)
    ensures MapOf(run) == map[] <==> run == []
  {
    if run != [] { assert run[0].key in MapOf(run); }
  }

  // -------------------------------------------------------- parts of the order

  lemma HeldParts(c: Codec, img: Image, tabs: Tabs, a: seq<TableMeta>, b: seq<TableMeta>, z: seq<TableMeta>)
    requires AllHeld(c, img, tabs, a + b + z)
    ensures AllHeld(c, img, tabs, b) && AllHeld(c, img, tabs, a + z)
  {
    hide TableHeld;
    var s := a + b + z;
    assert forall i :: 0 <= i < |b| ==> b[i] == s[|a| + i];
    forall i | 0 <= i < |a + z|
      ensures TableHeld(c, img, tabs, (a + z)[i])
    {
      assert (a + z)[i] == if i < |a| then s[i] else s[|b| + i];
    }
  }

  lemma BelowParts(a: seq<Source>, b: seq<Source>, z: seq<Source>, n: nat)
    requires Below(a + b + z, n)
    ensures Below(b, n) && Below(a + z, n)
  {
    hide AllBelow;
    var s := a + b + z;
    assert forall i :: 0 <= i < |b| ==> b[i] == s[|a| + i];
    forall i | 0 <= i < |a + z|
      ensures AllBelow((a + z)[i], n)
    {
      assert (a + z)[i] == if i < |a| then s[i] else s[|b| + i];
    }
  }

  lemma {:induction false} HeldReversed(c: Codec, img: Image, tabs: Tabs, ts: seq<TableMeta>)
    requires AllHeld(c, img, tabs, Reversed(ts))
    ensures AllHeld(c, img, tabs, ts)
  {
    hide TableHeld;
    forall i | 0 <= i < |ts|
      ensures TableHeld(c, img, tabs, ts[i])
    {
      ReversedAt(ts, |ts| - 1 - i);
      assert TableHeld(c, img, tabs, Reversed(ts)[|ts| - 1 - i]);
    }
  }

  lemma SourcesReversed(tabs: Tabs, ts: seq<TableMeta>)
    ensures forall s :: s in SourcesOf(tabs, Reversed(ts)) <==> s in SourcesOf(tabs, ts)
  {
    hide SourceOf;
    var a, b := SourcesOf(tabs, Reversed(ts)), SourcesOf(tabs, ts);
    forall s
      ensures s in a <==> s in b
    {
      if s in a {
        var i :| 0 <= i < |a| && a[i] == s;
        ReversedAt(ts, i);
        assert b[|ts| - 1 - i] == s;
      }
      if s in b {
        var i :| 0 <= i < |b| && b[i] == s;
        ReversedAt(ts, |ts| - 1 - i);
        assert a[|ts| - 1 - i] == s;
      }
    }
  }

  /** A version's lookup order around tier `t`. */
  function Above(v: Version, t: nat): seq<TableMeta>
    requires t < |v.tiers|
  {
    NewestFirst(v.tiers[..t])
  }

  function Under(v: Version, t: nat): seq<TableMeta>
    requires t < |v.tiers|
  {
    NewestFirst(v.tiers[t + 1..])
  }

  /** What compacting tier `t` makes of the disk. */
  function CompactedDisk(d: OnDisk, t: nat, data: TableData): OnDisk
    requires t < |d.version.tiers|
  {
    var v := CompactedVersion(d.version, t, data.entries);
    OnDisk(v, if data.entries == [] then d.tabs else d.tabs[d.version.nextTableId := data], d.log)
  }

  function OutputImage(cfg: Config, id: nat, data: TableData): Image {
    map[Table(id) := if data.entries == [] then [] else File(cfg.codec, data.expected, data.entries)]
  }

  function Optional(data: TableData): seq<Source> {
    if data.entries == [] then [] else [MapOf(data.entries)]
  }

  lemma CompactedStored(cfg: Config, img: Image, d: OnDisk, t: nat, data: TableData)
    requires Stored(cfg, img, d) && t < |d.version.tiers| && data.entries != []
    requires GoodTable(cfg.codec, data) && VersionFits(CompactedDisk(d, t, data).version)
    requires AllBelow(MapOf(data.entries), d.version.nextSeq)
    ensures var d' := CompactedDisk(d, t, data);
      && Stored(cfg, Switched(cfg, img, OutputImage(cfg, d.version.nextTableId, data), d'.version), d')
      && TablesOf(d') == SourcesOf(d.tabs, Above(d.version, t)) + [MapOf(data.entries)] + SourcesOf(d.tabs, Under(d.version, t))
  {
    hide File, TableFits, Sorted, VersionFits, AllBelow, FreshIds, MapOf, AllHeld, Stored, Switched, Below, NewestFirst,
      SourcesOf, Compacted, Reversed;
    var meta := MetaOf(d.version.nextTableId, data.entries);
    var a, b, z := Above(d.version, t), Reversed(d.version.tiers[t]), Under(d.version, t);
    StoredParts(cfg, img, d);
    CompactedOrder(d.version, t, meta);
    HeldParts(cfg.codec, img, d.tabs, a, b, z);
    FreshIdsCut(a, b, z, d.version.nextTableId);
    OrderBelow(d, t);
    CompactedFields(d.version, t, meta);
    NewTableStored(cfg, img, d, CompactedDisk(d, t, data).version, data, a, z);
  }

  lemma CompactedFields(v: Version, t: nat, output: TableMeta)
    requires output.id == v.nextTableId
    ensures Compacted(v, t, output).nextSeq == v.nextSeq && Compacted(v, t, output).nextTableId == v.nextTableId + 1
  {
  }

  lemma OrderBelow(d: OnDisk, t: nat)
    requires t < |d.version.tiers| && Below(TablesOf(d), d.version.nextSeq)
    ensures TableOrder(d) == Above(d.version, t) + Reversed(d.version.tiers[t]) + Under(d.version, t)
    ensures Below(SourcesOf(d.tabs, Above(d.version, t) + Under(d.version, t)), d.version.nextSeq)
    ensures Below(SourcesOf(d.tabs, Reversed(d.version.tiers[t])), d.version.nextSeq)
    ensures TablesOf(d) == SourcesOf(d.tabs, Above(d.version, t)) + SourcesOf(d.tabs, Reversed(d.version.tiers[t]))
                           + SourcesOf(d.tabs, Under(d.version, t))
  {
    hide SourcesOf, NewestFirst, Below, Reversed;
    var a, b, z := Above(d.version, t), Reversed(d.version.tiers[t]), Under(d.version, t);
    NewestSplit(d.version.tiers, t);
    SourcesConcat(d.tabs, a + b, z);
    SourcesConcat(d.tabs, a, b);
    SourcesConcat(d.tabs, a, z);
    BelowParts(SourcesOf(d.tabs, a), SourcesOf(d.tabs, b), SourcesOf(d.tabs, z), d.version.nextSeq);
  }

  /** With nothing to write, the tier is cleared; the empty output file is garbage. */
  lemma ClearedStored(cfg: Config, img: Image, d: OnDisk, t: nat, data: TableData)
    requires Stored(cfg, img, d) && t < |d.version.tiers| && data.entries == []
    requires VersionFits(CompactedDisk(d, t, data).version)
    ensures var d' := CompactedDisk(d, t, data);
      && Stored(cfg, Switched(cfg, img, OutputImage(cfg, d.version.nextTableId, data), d'.version), d')
      && TablesOf(d') == SourcesOf(d.tabs, Above(d.version, t)) + SourcesOf(d.tabs, Under(d.version, t))
  {
    hide File, GoodTable, VersionFits, EncodeVersion, FreshIds, Below, NewestFirst, SourcesOf, Cleared, Reversed, LogIn;
    var d' := CompactedDisk(d, t, data);
    var extra := OutputImage(cfg, d.version.nextTableId, data);
    var img' := Switched(cfg, img, extra, d'.version);
    var a, b, z := Above(d.version, t), Reversed(d.version.tiers[t]), Under(d.version, t);
    ClearedOrder(d.version, t);
    ClearedFields(d.version, t);
    OrderBelow(d, t);
    HeldParts(cfg.codec, img, d.tabs, a, b, z);
    FreshIdsCut(a, b, z, d.version.nextTableId);
    SourcesConcat(d.tabs, a, z);
    UnderNext(a + z, d.version.nextTableId);
    forall i | 0 <= i < |a + z|
      ensures TableHeld(cfg.codec, img', d.tabs, (a + z)[i])
    {
      assert TableHeld(cfg.codec, img, d.tabs, (a + z)[i]);
    }
    SwitchedSegments(cfg, img, extra, d'.version, {});
    LogInElsewhere(cfg, img, img', d.log);
  }

  lemma ClearedFields(v: Version, t: nat)
    requires t < |v.tiers|
    ensures Cleared(v, t).nextSeq == v.nextSeq && Cleared(v, t).nextTableId == v.nextTableId
  {
  }

  lemma UnderNext(ts: seq<TableMeta>, next: nat)
    requires FreshIds(ts, next)
    ensures forall i :: 0 <= i < |ts| ==> ts[i].id != next
  {
  }

  // ------------------------------------------------------------ one compaction

  /** Nothing is buffered in memory and the log is empty: the state compaction runs in. */
  ghost predicate Quiet(e: Engine, d: OnDisk) { e.active == map[] && e.frozen == [] && LoggedOf(d) == map[] }

  /** Compaction preserves meaning. */
  lemma CompactedMeans(cfg: Config, img: Image, d: OnDisk, t: nat, data: TableData, kv: KV)
    requires Stored(cfg, img, d) && t < |d.version.tiers|
    requires data.entries == Output(d.version, t, RunsOf(d.tabs, d.version.tiers[t]))
    requires Sound(Stack([map[]], TablesOf(d), map[]), kv)
    ensures var tables := SourcesOf(d.tabs, Above(d.version, t)) + Optional(data) + SourcesOf(d.tabs, Under(d.version, t));
            Sound(Stack([map[]], tables, map[]), kv)
    ensures Sorted(data.entries) && AllBelow(MapOf(data.entries), d.version.nextSeq)
  {
    hide Sorted, Output, AllBelow, MapOf, Stored, NewestFirst, SourcesOf, Reversed, AllHeld, RunsOf, Below, Contents, AllSorted,
      OutputIsBottom, MergeOf, Recent;
    var tier := d.version.tiers[t];
    var a, b, z := Above(d.version, t), Reversed(tier), Under(d.version, t);
    var runs := RunsOf(d.tabs, tier);
    var above, block, below := SourcesOf(d.tabs, a), SourcesOf(d.tabs, b), SourcesOf(d.tabs, z);
    StoredParts(cfg, img, d);
    OrderBelow(d, t);
    HeldParts(cfg.codec, img, d.tabs, a, b, z);
    HeldReversed(cfg.codec, img, d.tabs, tier);
    RunsSorted(cfg.codec, img, d.tabs, tier);
    SourcesReversed(d.tabs, tier);
    LowerRecent(above + block + below);
    BlockRecent(above, block, below);
    OutputIsMerge(d.version, t, runs, block);
    MapOfNothing(data.entries);
    MergeBelow(block, MapOf(data.entries), OutputIsBottom(d.version, t), d.version.nextSeq);
    if OutputIsBottom(d.version, t) {
      BottomHasNothingBelow(d.version, t);
      NoSources(d.tabs);
    }
    BlockMerged(above, block, below, Optional(data), OutputIsBottom(d.version, t), kv);
  }

  lemma OutputStored(cfg: Config, img: Image, d: OnDisk, t: nat, data: TableData)
    requires Stored(cfg, img, d) && t < |d.version.tiers|
    requires data.entries != [] ==> GoodTable(cfg.codec, data)
    requires VersionFits(CompactedDisk(d, t, data).version) && AllBelow(MapOf(data.entries), d.version.nextSeq)
    ensures var d' := CompactedDisk(d, t, data);
      && Stored(cfg, Switched(cfg, img, OutputImage(cfg, d.version.nextTableId, data), d'.version), d')
      && TablesOf(d') == SourcesOf(d.tabs, Above(d.version, t)) + Optional(data) + SourcesOf(d.tabs, Under(d.version, t))
      && d'.version.nextSeq == d.version.nextSeq && d'.version.nextTableId >= d.version.nextTableId
  {
    hide Stored, GoodTable, VersionFits, AllBelow, MapOf, Switched, SourcesOf, TablesOf, OutputImage, NewestFirst, Compacted, Cleared;
    if data.entries == [] {
      ClearedStored(cfg, img, d, t, data);
      ClearedFields(d.version, t);
      var a: seq<Source> := SourcesOf(d.tabs, Above(d.version, t));
      assert a + [] == a;
    } else {
      CompactedStored(cfg, img, d, t, data);
      CompactedFields(d.version, t, MetaOf(d.version.nextTableId, data.entries));
    }
  }

  lemma QuietSeqs(cfg: Config, img: Image, e: Engine, d: OnDisk)
    requires Stored(cfg, img, d) && d.version == e.version && e.version.nextSeq <= e.nextSeq && Quiet(e, d)
    ensures SeqsNew(e, d)
  {
    hide NewestFirst, SourcesOf, AllHeld, FreshIds, LogIn;
    var t := TablesOf(d);
    assert MemorySources(e) == [map[]];
    forall i | 0 <= i < |[map[]] + t|
      ensures AllBelow(([map[]] + t)[i], e.nextSeq)
    {
      if i > 0 { assert AllBelow(t[i - 1], d.version.nextSeq); }
    }
  }

  /** Collection leaves no table with an id still to be given out. */
  lemma CollectedNoStray(cfg: Config, img: Image, d: OnDisk, d': OnDisk, img1: Image)
    requires Stored(cfg, img, d) && Stored(cfg, img1, d') && d'.version.nextTableId >= d.version.nextTableId
    ensures NoStray(Collected(img1, ReferencedIds(d'.version) + ReferencedIds(d.version)), d'.version)
  {
    hide AllHeld, LogIn, Below, VersionFits, Collected, EncodeVersion;
    CollectedIs(img1, ReferencedIds(d'.version) + ReferencedIds(d.version));
    ReferencedBelow(d.version);
    ReferencedBelow(d'.version);
  }

  lemma ReferencedBelow(v: Version)
    requires FreshIds(NewestFirst(v.tiers), v.nextTableId)
    ensures forall id :: id in ReferencedIds(v) ==> id < v.nextTableId
  {
    forall t | t in AllTables(v)
      ensures t.id < v.nextTableId
    {
      NewestMembers(v.tiers, t);
    }
  }

  lemma CompactTierDone(cfg: Config, e: Engine, img: Image, d: OnDisk, kv: KV, t: nat, ok: Goal)
    returns (img': Image, d': OnDisk)
    requires Running(cfg, e, img, d, kv) && Quiet(e, d) && Accepts(cfg, ok, kv) && t < |e.version.tiers|
    requires CompactTier(cfg, e, t).outcome != OutOfRange && Table(e.version.nextTableId) !in img
    ensures var c := CompactTier(cfg, e, t); c.outcome == Done && Safe(e.fs, c, ok)
    ensures Running(cfg, CompactTier(cfg, e, t).engine, img', d', kv) && Quiet(CompactTier(cfg, e, t).engine, d')
    ensures NoStray(img', d'.version)
  {
    hide SettledFs, Staged, SafeRun, FsRun, File, TableFits, LogIn, VersionFits, EncodeVersion, Sound, AllBelow, Below, AllHeld, Replay,
      LogRecords, Accepts, TableWritten, Installed, FreshIds, NewestFirst, MapOf, Sorted, Collected, LogClean,
      Switched, SourcesOf, ReferencedIds, ReadTables, Output, CompactedVersion, SeqsNew, RunsOf, Reversed;
    var v := e.version;
    var id := v.nextTableId;
    RunningCrashSafe(cfg, e, img, d, kv, ok);
    InputsRead(cfg, e, img, d, kv, t);
    var loaded := ReadTables(cfg.codec, e.fs, v.tiers[t]).value;
    var data := TableData(AtLeastOne(loaded.expected), Output(v, t, loaded.runs));
    var extra := OutputImage(cfg, id, data);
    var d1 := CompactedDisk(d, t, data);
    TableStaged(cfg, e, img, id, data.expected, data.entries, ok);
    var w := TableWritten(cfg, e, id, data.expected, data.entries);
    InstalledFits(cfg, w.engine, d1.version);
    QuietSound(e, d, kv);
    CompactedMeans(cfg, img, d, t, data, kv);
    OutputStored(cfg, img, d, t, data);
    InstallSafe(cfg, w.engine, img, extra, d1, kv, ok);
    var i := Installed(cfg, w.engine, d1.version);
    SequelSafe(e.fs, w, i, ok);
    var live := ReferencedIds(d1.version) + ReferencedIds(v);
    img' := Collected(Switched(cfg, img, extra, d1.version), live);
    d' := d1;
    var e2 := e.(fs := SettledFs(img'), version := d1.version);
    SwitchedSegments(cfg, img, extra, d1.version, live);
    LogOpenElsewhere(cfg, e, img, e2, img', d.log);
    RunningFloor(cfg, e, img, d, kv);
    QuietSeqs(cfg, img', e2, d1);
    CollectedNoStray(cfg, img, d, d1, Switched(cfg, img, extra, d1.version));
    assert CompactTier(cfg, e, t).engine == e2;
  }

  lemma RunningFloor(cfg: Config, e: Engine, img: Image, d: OnDisk, kv: KV)
    requires Running(cfg, e, img, d, kv)
    ensures e.version.nextSeq <= e.nextSeq
  {
  }

  lemma QuietSound(e: Engine, d: OnDisk, kv: KV)
    requires Sound(StackOf(e, d), kv) && Quiet(e, d)
    ensures Sound(Stack([map[]], TablesOf(d), map[]), kv) && MemorySources(e) == [map[]]
  {
    hide Sound;
    assert MemorySources(e) == [map[]];
  }

  lemma InputsRead(cfg: Config, e: Engine, img: Image, d: OnDisk, kv: KV, t: nat)
    requires Running(cfg, e, img, d, kv) && t < |e.version.tiers|
    ensures ReadTables(cfg.codec, e.fs, e.version.tiers[t]).Some?
    ensures ReadTables(cfg.codec, e.fs, e.version.tiers[t]).value.runs == RunsOf(d.tabs, d.version.tiers[t])
  {
    hide NewestFirst, SettledFs, AllHeld, FreshIds, LogIn, Sound, SeqsNew, ReadTables, RunsOf, LogOpen, SourcesOf, Reversed;
    var a, b, z := Above(d.version, t), Reversed(d.version.tiers[t]), Under(d.version, t);
    OrderBelow(d, t);
    HeldParts(cfg.codec, img, d.tabs, a, b, z);
    HeldReversed(cfg.codec, img, d.tabs, d.version.tiers[t]);
    ReadTablesHeld(cfg.codec, img, d.tabs, d.version.tiers[t]);
  }

  /** A compaction that meets a file with the output's name is refused and changes nothing. */
  lemma CompactTierRefused(cfg: Config, e: Engine, img: Image, d: OnDisk, kv: KV, t: nat, ok: Goal)
    requires Running(cfg, e, img, d, kv) && Accepts(cfg, ok, kv) && t < |e.version.tiers|
    requires Table(e.version.nextTableId) in img
    ensures var c := CompactTier(cfg, e, t); c.outcome == Collision && Safe(e.fs, c, ok) && c.engine == e
  {
    hide SafeRun, FsRun, TableWritten, Installed, DiskMeans, Stored, Sound, LogOpen, SeqsNew, Accepts, Output, ReadTables, RunsOf;
    RunningCrashSafe(cfg, e, img, d, kv, ok);
    InputsRead(cfg, e, img, d, kv, t);
    var loaded := ReadTables(cfg.codec, e.fs, e.version.tiers[t]).value;
    TableRefused(cfg, e, img, e.version.nextTableId, AtLeastOne(loaded.expected), Output(e.version, t, loaded.runs), ok);
  }

  // ------------------------------------------------------------- the cascade

  /** The cascade: it stops at a refusal, and otherwise leaves every tier below the fanout. */
  lemma {:induction false} CascadeSafe(cfg: Config, e: Engine, img: Image, d: OnDisk, kv: KV, ok: Goal)
    returns (img': Image, d': OnDisk)
    requires Sane(cfg) && Running(cfg, e, img, d, kv) && Quiet(e, d) && Accepts(cfg, ok, kv)
    requires Cascade(cfg, e).outcome != OutOfRange
    ensures var c := Cascade(cfg, e); c.outcome in {Done, Collision} && Safe(e.fs, c, ok)
    ensures Running(cfg, Cascade(cfg, e).engine, img', d', kv) && Quiet(Cascade(cfg, e).engine, d')
    ensures Cascade(cfg, e).outcome == Done ==> FullTier(Cascade(cfg, e).engine.version, cfg.fanout).None?
    ensures NoStray(img, e.version) ==> Cascade(cfg, e).outcome == Done && NoStray(img', d'.version)
    decreases Count(e.version.tiers)
  {
    hide Running, SafeRun, FsRun, CompactTier, Accepts, Quiet, FullTier, Count;
    RunningVersion(cfg, e, img, d, kv);
    match FullTier(e.version, cfg.fanout)
    case None =>
      img', d' := img, d;
      RunningCrashSafe(cfg, e, img, d, kv, ok);
      NothingRuns(e.fs, ok);
    case Some(t) =>
      if Table(e.version.nextTableId) in img {
        CompactTierRefused(cfg, e, img, d, kv, t, ok);
        img', d' := img, d;
      } else {
        var c := CompactTier(cfg, e, t);
        var img1, d1 := CompactTierDone(cfg, e, img, d, kv, t, ok);
        RunningVersion(cfg, c.engine, img1, d1, kv);
        CompactTierVersion(cfg, e, t);
        img', d' := CascadeSafe(cfg, c.engine, img1, d1, kv, ok);
        SequelSafe(e.fs, c, Cascade(cfg, c.engine), ok);
      }
  }
}
