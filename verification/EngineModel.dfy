// The engine as a function of its state: what each call does to the in-memory
// tables, which storage operations it issues, in which order, and how it ends.

module EngineModel {
  import opened Wrappers
  import opened ByteStrings
  import opened Numbers
  import opened Seqs
  import opened Versions
  import opened Sources
  import opened SortedRuns
  import opened Merge
  import opened Sim
  import opened FsView
  import opened Protocols
  import opened RecordFormat
  import opened WalModel
  import opened TableFormat
  import opened LsmVersion
  import opened ManifestFormat
  import Frame
  import Scan

  datatype Config = Config(codec: Codec, segmentSize: nat, memtableSize: nat, fanout: nat)

  /** With a fanout below 2 the cascade need not end. */
  predicate Sane(cfg: Config) { cfg.fanout >= 2 }

  /** How a call ends. `Collision`: a file to be created exists already. `Unreadable`: a stored file does
      not decode. `OutOfRange`: a length, count or sequence number no longer fits its fixed-width field;
      the model stops there. */
  datatype Outcome = Done | Collision | Unreadable | OutOfRange

  /** `frozen` is oldest first; `segment` and `segmentLen` are the log's active segment. */
  datatype Engine = Engine(fs: Fs, version: Version, active: Source, frozen: seq<Source>,
                           segment: nat, segmentLen: nat, nextSeq: nat)

  /** The state a step leaves, the operations it issued, and how it ended. */
  datatype Effect = Effect(engine: Engine, ops: seq<Op>, outcome: Outcome)

  function Issue(e: Engine, ops: seq<Op>): Engine { e.(fs := FsRun(e.fs, ops)) }

  function Sequel(first: Effect, second: Effect): Effect {
    Effect(second.engine, first.ops + second.ops, second.outcome)
  }

  // --------------------------------------------------------------- the log

  function RotateOps(e: Engine): seq<Op> {
    [SyncFile(Segment(e.segment)), Create(Segment(e.segment + 1)), SyncDir]
  }

  /** `commit_sync_now`, and `commit_group` for a batch of one: append, sync, maybe rotate. */
  function Logged(cfg: Config, e: Engine, payload: Bytes): Effect {
    var frame := Frame.Encode(cfg.codec.crc, payload);
    var commit := [Append(Segment(e.segment), frame), SyncFile(Segment(e.segment))];
    var e1 := Issue(e, commit).(segmentLen := e.segmentLen + |frame|);
    if e1.segmentLen < cfg.segmentSize then Effect(e1, commit, Done)
    else Sequel(Effect(e1, commit, Done), Rotated(e1))
  }

  /** `maybe_rotate`, once the active segment has reached its size. */
  function Rotated(e: Engine): Effect {
    if Segment(e.segment + 1) in e.fs.live
    then Effect(Issue(e, RotateOps(e)[..2]), RotateOps(e)[..2], Collision)
    else Effect(Issue(e, RotateOps(e)).(segment := e.segment + 1, segmentLen := 0), RotateOps(e), Done)
  }

  function LargestId(ids: seq<nat>): nat { if ids == [] then 0 else ids[|ids| - 1] }

  /** `Wal::reset`. */
  ghost function Reset(e: Engine): Effect {
    var ids := Ascending(SegmentIds(e.fs.live.Keys));
    var next := LargestId(ids) + 1;
    var ops := [Create(Segment(next)), SyncDir] + (DeleteAll(SegmentNames(ids)) + [SyncDir]);
    Effect(Issue(e, ops).(segment := next, segmentLen := 0), ops, Done)
  }

  // ------------------------------------------------------------ the manifest

  function TableIds(names: set<Name>): set<nat> { set n | n in names && n.Table? :: n.id }

  function TableNames(ids: seq<nat>): (names: seq<Name>)
    ensures |names| == |ids|
    ensures forall i :: 0 <= i < |ids| ==> names[i] == Table(ids[i])
  {
    if ids == [] then [] else [Table(ids[0])] + TableNames(ids[1..])
  }

  function InstallOps(cfg: Config, v: Version): seq<Op> {
    ReplaceOps(ManifestTmp, ManifestFile, EncodeVersion(cfg.codec.crc, v))
  }

  /** `gc`: delete the tables nothing live refers to. */
  ghost function GcOps(fs: Fs, liveIds: set<nat>): seq<Op> {
    var garbage := Ascending(TableIds(fs.live.Keys) - liveIds);
    if garbage == [] then [] else DeleteAll(TableNames(garbage)) + [SyncDir]
  }

  /** `install`: the manifest switch, then collection. The superseded version is still held by the caller. */
  ghost function Installed(cfg: Config, e: Engine, v: Version): Effect {
    if !VersionFits(v) then Effect(e, [], OutOfRange)
    else
      var e1 := Issue(e, InstallOps(cfg, v)).(version := v);
      var gc := GcOps(e1.fs, ReferencedIds(v) + ReferencedIds(e.version));
      Sequel(Effect(e1, InstallOps(cfg, v), Done), Effect(Issue(e1, gc), gc, Done))
  }

  // ------------------------------------------------------------ table files

  /** What the builder appends: the sealed blocks, then index, filter and footer. */
  function TableChunks(c: Codec, expected: nat, es: seq<Record>): seq<Bytes> {
    BlockChunks(c.crc, BlocksOf(es)) + [IndexPart(c, es), BloomPart(c, expected, es), FooterPart(c, expected, es)]
  }

  function BlockChunks(crc: Checksum, blocks: seq<seq<Record>>): seq<Bytes> {
    if blocks == [] then [] else [Parse.Sealed(crc, Body(blocks[0]))] + BlockChunks(crc, blocks[1..])
  }

  /** `write_table`. An empty stream leaves an empty file behind. */
  function TableWritten(cfg: Config, e: Engine, id: nat, expected: nat, es: seq<Record>): Effect {
    if Table(id) in e.fs.live then Effect(Issue(e, [Create(Table(id))]), [Create(Table(id))], Collision)
    else if es == [] then Effect(Issue(e, [Create(Table(id))]), [Create(Table(id))], Done)
    else if !TableFits(cfg.codec, expected, es) then Effect(e, [], OutOfRange)
    else
      var ops := WriteFileOps(Table(id), TableChunks(cfg.codec, expected, es));
      Effect(Issue(e, ops), ops, Done)
  }

  function MetaOf(id: nat, es: seq<Record>): TableMeta
    requires es != []
  {
    TableMeta(id, |es|, es[0].key, es[|es| - 1].key)
  }

  function AtLeastOne(n: nat): nat { if n == 0 then 1 else n }

  /** The filter of a flushed table has ten bits for each of its keys. */
  lemma FlushedFilterRoom(cfg: Config, es: seq<Record>)
    ensures FilterOf(cfg.codec, AtLeastOne(|es|), es).numBits >= 10 * |es|
  {
    hide FilterOf;
    FilterRoom(cfg.codec, AtLeastOne(|es|), es);
  }

  // ------------------------------------------------------------------ flush

  /** One round of the flush loop: the oldest frozen table becomes a tier-0 table. */
  ghost function FlushOldest(cfg: Config, e: Engine): Effect
    requires e.frozen != []
  {
    var es := Snapshot(e.frozen[0]);
    var id := e.version.nextTableId;
    var w := TableWritten(cfg, e, id, AtLeastOne(|es|), es);
    if w.outcome != Done then w
    else if es == [] then w.(engine := w.engine.(frozen := e.frozen[1..]))
    else
      var i := Installed(cfg, w.engine, Flushed(e.version, MetaOf(id, es), e.nextSeq));
      Sequel(w, if i.outcome != Done then i else i.(engine := i.engine.(frozen := e.frozen[1..])))
  }

  ghost function FlushFrozen(cfg: Config, e: Engine): Effect
    decreases |e.frozen|
  {
    if e.frozen == [] then Effect(e, [], Done)
    else
      var f := FlushOldest(cfg, e);
      if f.outcome != Done then f else Sequel(f, FlushFrozen(cfg, f.engine))
  }

  // -------------------------------------------------------------- compaction

  datatype Loaded = Loaded(runs: Runs, expected: nat)

  /** Open one table and read all its entries. */
  function ReadTable(c: Codec, fs: Fs, id: nat): Option<(seq<Record>, nat)> {
    if Table(id) !in fs.live then None
    else
      var file := fs.live[Table(id)].Bytes();
      match Open(c, file)
      case None => None
      case Some(o) =>
        match LoadAll(c, file, o.index)
        case None => None
        case Some(es) => Some((es, o.numEntries))
  }

  function ReadTables(c: Codec, fs: Fs, inputs: seq<TableMeta>): (r: Option<Loaded>)
    ensures r.Some? ==> |r.value.runs| == |inputs|
  {
    if inputs == [] then Some(Loaded([], 0))
    else
      match ReadTable(c, fs, inputs[0].id)
      case None => None
      case Some((es, n)) =>
        match ReadTables(c, fs, inputs[1..])
        case None => None
        case Some(rest) => Some(Loaded([es] + rest.runs, n + rest.expected))
  }

  function WithoutDeletes(run: seq<Record>): seq<Record> {
    if run == [] then []
    else if run[0].value.kind == Tombstone then WithoutDeletes(run[1..])
    else [run[0]] + WithoutDeletes(run[1..])
  }

  /** The merged stream that reaches the builder. */
  function Output(v: Version, t: nat, runs: Runs): seq<Record> {
    if OutputIsBottom(v, t) then WithoutDeletes(Merged(runs)) else Merged(runs)
  }

  function CompactedVersion(v: Version, t: nat, es: seq<Record>): Version
    requires t < |v.tiers|
  {
    if es == [] then Cleared(v, t) else Compacted(v, t, MetaOf(v.nextTableId, es))
  }

  /** `compact_tier`. */
  ghost function CompactTier(cfg: Config, e: Engine, t: nat): Effect
    requires t < |e.version.tiers|
  {
    match ReadTables(cfg.codec, e.fs, e.version.tiers[t])
    case None => Effect(e, [], Unreadable)
    case Some(loaded) =>
      var es := Output(e.version, t, loaded.runs);
      var w := TableWritten(cfg, e, e.version.nextTableId, AtLeastOne(loaded.expected), es);
      if w.outcome != Done then w
      else Sequel(w, Installed(cfg, w.engine, CompactedVersion(e.version, t, es)))
  }

  lemma CompactTierVersion(cfg: Config, e: Engine, t: nat)
    requires Sane(cfg) && FullTier(e.version, cfg.fanout) == Some(t)
    requires CompactTier(cfg, e, t).outcome == Done
    ensures Count(CompactTier(cfg, e, t).engine.version.tiers) < Count(e.version.tiers)
  {
    hide TableFits, ReadTables, Output, GcOps, InstallOps, VersionFits, WriteFileOps, TableChunks, FullTier;
    var es := Output(e.version, t, ReadTables(cfg.codec, e.fs, e.version.tiers[t]).value.runs);
    var change := Compaction(t, if es == [] then None else Some(MetaOf(e.version.nextTableId, es)));
    CascadeStepShrinks(e.version, change, cfg.fanout);
  }

  /** The cascade: compact until no tier has reached the fanout. */
  ghost function Cascade(cfg: Config, e: Engine): Effect
    requires Sane(cfg)
    decreases Count(e.version.tiers)
  {
    match FullTier(e.version, cfg.fanout)
    case None => Effect(e, [], Done)
    case Some(t) =>
      var c := CompactTier(cfg, e, t);
      if c.outcome != Done then c
      else
        CompactTierVersion(cfg, e, t);
        Sequel(c, Cascade(cfg, c.engine))
  }

  // ------------------------------------------------------------------ calls

  function Freeze(e: Engine): Engine {
    if e.active == map[] then e else e.(active := map[], frozen := e.frozen + [e.active])
  }

  /** `flush`. */
  ghost function FlushEffect(cfg: Config, e: Engine): Effect
    requires Sane(cfg)
  {
    var f := FlushFrozen(cfg, Freeze(e));
    if f.outcome != Done then f
    else
      var r := Reset(f.engine);
      Sequel(f, Sequel(r, Cascade(cfg, r.engine)))
  }

  /** `put` and `delete`: log, apply, and flush when the active table has become full. */
  ghost function WriteEffect(cfg: Config, e: Engine, key: Bytes, kind: ValueKind): Effect
    requires Sane(cfg)
  {
    var v := InternalValue(e.nextSeq, kind);
    if !RecordFits(Record(key, v)) then Effect(e, [], OutOfRange)
    else
      var a := Logged(cfg, e.(nextSeq := e.nextSeq + 1), EncodeRecord(Record(key, v)));
      if a.outcome != Done then a
      else
        var e1 := a.engine.(active := InsertIfNewer(a.engine.active, key, v));
        if Weight(e1.active) >= cfg.memtableSize then Sequel(a, FlushEffect(cfg, e1)) else Effect(e1, a.ops, Done)
  }

  datatype Call = Put(key: Bytes, value: Bytes) | Delete(key: Bytes) | Flush

  ghost function CallEffect(cfg: Config, e: Engine, call: Call): Effect
    requires Sane(cfg)
  {
    match call
    case Put(k, v) => WriteEffect(cfg, e, k, Value(v))
    case Delete(k) => WriteEffect(cfg, e, k, Tombstone)
    case Flush => FlushEffect(cfg, e)
  }

  // ---------------------------------------------------------------- opening

  function LiveImage(fs: Fs): Image { map n | n in fs.live :: fs.live[n].Bytes() }

  /** What opening the manifest yields; a missing one is created empty. */
  function ManifestRead(cfg: Config, fs: Fs): Option<Version> {
    if ManifestFile in fs.live then DecodeVersion(cfg.codec.crc, fs.live[ManifestFile].Bytes()) else Some(EMPTY_VERSION)
  }

  function ManifestOps(cfg: Config, fs: Fs): seq<Op> {
    if ManifestFile in fs.live then [] else InstallOps(cfg, EMPTY_VERSION)
  }

  /** `truncate_tail`, when the scan of the tail did not end cleanly. */
  function RepairOps(fs: Fs, r: Recovered): seq<Op> {
    if r.reason == Scan.Clean || r.tailSegment.None? || Segment(r.tailSegment.value) !in fs.live then []
    else
      var id := r.tailSegment.value;
      var buf := fs.live[Segment(id)].Bytes();
      if r.tailValidLen >= |buf| then [] else ReplaceOps(SegmentTmp(id), Segment(id), buf[..r.tailValidLen])
  }

  /** The first segment of a fresh log. */
  ghost function FirstSegmentOps(fs: Fs): seq<Op> {
    if SegmentIds(fs.live.Keys) == {} then [Create(Segment(1)), SyncDir] else []
  }

  function NextStamp(floor: nat, records: seq<Record>): nat
    decreases |records|
  {
    if records == [] then floor else NextStamp(Max(floor, records[0].value.stamp + 1), records[1..])
  }

  /** `open_on`. */
  ghost function OpenEffect(cfg: Config, fs: Fs): Effect {
    var blank := Engine(fs, EMPTY_VERSION, map[], [], 0, 0, 0);
    match ManifestRead(cfg, fs)
    case None => Effect(blank, [], Unreadable)
    case Some(v) =>
      var ops1 := ManifestOps(cfg, fs);
      var fs1 := FsRun(fs, ops1);
      var r := Recover(cfg.codec.crc, LiveImage(fs1));
      var ops2 := RepairOps(fs1, r);
      var fs2 := FsRun(fs1, ops2);
      var ops3 := FirstSegmentOps(fs2);
      var fs3 := FsRun(fs2, ops3);
      var ops := ops1 + ops2 + ops3;
      var segment := LargestId(Ascending(SegmentIds(fs3.live.Keys)));
      var len := if Segment(segment) in fs3.live then |fs3.live[Segment(segment)].Bytes()| else 0;
      match DecodeRecords(r.records)
      case None => Effect(blank.(fs := fs3), ops, Unreadable)
      case Some(records) =>
        Effect(Engine(fs3, v, Replay(map[], records), [], segment, len, NextStamp(v.nextSeq, records)), ops, Done)
  }

  // ---------------------------------------------------------------- reading

  /** The in-memory tables, newest first. */
  function MemorySources(e: Engine): seq<Source> { [e.active] + Reversed(e.frozen) }

  /** `get`; the outer `None` is an error. */
  function GetOf(cfg: Config, e: Engine, key: Bytes): Option<Option<Bytes>> {
    var m := Lookup(MemorySources(e), key);
    if m.Some? then Some(Visible(m)) else GetFromTables(cfg, e.fs, NewestFirst(e.version.tiers), key)
  }

  function GetFromTables(cfg: Config, fs: Fs, tables: seq<TableMeta>, key: Bytes): Option<Option<Bytes>> {
    if tables == [] then Some(None)
    else if !KeyInRange(tables[0], key) then GetFromTables(cfg, fs, tables[1..], key)
    else if Table(tables[0].id) !in fs.live then None
    else
      var file := fs.live[Table(tables[0].id)].Bytes();
      match Open(cfg.codec, file)
      case None => None
      case Some(o) =>
        match Get(cfg.codec, file, o, key)
        case None => None
        case Some(None) => GetFromTables(cfg, fs, tables[1..], key)
        case Some(Some(r)) => Some(Visible(Some(r.value)))
  }

  datatype Bound = Unbounded | Included(key: Bytes) | Excluded(key: Bytes)

  /** `range_contains`. */
  predicate InRange(lo: Bound, hi: Bound, key: Bytes) {
    && (match lo
        case Unbounded => true
        case Included(k) => AtMost(k, key)
        case Excluded(k) => Less(k, key))
    && (match hi
        case Unbounded => true
        case Included(k) => AtMost(key, k)
        case Excluded(k) => Less(key, k))
  }

  function Clip(run: seq<Record>, lo: Bound, hi: Bound): seq<Record> {
    if run == [] then []
    else if InRange(lo, hi, run[0].key) then [run[0]] + Clip(run[1..], lo, hi)
    else Clip(run[1..], lo, hi)
  }

  function ClipAll(runs: Runs, lo: Bound, hi: Bound): (r: Runs)
    ensures |r| == |runs|
    ensures forall i :: 0 <= i < |runs| ==> r[i] == Clip(runs[i], lo, hi)
  {
    if runs == [] then [] else [Clip(runs[0], lo, hi)] + ClipAll(runs[1..], lo, hi)
  }

  ghost function Snapshots(tables: seq<Source>): (r: Runs)
    ensures |r| == |tables|
    ensures forall i :: 0 <= i < |tables| ==> r[i] == Snapshot(tables[i])
  {
    if tables == [] then [] else [Snapshot(tables[0])] + Snapshots(tables[1..])
  }

  /** `scan`: active table, frozen tables oldest first, then every table of the version, merged. */
  ghost function ScanOf(cfg: Config, e: Engine, lo: Bound, hi: Bound): Option<seq<(Bytes, Bytes)>> {
    match ReadTables(cfg.codec, e.fs, AllTables(e.version))
    case None => None
    case Some(loaded) =>
      Some(LiveOf(Merged(ClipAll(Snapshots([e.active] + e.frozen) + loaded.runs, lo, hi))))
  }
}
