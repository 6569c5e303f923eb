// What the disk must hold for it to mean a given map, and the invariant of a
// running engine over such a disk.

module EngineState {
  import opened Versions
  import opened SortedRuns
  import opened Sim
  import opened FsView
  import opened Protocols
  import opened WalModel
  import opened TableFormat
  import opened LsmVersion
  import opened ManifestFormat
  import opened Meaning
  import opened EngineModel

  // -------------------------------------------------------------- table files

  /** The entries a table file was built from, and the key count its filter was sized for. */
  datatype TableData = TableData(expected: nat, entries: seq<Record>)

  type Tabs = map<nat, TableData>

  ghost predicate GoodTable(c: Codec, data: TableData) {
    TableFits(c, data.expected, data.entries) && Sorted(data.entries) && data.entries != []
  }

  /** The table a version names is on disk, complete, and is what its metadata says. */
  ghost predicate TableHeld(c: Codec, img: Image, tabs: Tabs, t: TableMeta) {
    && t.id in tabs && GoodTable(c, tabs[t.id])
    && Table(t.id) in img && img[Table(t.id)] == File(c, tabs[t.id].expected, tabs[t.id].entries)
    && t == MetaOf(t.id, tabs[t.id].entries)
  }

  ghost predicate AllHeld(c: Codec, img: Image, tabs: Tabs, ts: seq<TableMeta>) {
    forall i :: 0 <= i < |ts| ==> TableHeld(c, img, tabs, ts[i])
  }

  function SourceOf(tabs: Tabs, t: TableMeta): Source {
    if t.id in tabs then MapOf(tabs[t.id].entries) else map[]
  }

  function SourcesOf(tabs: Tabs, ts: seq<TableMeta>): (s: seq<Source>)
    ensures |s| == |ts|
    ensures forall i :: 0 <= i < |ts| ==> s[i] == SourceOf(tabs, ts[i])
  {
    seq(|ts|, i requires 0 <= i < |ts| => SourceOf(tabs, ts[i]))
  }

  lemma SourcesConcat(tabs: Tabs, a: seq<TableMeta>, b: seq<TableMeta>)
    ensures SourcesOf(tabs, a + b) == SourcesOf(tabs, a) + SourcesOf(tabs, b)
  {
  }

  /** Ids are pairwise distinct and below the next one to be given out. */
  ghost predicate FreshIds(ts: seq<TableMeta>, next: nat) {
    && (forall i :: 0 <= i < |ts| ==> ts[i].id < next)
    && (forall i, j :: 0 <= i < j < |ts| ==> ts[i].id != ts[j].id)
  }

  lemma FreshIdsParts(a: seq<TableMeta>, b: seq<TableMeta>, next: nat)
    requires FreshIds(a + b, next)
    ensures FreshIds(a, next) && FreshIds(b, next)
    ensures forall i, j :: 0 <= i < |a| && 0 <= j < |b| ==> a[i].id != b[j].id
  {
    var s := a + b;
    assert forall i :: 0 <= i < |a| ==> a[i] == s[i];
    assert forall j :: 0 <= j < |b| ==> b[j] == s[|a| + j];
  }

  lemma FreshIdsCut(a: seq<TableMeta>, b: seq<TableMeta>, c: seq<TableMeta>, next: nat)
    requires FreshIds(a + b + c, next)
    ensures FreshIds(a + c, next)
  {
    FreshIdsParts(a + b, c, next);
    FreshIdsParts(a, b, next);
    var ab := a + b;
    assert forall i :: 0 <= i < |a| ==> a[i] == ab[i];
  }

  lemma FreshIdsInsert(a: seq<TableMeta>, t: TableMeta, c: seq<TableMeta>, next: nat)
    requires FreshIds(a + c, next) && t.id == next
    ensures FreshIds(a + [t] + c, next + 1)
  {
    FreshIdsParts(a, c, next);
  }

  /** A table with a new id leaves the others alone. */
  lemma OthersHeld(c: Codec, img: Image, tabs: Tabs, ts: seq<TableMeta>, id: nat, data: TableData, img': Image)
    requires AllHeld(c, img, tabs, ts)
    requires forall i :: 0 <= i < |ts| ==> ts[i].id != id
    requires forall i :: 0 <= i < |ts| ==> Table(ts[i].id) in img' && img'[Table(ts[i].id)] == img[Table(ts[i].id)]
    ensures AllHeld(c, img', tabs[id := data], ts)
    ensures SourcesOf(tabs[id := data], ts) == SourcesOf(tabs, ts)
  {
    hide File, GoodTable, MapOf;
    forall i | 0 <= i < |ts|
      ensures TableHeld(c, img', tabs[id := data], ts[i])
    {
      assert TableHeld(c, img, tabs, ts[i]);
    }
  }

  // ------------------------------------------------------------- disk images

  datatype OnDisk = OnDisk(version: Version, tabs: Tabs, log: Log)

  function TableOrder(d: OnDisk): seq<TableMeta> { NewestFirst(d.version.tiers) }

  function TablesOf(d: OnDisk): seq<Source> { SourcesOf(d.tabs, TableOrder(d)) }

  function LoggedOf(d: OnDisk): Source { Replay(map[], LogRecords(d.log)) }

  ghost predicate ManifestSays(cfg: Config, img: Image, v: Version) {
    && ManifestFile in img && VersionFits(v)
    && img[ManifestFile] == EncodeVersion(cfg.codec.crc, v)
  }

  /** No table file bears an id beyond the next one to be given out. */
  ghost predicate IdsBounded(img: Image, v: Version) {
    forall id: nat :: Table(id) in img ==> id <= v.nextTableId
  }

  /** The image holds exactly this version, these tables and this log. */
  ghost predicate Stored(cfg: Config, img: Image, d: OnDisk) {
    && NoScratch(img) && IdsBounded(img, d.version)
    && ManifestSays(cfg, img, d.version)
    && FreshIds(TableOrder(d), d.version.nextTableId)
    && AllHeld(cfg.codec, img, d.tabs, TableOrder(d))
    && LogIn(cfg.codec.crc, img, d.log)
    && Below(TablesOf(d), d.version.nextSeq)
  }

  function RecoveredStack(d: OnDisk): Stack { Stack([LoggedOf(d)], TablesOf(d), LoggedOf(d)) }

  ghost predicate DiskMeans(cfg: Config, img: Image, d: OnDisk, kv: KV) {
    Stored(cfg, img, d) && Sound(RecoveredStack(d), kv)
  }

  /** The image is one a reopened engine reads as the map `kv`. */
  ghost predicate ImageMeans(cfg: Config, img: Image, kv: KV) {
    || (img == map[] && kv == map[])
    || exists d :: DiskMeans(cfg, img, d, kv)
  }

  /** `ok` accepts every image that means `kv`. */
  ghost predicate Accepts(cfg: Config, ok: Goal, kv: KV) {
    forall img :: ImageMeans(cfg, img, kv) ==> ok.accepts(img)
  }

  lemma Accepted(cfg: Config, ok: Goal, kv: KV, img: Image, d: OnDisk)
    requires Accepts(cfg, ok, kv) && DiskMeans(cfg, img, d, kv)
    ensures ok.accepts(img)
  {
    hide DiskMeans;
    assert ImageMeans(cfg, img, kv);
  }

  predicate SameOutsideLog(img: Image, img': Image) {
    && (forall n :: n in img && !n.Segment? ==> n in img' && img'[n] == img[n])
    && (forall n :: n in img' && !n.Segment? ==> n in img)
  }

  lemma LogChanged(cfg: Config, img: Image, d: OnDisk, img': Image, log: Log)
    requires Stored(cfg, img, d) && SameOutsideLog(img, img') && LogIn(cfg.codec.crc, img', log)
    ensures Stored(cfg, img', d.(log := log))
    ensures TablesOf(d.(log := log)) == TablesOf(d)
  {
    hide LogIn, EncodeVersion, VersionFits, File, GoodTable, FreshIds, Below, NewestFirst, SourcesOf;
    var ts := TableOrder(d);
    forall i | 0 <= i < |ts|
      ensures TableHeld(cfg.codec, img', d.tabs, ts[i])
    {
      assert TableHeld(cfg.codec, img, d.tabs, ts[i]);
    }
  }

  // ------------------------------------------------------------ running engine

  function StackOf(e: Engine, d: OnDisk): Stack { Stack(MemorySources(e), TablesOf(d), LoggedOf(d)) }

  /** The log is positioned at its clean end. */
  ghost predicate LogOpen(cfg: Config, e: Engine, img: Image, log: Log) {
    && LogClean(cfg.codec.crc, img, log)
    && log.ids[|log.ids| - 1] == e.segment && e.segmentLen == |img[Segment(e.segment)]|
  }

  lemma OpenLogShape(cfg: Config, e: Engine, img: Image, log: Log)
    requires LogOpen(cfg, e, img, log)
    ensures LogShape(log) && log.ids != [] && Segment(e.segment) in img && log.ids[|log.ids| - 1] == e.segment
    ensures LogIn(cfg.codec.crc, img, log)
  {
  }

  /** Sequence numbers still to be given out are new. */
  ghost predicate SeqsNew(e: Engine, d: OnDisk) {
    && Below(MemorySources(e) + TablesOf(d), e.nextSeq)
    && AllBelow(LoggedOf(d), e.nextSeq) && e.version.nextSeq <= e.nextSeq
  }

  ghost predicate FrozenFull(e: Engine) { forall i :: 0 <= i < |e.frozen| ==> e.frozen[i] != map[] }

  /** Between calls: nothing is in flight on disk, and memory, tables and log together mean `kv`. */
  ghost predicate Running(cfg: Config, e: Engine, img: Image, d: OnDisk, kv: KV) {
    && e.fs == SettledFs(img) && Stored(cfg, img, d) && d.version == e.version
    && LogOpen(cfg, e, img, d.log)
    && Sound(StackOf(e, d), kv)
    && SeqsNew(e, d) && FrozenFull(e)
  }

  /** What a crash would leave of a running engine means the same map. */
  lemma RunningDisk(cfg: Config, e: Engine, img: Image, d: OnDisk, kv: KV)
    requires Running(cfg, e, img, d, kv)
    ensures DiskMeans(cfg, img, d, kv)
  {
    hide Stored, LogOpen, SeqsNew, Sound;
    MemoryLost(StackOf(e, d), kv);
  }

  lemma RunningCrashSafe(cfg: Config, e: Engine, img: Image, d: OnDisk, kv: KV, ok: Goal)
    requires Running(cfg, e, img, d, kv) && Accepts(cfg, ok, kv)
    ensures ok.accepts(img) && CrashSafe(e.fs, ok)
  {
    hide DiskMeans, Accepts;
    RunningDisk(cfg, e, img, d, kv);
    Accepted(cfg, ok, kv, img, d);
    SettledCrashSafe(img, ok);
  }

  /** No table file bears an id the version has yet to give out. */
  ghost predicate NoStray(img: Image, v: Version) {
    forall id: nat :: Table(id) in img ==> id < v.nextTableId
  }

  // -------------------------------------------------------------- composition

  /** The step issues operations the engine may issue, a crash at any of their points is acceptable,
      and they leave the storage the step says. */
  ghost predicate Safe(fs: Fs, f: Effect, ok: Goal) {
    SafeRun(fs, f.ops, ok) && f.engine.fs == FsRun(fs, f.ops)
  }

  lemma SequelSafe(fs: Fs, f: Effect, g: Effect, ok: Goal)
    requires Safe(fs, f, ok) && Safe(f.engine.fs, g, ok)
    ensures Safe(fs, Sequel(f, g), ok)
  {
    hide FsRun, SafeRun, LegalRun;
    SafeRunLegal(fs, f.ops, ok);
    SafeConcat(fs, f.ops, g.ops, ok);
  }
}
