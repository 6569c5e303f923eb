// The manifest object: its codec loops, the pinned versions it keeps, the atomic file
// switch and the collection of tables nothing refers to.

module ManifestStore {
  import opened Wrappers
  import opened ByteStrings
  import opened Parse
  import opened Sim
  import opened FsView
  import opened Protocols
  import opened Simulator
  import opened WalModel
  import opened LsmVersion
  import opened ManifestFormat
  import opened EngineModel
  import opened WalLog
  import opened TableFiles

  // ------------------------------------------------------------------- codec

  lemma {:induction false} MetasSnoc(ts: seq<TableMeta>, t: TableMeta)
    ensures MetasBytes(ts + [t]) == MetasBytes(ts) + MetaBytes(t)
  {
    hide MetaBytes;
    if ts == [] {
      assert ts + [t] == [t] && [t][1..] == [];
    } else {
      assert (ts + [t])[1..] == ts[1..] + [t];
      MetasSnoc(ts[1..], t);
    }
  }

  lemma {:induction false} TiersSnoc(tiers: Tiers, tier: seq<TableMeta>)
    ensures TiersBytes(tiers + [tier]) == TiersBytes(tiers) + TierBytes(tier)
  {
    hide TierBytes;
    if tiers == [] {
      assert tiers + [tier] == [tier] && [tier][1..] == [];
    } else {
      assert (tiers + [tier])[1..] == tiers[1..] + [tier];
      TiersSnoc(tiers[1..], tier);
    }
  }

  /** One tier: its length, then its tables. */
  method EncodeTier(tier: seq<TableMeta>) returns (buf: Bytes)
    ensures buf == TierBytes(tier)
  {
    hide MetaBytes, PutU32;
    buf := PutU32(|tier|);
    for i := 0 to |tier|
      invariant buf == PutU32(|tier|) + MetasBytes(tier[..i])
    {
      MetasSnoc(tier[..i], tier[i]);
      assert tier[..i + 1] == tier[..i] + [tier[i]];
      buf := buf + MetaBytes(tier[i]);
    }
    assert tier[..|tier|] == tier;
  }

  /** `encode_version`: the header fields, tier after tier, and the checksum of all of it. */
  method EncodeManifest(crc: Checksum, v: Version) returns (buf: Bytes)
    ensures buf == EncodeVersion(crc, v)
  {
    hide TierBytes, PutU32, PutU64;
    var header := PutU64(MANIFEST_MAGIC) + (PutU32(MANIFEST_FORMAT) + (PutU64(v.nextSeq) + (PutU64(v.nextTableId) + PutU32(|v.tiers|))));
    buf := header;
    for i := 0 to |v.tiers|
      invariant buf == header + TiersBytes(v.tiers[..i])
    {
      TiersSnoc(v.tiers[..i], v.tiers[i]);
      assert v.tiers[..i + 1] == v.tiers[..i] + [v.tiers[i]];
      var tier := EncodeTier(v.tiers[i]);
      buf := buf + tier;
    }
    assert v.tiers[..|v.tiers|] == v.tiers;
    assert buf == VersionBody(v);
    buf := buf + PutU32(crc(buf));
  }

  /** One table's metadata off the cursor. */
  method ReadMeta(cur: Cursor) returns (r: Option<TableMeta>)
    requires cur.Valid()
    modifies cur
    ensures cur.Valid()
    ensures match TakeMeta(old(cur.Rest()))
            case Corrupt => r == None
            case Got(t, rest) => r == Some(t) && cur.Rest() == rest
  {
    hide TakeU64, TakeBytes;
    var id := cur.U64();
    if id.None? { return None; }
    var numEntries := cur.U64();
    if numEntries.None? { return None; }
    var firstKey := cur.LengthPrefixed();
    if firstKey.None? { return None; }
    var lastKey := cur.LengthPrefixed();
    if lastKey.None? { return None; }
    return Some(TableMeta(id.value, numEntries.value, firstKey.value, lastKey.value));
  }

  /** The inner loop of `decode_version`: one tier. */
  method ReadTier(cur: Cursor) returns (r: Option<seq<TableMeta>>)
    requires cur.Valid()
    modifies cur
    ensures cur.Valid()
    ensures match TakeTier(old(cur.Rest()))
            case Corrupt => r == None
            case Got(tier, rest) => r == Some(tier) && cur.Rest() == rest
  {
    hide TakeU32, TakeMeta, SoFar;
    var count := cur.U32();
    if count.None? { return None; }
    var out: seq<TableMeta> := [];
    ghost var rest, left := cur.Rest(), count.value;
    ghost var all := TakeMetas(rest, left);
    SoFarBegins(all);
    var i := 0;
    while i < count.value
      invariant 0 <= i <= count.value && cur.Valid()
      invariant left == count.value - i && rest == cur.Rest()
      invariant SoFar(all, out, TakeMetas(rest, left))
    {
      var t := ReadMeta(cur);
      if t.None? {
        SoFarBroken(all, out);
        return None;
      }
      SoFarStep(all, out, t.value, TakeMetas(cur.Rest(), left - 1));
      out := out + [t.value];
      i := i + 1;
      rest, left := cur.Rest(), left - 1;
    }
    SoFarEnds(all, out, rest);
    return Some(out);
  }

  /** The outer loop of `decode_version`: all tiers. */
  method ReadTiers(cur: Cursor, count: nat) returns (r: Option<Tiers>)
    requires cur.Valid()
    modifies cur
    ensures cur.Valid()
    ensures match TakeTiers(old(cur.Rest()), count)
            case Corrupt => r == None
            case Got(tiers, rest) => r == Some(tiers) && cur.Rest() == rest
  {
    hide TakeTier, SoFar;
    var out: Tiers := [];
    ghost var rest, left := cur.Rest(), count;
    ghost var all := TakeTiers(rest, left);
    SoFarBegins(all);
    var i := 0;
    while i < count
      invariant 0 <= i <= count && cur.Valid()
      invariant left == count - i && rest == cur.Rest()
      invariant SoFar(all, out, TakeTiers(rest, left))
    {
      var t := ReadTier(cur);
      if t.None? {
        SoFarBroken(all, out);
        return None;
      }
      SoFarStep(all, out, t.value, TakeTiers(cur.Rest(), left - 1));
      out := out + [t.value];
      i := i + 1;
      rest, left := cur.Rest(), left - 1;
    }
    SoFarEnds(all, out, rest);
    return Some(out);
  }

  /** `decode_version`. */
  method DecodeManifest(crc: Checksum, buf: Bytes) returns (r: Option<Version>)
    ensures r == DecodeVersion(crc, buf)
  {
    hide TakeU32, TakeU64, TakeTiers, Unseal;
    var body := Unseal(crc, buf);
    if body.None? { return None; }
    var cur := new Cursor(body.value);
    var magic := cur.U64();
    if magic.None? || magic.value != MANIFEST_MAGIC { return None; }
    var format := cur.U32();
    if format.None? || format.value != MANIFEST_FORMAT { return None; }
    var nextSeq := cur.U64();
    if nextSeq.None? { return None; }
    var nextTableId := cur.U64();
    if nextTableId.None? { return None; }
    var numTiers := cur.U32();
    if numTiers.None? { return None; }
    var tiers := ReadTiers(cur, numTiers.value);
    if tiers.None? { return None; }
    return Some(Version(tiers.value, nextSeq.value, nextTableId.value));
  }

  // --------------------------------------------------------------- the object

  /** A version and how many handles besides the manifest's own list hold it. */
  class VersionHandle {
    const version: Version
    var pins: nat

    constructor (version: Version)
      ensures this.version == version && pins == 0
    {
      this.version, pins := version, 0;
    }
  }

  /** The superseded versions somebody still holds. */
  function Retained(hs: seq<VersionHandle>): (r: seq<VersionHandle>)
    reads hs
    ensures forall i :: 0 <= i < |r| ==> r[i] in hs && r[i].pins > 0
  {
    if hs == [] then [] else if hs[0].pins > 0 then [hs[0]] + Retained(hs[1..]) else Retained(hs[1..])
  }

  function IdsOf(hs: seq<VersionHandle>): set<nat> {
    if hs == [] then {} else ReferencedIds(hs[0].version) + IdsOf(hs[1..])
  }

  /** No version that somebody holds is forgotten, and none that nobody holds is remembered. */
  lemma {:induction false} RetainedIff(hs: seq<VersionHandle>, h: VersionHandle)
    ensures h in Retained(hs) <==> h in hs && h.pins > 0
  {
    if hs != [] { RetainedIff(hs[1..], h); }
  }

  /** Their ids are all the tables any of them refers to. */
  lemma {:induction false} IdsOfIff(hs: seq<VersionHandle>, id: nat)
    ensures id in IdsOf(hs) <==> exists i :: 0 <= i < |hs| && id in ReferencedIds(hs[i].version)
  {
    hide ReferencedIds;
    if hs != [] {
      IdsOfIff(hs[1..], id);
      if i :| 0 <= i < |hs| && id in ReferencedIds(hs[i].version) && i > 0 {
        assert id in ReferencedIds(hs[1..][i - 1].version);
      }
      if id in IdsOf(hs[1..]) {
        var j :| 0 <= j < |hs[1..]| && id in ReferencedIds(hs[1..][j].version);
        assert hs[j + 1] == hs[1..][j];
      }
    }
  }

  /** What an install issues, when these ids are to be kept. */
  ghost function SwitchOps(crc: Checksum, fs: Fs, v: Version, liveIds: set<nat>): seq<Op> {
    var ops := ReplaceOps(ManifestTmp, ManifestFile, EncodeVersion(crc, v));
    ops + GcOps(FsRun(fs, ops), liveIds)
  }

  class Manifest {
    const fs: SimFs
    const crc: Checksum
    var current: VersionHandle
    var obsolete: seq<VersionHandle>

    constructor (fs: SimFs, crc: Checksum, version: Version)
      ensures this.fs == fs && this.crc == crc && fresh(current) && current.version == version && current.pins == 0 && obsolete == []
    {
      this.fs, this.crc := fs, crc;
      current := new VersionHandle(version);
      obsolete := [];
    }

    /** Pin and return the current version. */
    method Pin() returns (h: VersionHandle)
      modifies current`pins
      ensures h == current && h.pins == old(current.pins) + 1
    {
      current.pins := current.pins + 1;
      h := current;
    }

    method Unpin(h: VersionHandle)
      requires h.pins > 0
      modifies h`pins
      ensures h.pins == old(h.pins) - 1
    {
      h.pins := h.pins - 1;
    }

    /** Durably install `v`, then delete the tables no live version refers to: neither the new one nor one that
        is still pinned. */
    method Install(v: Version)
      requires fs.Valid() && fs.Calm() && ManifestTmp !in fs.View().durable
      modifies this, fs
      ensures fs.Valid() && fs.Calm()
      ensures fresh(current) && current.version == v && current.pins == 0
      ensures obsolete == Retained(old(obsolete) + [old(current)])
      ensures fs.issued == old(fs.issued) + SwitchOps(crc, old(fs.View()), v, ReferencedIds(v) + IdsOf(obsolete))
      ensures fs.View() == FsRun(old(fs.View()), SwitchOps(crc, old(fs.View()), v, ReferencedIds(v) + IdsOf(obsolete)))
    {
      hide Abstract, Disciplined, FsRun, EncodeVersion, Retained, IdsOf, ReferencedIds, GcOps;
      var bytes := EncodeManifest(crc, v);
      ReplaceFile(fs, ManifestTmp, ManifestFile, bytes);
      ghost var mid := fs.View();
      var prev := current;
      current := new VersionHandle(v);
      obsolete := obsolete + [prev];
      obsolete := Retained(obsolete);
      Gc(ReferencedIds(current.version) + IdsOf(obsolete));
      RunThen(old(fs.View()), ReplaceOps(ManifestTmp, ManifestFile, bytes), GcOps(mid, ReferencedIds(v) + IdsOf(obsolete)));
    }

    /** Delete every table file not in the live set, then commit the directory if anything was deleted. */
    method Gc(liveIds: set<nat>)
      requires fs.Valid() && fs.Calm()
      modifies fs
      ensures fs.Valid() && fs.Calm()
      ensures fs.issued == old(fs.issued) + GcOps(old(fs.View()), liveIds)
      ensures fs.View() == FsRun(old(fs.View()), GcOps(old(fs.View()), liveIds))
    {
      hide Abstract, Disciplined, FsRun, FsStep, WellFormed, Step, Crashed, Ascending, Fault, DeleteAll;
      ghost var v := fs.View();
      var names := fs.List();
      var garbage := SortedIds(TableIds(names) - liveIds);
      assert garbage == Ascending(TableIds(v.live.Keys) - liveIds);
      NothingRuns(v, ANYTHING);
      if garbage == [] { return; }
      var i := 0;
      assert garbage[..0] == [] && DeleteAll(TableNames([])) == [] by { NoDeletes(); }
      while i < |garbage|
        invariant 0 <= i <= |garbage| && fs.Valid() && fs.Calm()
        invariant fs.issued == old(fs.issued) + DeleteAll(TableNames(garbage[..i]))
        invariant fs.View() == FsRun(v, DeleteAll(TableNames(garbage[..i])))
      {
        GcStep(v, liveIds, garbage, i);
        fs.SameFault(Op.Delete(Table(garbage[i])));
        var deleted := fs.Delete(Table(garbage[i]));
        assert deleted.Ok?;
        i := i + 1;
      }
      assert garbage[..|garbage|] == garbage;
      RunSnoc(v, DeleteAll(TableNames(garbage)), Op.SyncDir);
      var committed := fs.SyncDir();
    }
  }

  lemma NoDeletes()
    ensures DeleteAll(TableNames([])) == []
  {
  }

  lemma TableNamesSnoc(ids: seq<nat>, id: nat)
    ensures TableNames(ids + [id]) == TableNames(ids) + [Table(id)]
  {
  }

  lemma GcStep(v: Fs, liveIds: set<nat>, garbage: seq<nat>, i: nat)
    requires garbage == Ascending(TableIds(v.live.Keys) - liveIds) && i < |garbage|
    ensures var op, w := Op.Delete(Table(garbage[i])), FsRun(v, DeleteAll(TableNames(garbage[..i])));
      && FsFault(w, op).None? && FsRun(v, DeleteAll(TableNames(garbage[..i + 1]))) == FsStep(w, op)
      && DeleteAll(TableNames(garbage[..i + 1])) == DeleteAll(TableNames(garbage[..i])) + [op]
  {
    hide Ascending, FsRun, FsStep;
    AscendingLists(TableIds(v.live.Keys) - liveIds);
    var op := Op.Delete(Table(garbage[i]));
    assert garbage[..i + 1] == garbage[..i] + [garbage[i]];
    TableNamesSnoc(garbage[..i], garbage[i]);
    DeleteAllSnoc(TableNames(garbage[..i]), Table(garbage[i]));
    RunSnoc(v, DeleteAll(TableNames(garbage[..i])), op);
    DeleteAllRun(v, TableNames(garbage[..i]));
    assert garbage[i] in garbage;
    NotEarlier(garbage, i);
    TableNotNamed(garbage[..i], garbage[i]);
  }

  lemma TableNotNamed(ids: seq<nat>, id: nat)
    requires id !in ids
    ensures Table(id) !in TableNames(ids)
  {
    var names := TableNames(ids);
    forall i | 0 <= i < |names|
      ensures names[i] != Table(id)
    {
      assert ids[i] in ids;
    }
  }

  /** `Manifest::open`: read what is there, or create an empty manifest durably. `None` is a corrupt one. */
  method OpenManifest(fs: SimFs, crc: Checksum) returns (r: Option<Manifest>)
    requires fs.Valid() && fs.Calm() && ManifestTmp !in fs.View().durable
    modifies fs
    ensures fs.Valid() && fs.Calm()
    ensures r.Some? ==> fresh(r.value) && fresh(r.value.current) && r.value.fs == fs && r.value.crc == crc
                        && r.value.obsolete == [] && r.value.current.pins == 0
    ensures ManifestFile in old(fs.View()).live ==>
              var read := DecodeVersion(crc, old(fs.View()).live[ManifestFile].Bytes());
              && (r.Some? <==> read.Some?) && (r.Some? ==> r.value.current.version == read.value)
              && fs.issued == old(fs.issued) && fs.View() == old(fs.View())
    ensures ManifestFile !in old(fs.View()).live ==>
              var ops := ReplaceOps(ManifestTmp, ManifestFile, EncodeVersion(crc, EMPTY_VERSION));
              && r.Some? && r.value.current.version == EMPTY_VERSION
              && fs.issued == old(fs.issued) + ops && fs.View() == FsRun(old(fs.View()), ops)
  {
    hide Abstract, Disciplined, FsRun, EncodeVersion, DecodeVersion, ReplaceOps;
    if fs.Exists(ManifestFile) {
      var buf := fs.Read(ManifestFile);
      var version := DecodeManifest(crc, buf.value);
      if version.None? { return None; }
      var m := new Manifest(fs, crc, version.value);
      return Some(m);
    }
    var bytes := EncodeManifest(crc, EMPTY_VERSION);
    ReplaceFile(fs, ManifestTmp, ManifestFile, bytes);
    var m := new Manifest(fs, crc, EMPTY_VERSION);
    return Some(m);
  }
}
