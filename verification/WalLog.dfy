// The write-ahead log object: appending with a barrier, rotating, releasing, and the
// recovery that precedes it all.

module WalLog {
  import opened Wrappers
  import opened ByteStrings
  import opened Seqs
  import opened Sim
  import opened FsView
  import opened Protocols
  import opened Simulator
  import opened WalModel
  import opened EngineModel
  import LogSafety
  import Frame
  import Scan

  /** Smallest first, as a directory listing yields them. */
  method SortedIds(ids: set<nat>) returns (s: seq<nat>)
    ensures s == Ascending(ids)
  {
    s := [];
    var left := ids;
    while left != {}
      invariant Ascending(ids) == s + Ascending(left)
      decreases |left|
    {
      LeastExists(left);
      var m :| m in left && forall i :: i in left ==> m <= i;
      assert m == Least(left);
      assert s + Ascending(left) == (s + [m]) + Ascending(left - {m});
      s, left := s + [m], left - {m};
    }
    assert s + [] == s;
  }

  /** `list_segments`. */
  method ListSegments(fs: SimFs) returns (ids: seq<nat>)
    requires fs.Valid()
    ensures ids == Ascending(SegmentIds(fs.View().live.Keys))
  {
    var names := fs.List();
    ids := SortedIds(SegmentIds(names));
  }

  /** `read_all`: the whole file, in as many reads as it takes. A missing file reads as empty. */
  method ReadAll(fs: SimFs, name: Name) returns (buf: Bytes)
    requires fs.Valid() && fs.Calm()
    ensures buf == if name in fs.View().live then fs.View().live[name].Bytes() else []
  {
    var whole := fs.Read(name);
    if whole.Err? { return []; }
    var len := |whole.value|;
    buf := [];
    var more := true;
    while more && |buf| < len
      invariant buf <= whole.value
      invariant !more ==> |buf| == len
      decreases len - |buf|, more
    {
      var n := fs.ReadAt(name, |buf|, len - |buf|);
      assert n.Ok? && n.value == whole.value[|buf|..len];
      if n.value == [] { more := false; }
      buf := buf + n.value;
    }
  }

  // ----------------------------------------------------------------- recovery

  /** With the records already recovered in front. */
  function Behind(records: seq<Bytes>, rest: Recovered): Recovered { rest.(records := records + rest.records) }

  /** Whether recovery ends at segment `k`, and with what. */
  function EndsAt(crc: Checksum, img: Image, ids: seq<nat>, k: nat, records: seq<Bytes>): Option<Recovered>
    requires k < |ids| && Segment(ids[k]) in img
  {
    var s := Scan.ScanOf(crc, img[Segment(ids[k])]);
    if s.reason != Scan.Clean || k + 1 == |ids| then Some(Recovered(records + s.records, Some(ids[k]), s.validLen, s.reason))
    else None
  }

  lemma OverStep(crc: Checksum, img: Image, ids: seq<nat>, k: nat, records: seq<Bytes>)
    requires k < |ids| && forall i :: i in ids ==> Segment(i) in img
    ensures Behind(records, RecoverOver(crc, img, ids[k..]))
         == if EndsAt(crc, img, ids, k, records).Some? then EndsAt(crc, img, ids, k, records).value
            else Behind(records + Scan.ScanOf(crc, img[Segment(ids[k])]).records, RecoverOver(crc, img, ids[k + 1..]))
  {
    hide Scan.ScanOf;
    assert ids[k..][1..] == ids[k + 1..];
    var s := Scan.ScanOf(crc, img[Segment(ids[k])]);
    if EndsAt(crc, img, ids, k, records).None? {
      var rest := RecoverOver(crc, img, ids[k + 1..]).records;
      assert records + (s.records + rest) == (records + s.records) + rest;
    }
  }

  /** `recover`. */
  method RecoverLog(fs: SimFs, crc: Checksum) returns (r: Recovered)
    requires fs.Valid() && fs.Calm()
    ensures r == Recover(crc, LiveImage(fs.View()))
  {
    hide Scan.ScanOf, RecoverOver, Abstract, Disciplined, WellFormed, Ascending, LiveImage;
    ghost var img := LiveImage(fs.View());
    var ids := ListSegments(fs);
    LiveBytesOf(fs.View());
    ListedExist(img);
    r := Recovered([], None, 0, Scan.Clean);
    if ids == [] {
      NoneListed(crc, img);
      return;
    }
    ghost var whole := RecoverOver(crc, img, ids);
    assert ids[0..] == ids && Behind([], whole) == whole;
    var k := 0;
    while true
      invariant k < |ids| && whole == Behind(r.records, RecoverOver(crc, img, ids[k..]))
      decreases |ids| - k
    {
      OverStep(crc, img, ids, k, r.records);
      assert ids[k] in ids;
      var buf := ReadAll(fs, Segment(ids[k]));
      var records, validLen, reason := Scan.ScanBuffer(crc, buf, r.records);
      r := Recovered(records, Some(ids[k]), validLen, reason);
      if reason != Scan.Clean || k + 1 == |ids| { return; }
      k := k + 1;
    }
  }

  lemma LiveBytesOf(fs: Fs)
    ensures LiveImage(fs).Keys == fs.live.Keys
    ensures forall n :: n in fs.live ==> LiveImage(fs)[n] == fs.live[n].Bytes()
  {
  }

  /** `truncate_tail`: nothing to do, or the segment is replaced by its valid prefix. */
  method TruncateTail(fs: SimFs, id: nat, validLen: nat) returns (r: Result<(), StorageError>)
    requires fs.Valid() && fs.Calm() && SegmentTmp(id) !in fs.View().durable
    modifies fs
    ensures fs.Valid() && fs.Calm()
    ensures r.Ok? <==> Segment(id) in old(fs.View()).live
    ensures r.Err? ==> fs.issued == old(fs.issued) && fs.View() == old(fs.View())
    ensures r.Ok? ==>
      var buf := old(fs.View()).live[Segment(id)].Bytes();
      var ops := if validLen >= |buf| then [] else ReplaceOps(SegmentTmp(id), Segment(id), buf[..validLen]);
      fs.issued == old(fs.issued) + ops && fs.View() == FsRun(old(fs.View()), ops)
  {
    hide Abstract, Disciplined, FsRun, FsStep;
    var whole := fs.Read(Segment(id));
    if whole.Err? { return Err(whole.error); }
    if validLen >= |whole.value| {
      NothingRuns(fs.View(), ANYTHING);
      return Ok(());
    }
    var buf := ReadAll(fs, Segment(id));
    ReplaceFile(fs, SegmentTmp(id), Segment(id), buf[..validLen]);
    return Ok(());
  }

  function ScratchOps(tmp: Name, bytes: Bytes): seq<Op> {
    [Op.Delete(tmp), Op.Create(tmp), Op.Append(tmp, bytes), Op.SyncFile(tmp)]
  }

  /** A scratch file with these bytes, synced. A stale one must not block the create. */
  method WriteScratch(fs: SimFs, tmp: Name, bytes: Bytes)
    requires fs.Valid() && fs.Calm() && tmp !in fs.View().durable
    modifies fs
    ensures fs.Valid() && fs.Calm() && tmp in fs.View().live && tmp !in fs.View().durable
    ensures fs.issued == old(fs.issued) + ScratchOps(tmp, bytes)
    ensures fs.View() == FsRun(old(fs.View()), ScratchOps(tmp, bytes))
  {
    hide Abstract, Disciplined, FsRun, FsStep, Step, Fault, FsFault, Crashed, WellFormed, SetContent;
    ScratchChain(fs.View(), tmp, bytes);
    var ignored := fs.Delete(tmp);
    fs.SameFault(Op.Create(tmp));
    var created := fs.Create(tmp);
    assert created.Ok?;
    fs.SameFault(Op.Append(tmp, bytes));
    var appended := fs.Append(tmp, bytes);
    assert appended.Ok?;
    fs.SameFault(Op.SyncFile(tmp));
    var synced := fs.SyncFile(tmp);
    assert synced.Ok?;
  }

  /** Scratch file, rename, directory sync: `write_manifest` and the tail of `truncate_tail`. */
  method ReplaceFile(fs: SimFs, tmp: Name, final: Name, bytes: Bytes)
    requires fs.Valid() && fs.Calm() && tmp != final && tmp !in fs.View().durable
    modifies fs
    ensures fs.Valid() && fs.Calm()
    ensures fs.issued == old(fs.issued) + ReplaceOps(tmp, final, bytes)
    ensures fs.View() == FsRun(old(fs.View()), ReplaceOps(tmp, final, bytes))
  {
    hide Abstract, Disciplined, WellFormed, FsRun, FsStep, Step, Fault, FsFault, Crashed;
    ReplaceParts(fs.View(), tmp, final, bytes);
    WriteScratch(fs, tmp, bytes);
    MoveIntoPlace(fs, tmp, final);
  }

  method MoveIntoPlace(fs: SimFs, tmp: Name, final: Name)
    requires fs.Valid() && fs.Calm() && tmp != final && tmp in fs.View().live && tmp !in fs.View().durable
    modifies fs
    ensures fs.Valid() && fs.Calm() && fs.issued == old(fs.issued) + [Op.Rename(tmp, final), Op.SyncDir]
    ensures fs.View() == FsRun(old(fs.View()), [Op.Rename(tmp, final), Op.SyncDir])
  {
    hide Abstract, Disciplined, WellFormed, FsRun, FsStep, Step, Fault, Crashed;
    TwoSteps(fs.View(), Op.Rename(tmp, final), Op.SyncDir);
    fs.SameFault(Op.Rename(tmp, final));
    var renamed := fs.Rename(tmp, final);
    assert renamed.Ok?;
    var committed := fs.SyncDir();
  }

  lemma ReplaceParts(v: Fs, tmp: Name, final: Name, bytes: Bytes)
    ensures var last := [Op.Rename(tmp, final), Op.SyncDir];
      && ReplaceOps(tmp, final, bytes) == ScratchOps(tmp, bytes) + last
      && FsRun(v, ReplaceOps(tmp, final, bytes)) == FsRun(FsRun(v, ScratchOps(tmp, bytes)), last)
  {
    hide FsRun;
    var last := [Op.Rename(tmp, final), Op.SyncDir];
    assert ReplaceOps(tmp, final, bytes) == ScratchOps(tmp, bytes) + last;
    RunThen(v, ScratchOps(tmp, bytes), last);
  }

  /** None of these operations is refused, and none is visible after a crash. */
  lemma ScratchChain(v: Fs, tmp: Name, bytes: Bytes)
    requires tmp !in v.durable
    ensures var ops := ScratchOps(tmp, bytes);
            var v1 := FsStep(v, ops[0]);
            var v2 := FsStep(v1, ops[1]);
            var v3 := FsStep(v2, ops[2]);
            var v4 := FsStep(v3, ops[3]);
      && FsFault(v1, ops[1]).None? && FsFault(v2, ops[2]).None? && FsFault(v3, ops[3]).None?
      && FsRun(v, ops) == v4 && v4.durable == v.durable && tmp in v4.live
  {
    var ops := ScratchOps(tmp, bytes);
    ThreeSteps(v, ops[0], ops[1], ops[2]);
    RunSnoc(v, ops[..3], ops[3]);
    assert ops[..3] == [ops[0], ops[1], ops[2]] && ops == ops[..3] + [ops[3]];
    var v1 := FsStep(v, ops[0]);
    var v2 := FsStep(v1, ops[1]);
    assert v2.durable == v.durable && tmp in v2.live && tmp !in v2.linked;
  }

  // ---------------------------------------------------------------- the object

  /** A handle to one writable segment file: its id and where the next byte goes. */
  class Segment {
    const id: nat
    var writeOffset: nat

    constructor (id: nat, len: nat)
      ensures this.id == id && writeOffset == len
    {
      this.id, writeOffset := id, len;
    }
  }

  class Wal {
    const fs: SimFs
    const crc: Checksum
    const segmentSize: nat
    var active: Segment

    ghost predicate Valid()
      reads this, active, fs
    {
      && fs.Valid() && fs.Calm() && Name.Segment(active.id) in fs.View().live
      && active.writeOffset == |fs.View().live[Name.Segment(active.id)].Bytes()|
    }

    /** The engine state `e` is positioned where this object is. */
    ghost predicate At(cfg: Config, e: Engine)
      reads this, active, fs
    {
      && cfg.codec.crc == crc && cfg.segmentSize == segmentSize
      && e.fs == fs.View() && e.segment == active.id && e.segmentLen == active.writeOffset
    }

    constructor (fs: SimFs, crc: Checksum, segmentSize: nat, active: Segment)
      ensures this.fs == fs && this.crc == crc && this.segmentSize == segmentSize && this.active == active
    {
      this.fs, this.crc, this.segmentSize, this.active := fs, crc, segmentSize, active;
    }

    /** Roll to a fresh segment if the active one has reached its size; refused if the next name is taken. */
    method MaybeRotate(ghost cfg: Config, ghost e: Engine) returns (r: Result<(), StorageError>)
      requires Valid() && At(cfg, e)
      modifies this, fs
      ensures Valid() && (active == old(active) || fresh(active))
      ensures var m := MaybeRotated(cfg, e);
        At(cfg, m.engine) && fs.issued == old(fs.issued) + m.ops && (r.Ok? <==> m.outcome == Done)
    {
      hide Abstract, Disciplined, FsRun, FsStep, WellFormed, Step, Crashed;
      if active.writeOffset < segmentSize { return Ok(()); }
      ghost var v := fs.View();
      var nextId := active.id + 1;
      RotateChain(e);
      fs.SameFault(Op.SyncFile(Name.Segment(active.id)));
      var synced := fs.SyncFile(Name.Segment(active.id));
      assert synced.Ok?;
      fs.SameFault(Op.Create(Name.Segment(nextId)));
      var created := fs.Create(Name.Segment(nextId));
      if created.Err? { return Err(created.error); }
      var committed := fs.SyncDir();
      active := new Segment(nextId, 0);
      return Ok(());
    }

    /** One record, durable before this returns: append, sync, and rotate if due. */
    method Append(payload: Bytes, ghost cfg: Config, ghost e: Engine) returns (r: Result<(), StorageError>)
      requires Valid() && At(cfg, e)
      modifies this, active, fs
      ensures Valid() && (active == old(active) || fresh(active))
      ensures var l := Logged(cfg, e, payload);
        At(cfg, l.engine) && fs.issued == old(fs.issued) + l.ops && (r.Ok? <==> l.outcome == Done)
    {
      hide Abstract, Disciplined, FsRun, FsStep, WellFormed, Step, Crashed, Frame.Encode, RotateOps, Rotated, MaybeRotated, Logged;
      var frame := Frame.Encode(crc, payload);
      var seg := Name.Segment(active.id);
      CommitChain(fs.View(), seg, frame);
      fs.SameFault(Op.Append(seg, frame));
      var at := fs.Append(seg, frame);
      assert at.Ok?;
      active.writeOffset := active.writeOffset + |frame|;
      fs.SameFault(Op.SyncFile(seg));
      var synced := fs.SyncFile(seg);
      assert synced.Ok?;
      ghost var commit := [Op.Append(seg, frame), Op.SyncFile(seg)];
      ghost var e1 := Issue(e, commit).(segmentLen := e.segmentLen + |frame|);
      LoggedIs(cfg, e, payload);
      r := MaybeRotate(cfg, e1);
    }

    /** Replace the whole log by one fresh, empty segment: first the new name becomes durable, then the old ones go. */
    method Release(ghost cfg: Config, ghost e: Engine)
      requires Valid() && At(cfg, e)
      modifies this, fs
      ensures Valid() && (active == old(active) || fresh(active))
      ensures At(cfg, Reset(e).engine) && fs.issued == old(fs.issued) + Reset(e).ops
    {
      hide Abstract, Disciplined, FsRun, FsStep, WellFormed, Step, Crashed, Ascending, Fault, ReleaseOps, LargestId, Exists;
      var existing := ListSegments(fs);
      var nextId := LargestId(existing) + 1;
      NextFree(fs.View(), existing);
      fs.SameFault(Op.Create(Name.Segment(nextId)));
      var created := fs.Create(Name.Segment(nextId));
      assert created.Ok?;
      var named := fs.SyncDir();
      DeleteSegments(fs, existing, e.fs, old(fs.issued));
      var committed := fs.SyncDir();
      Released(e.fs, existing);
      active := new Segment(nextId, 0);
    }
  }

  /** The tail of a release: the old segments go, oldest first. */
  method DeleteSegments(fs: SimFs, existing: seq<nat>, ghost v: Fs, ghost before: seq<Op>)
    requires fs.Valid() && fs.Calm() && existing == Ascending(SegmentIds(v.live.Keys))
    requires fs.issued == before + ReleaseOps(existing, 0) && fs.View() == FsRun(v, ReleaseOps(existing, 0))
    modifies fs
    ensures fs.Valid() && fs.Calm()
    ensures fs.issued == before + ReleaseOps(existing, |existing|) && fs.View() == FsRun(v, ReleaseOps(existing, |existing|))
  {
    hide Abstract, Disciplined, FsRun, FsStep, WellFormed, Step, Crashed, Ascending, Fault, ReleaseOps;
    var i := 0;
    while i < |existing|
      invariant 0 <= i <= |existing| && fs.Valid() && fs.Calm()
      invariant fs.issued == before + ReleaseOps(existing, i)
      invariant fs.View() == FsRun(v, ReleaseOps(existing, i))
    {
      ReleaseStep(v, existing, i);
      fs.SameFault(Op.Delete(Name.Segment(existing[i])));
      var deleted := fs.Delete(Name.Segment(existing[i]));
      assert deleted.Ok?;
      i := i + 1;
    }
  }

  /** The release up to and including the deletion of `i` segments. */
  function ReleaseOps(existing: seq<nat>, i: nat): seq<Op>
    requires i <= |existing|
  {
    [Op.Create(Name.Segment(LargestId(existing) + 1)), Op.SyncDir] + DeleteAll(SegmentNames(existing[..i]))
  }

  lemma NextFree(v: Fs, existing: seq<nat>)
    requires existing == Ascending(SegmentIds(v.live.Keys))
    ensures var op := Op.Create(Name.Segment(LargestId(existing) + 1));
      && FsFault(v, op).None? && FsRun(v, ReleaseOps(existing, 0)) == FsStep(FsStep(v, op), Op.SyncDir)
      && ReleaseOps(existing, 0) == [op, Op.SyncDir]
  {
    hide Ascending;
    NextAbsent(v, existing);
    var first := [Op.Create(Name.Segment(LargestId(existing) + 1)), Op.SyncDir];
    TwoSteps(v, first[0], first[1]);
    assert existing[..0] == [] && first + DeleteAll(SegmentNames([])) == first;
  }

  lemma {:induction false} DeleteAllSnoc(names: seq<Name>, n: Name)
    ensures DeleteAll(names + [n]) == DeleteAll(names) + [Op.Delete(n)]
  {
    if names == [] {
      assert names + [n] == [n] && [n][1..] == [];
    } else {
      assert (names + [n])[1..] == names[1..] + [n];
      DeleteAllSnoc(names[1..], n);
    }
  }

  lemma SegmentNamesSnoc(ids: seq<nat>, id: nat)
    ensures SegmentNames(ids + [id]) == SegmentNames(ids) + [Name.Segment(id)]
  {
  }

  /** The segment to delete next is still there. */
  lemma ReleaseStep(v: Fs, existing: seq<nat>, i: nat)
    requires existing == Ascending(SegmentIds(v.live.Keys)) && i < |existing|
    ensures var op, w := Op.Delete(Name.Segment(existing[i])), FsRun(v, ReleaseOps(existing, i));
      && FsFault(w, op).None? && FsRun(v, ReleaseOps(existing, i + 1)) == FsStep(w, op)
      && ReleaseOps(existing, i + 1) == ReleaseOps(existing, i) + [op]
  {
    hide Ascending, FsRun, FsStep;
    AscendingLists(SegmentIds(v.live.Keys));
    var op := Op.Delete(Name.Segment(existing[i]));
    assert existing[..i + 1] == existing[..i] + [existing[i]];
    SegmentNamesSnoc(existing[..i], existing[i]);
    DeleteAllSnoc(SegmentNames(existing[..i]), Name.Segment(existing[i]));
    RunSnoc(v, ReleaseOps(existing, i), op);
    assert ReleaseOps(existing, i + 1) == ReleaseOps(existing, i) + [op];
    var next := [Op.Create(Name.Segment(LargestId(existing) + 1)), Op.SyncDir];
    RunThen(v, next, DeleteAll(SegmentNames(existing[..i])));
    CreatedKeeps(v, LargestId(existing) + 1);
    DeleteAllRun(FsRun(v, next), SegmentNames(existing[..i]));
    assert existing[i] in existing;
    SegmentIdIn(v.live.Keys, existing[i]);
    SegmentNamed(existing[..i], existing[i]);
    NotEarlier(existing, i);
  }

  lemma NotEarlier(ids: seq<nat>, i: nat)
    requires Ascends(ids) && i < |ids|
    ensures ids[i] !in ids[..i]
  {
  }

  lemma CreatedKeeps(v: Fs, id: nat)
    ensures forall n :: n in v.live ==> n in FsRun(v, [Op.Create(Name.Segment(id)), Op.SyncDir]).live
  {
    TwoSteps(v, Op.Create(Name.Segment(id)), Op.SyncDir);
  }

  lemma ReleaseOpsAll(existing: seq<nat>)
    ensures ReleaseOps(existing, |existing|)
         == [Op.Create(Name.Segment(LargestId(existing) + 1)), Op.SyncDir] + DeleteAll(SegmentNames(existing))
  {
    assert existing[..|existing|] == existing;
  }

  /** After the last barrier the fresh segment is there, empty. */
  lemma Released(v: Fs, existing: seq<nat>)
    requires existing == Ascending(SegmentIds(v.live.Keys))
    ensures var next := LargestId(existing) + 1;
            var first, gone := [Op.Create(Name.Segment(next)), Op.SyncDir], DeleteAll(SegmentNames(existing));
            var w := FsStep(FsRun(v, ReleaseOps(existing, |existing|)), Op.SyncDir);
      && FsRun(v, first + (gone + [Op.SyncDir])) == w && first + (gone + [Op.SyncDir]) == ReleaseOps(existing, |existing|) + [Op.SyncDir]
      && Name.Segment(next) in w.live && w.live[Name.Segment(next)].Bytes() == []
  {
    hide Ascending, FsRun, FsStep, DeleteAll, ReleaseOps, SegmentIds, Ascends;
    var next := LargestId(existing) + 1;
    var first, gone := [Op.Create(Name.Segment(next)), Op.SyncDir], DeleteAll(SegmentNames(existing));
    NextAbsent(v, existing);
    CreatedEmpty(v, next);
    ReleaseOpsAll(existing);
    RunThen(v, first, gone);
    DeletedOthers(FsRun(v, first), SegmentNames(existing), Name.Segment(next));
    RunSnoc(v, ReleaseOps(existing, |existing|), Op.SyncDir);
    Assoc(first, gone, [Op.SyncDir]);
  }

  lemma NextAbsent(v: Fs, existing: seq<nat>)
    requires existing == Ascending(SegmentIds(v.live.Keys))
    ensures Name.Segment(LargestId(existing) + 1) !in v.live
    ensures Name.Segment(LargestId(existing) + 1) !in SegmentNames(existing)
  {
    hide Ascending;
    AscendingLists(SegmentIds(v.live.Keys));
    LogSafety.LargestIsLast(existing);
    SegmentIdIn(v.live.Keys, LargestId(existing) + 1);
    SegmentNamed(existing, LargestId(existing) + 1);
  }

  lemma CreatedEmpty(v: Fs, id: nat)
    requires Name.Segment(id) !in v.live
    ensures var w := FsRun(v, [Op.Create(Name.Segment(id)), Op.SyncDir]);
            Name.Segment(id) in w.live && w.live[Name.Segment(id)] == Content([], [])
  {
    TwoSteps(v, Op.Create(Name.Segment(id)), Op.SyncDir);
  }

  lemma DeletedOthers(v: Fs, names: seq<Name>, n: Name)
    requires n in v.live && n !in names
    ensures var w := FsStep(FsRun(v, DeleteAll(names)), Op.SyncDir); n in w.live && w.live[n] == v.live[n]
  {
    hide DeleteAll, FsRun;
    DeleteAllRun(v, names);
  }

  function MaybeRotated(cfg: Config, e: Engine): Effect {
    if e.segmentLen < cfg.segmentSize then Effect(e, [], Done) else Rotated(e)
  }

  lemma LoggedIs(cfg: Config, e: Engine, payload: Bytes)
    ensures var frame := Frame.Encode(cfg.codec.crc, payload);
            var commit := [Op.Append(Name.Segment(e.segment), frame), Op.SyncFile(Name.Segment(e.segment))];
            var e1 := Issue(e, commit).(segmentLen := e.segmentLen + |frame|);
            Logged(cfg, e, payload) == Sequel(Effect(e1, commit, Done), MaybeRotated(cfg, e1))
  {
    hide Frame.Encode, FsRun, Rotated;
    var frame := Frame.Encode(cfg.codec.crc, payload);
    var commit := [Op.Append(Name.Segment(e.segment), frame), Op.SyncFile(Name.Segment(e.segment))];
    assert commit + [] == commit;
  }

  lemma CommitChain(v: Fs, seg: Name, frame: Bytes)
    requires seg in v.live
    ensures var v1 := FsStep(v, Op.Append(seg, frame));
            var v2 := FsStep(v1, Op.SyncFile(seg));
      && FsFault(v, Op.Append(seg, frame)).None? && FsFault(v1, Op.SyncFile(seg)).None?
      && FsRun(v, [Op.Append(seg, frame), Op.SyncFile(seg)]) == v2
      && seg in v2.live && |v2.live[seg].Bytes()| == |v.live[seg].Bytes()| + |frame|
  {
    TwoSteps(v, Op.Append(seg, frame), Op.SyncFile(seg));
  }

  lemma RotateChain(e: Engine)
    requires Name.Segment(e.segment) in e.fs.live
    ensures var ops := RotateOps(e);
            var v1 := FsStep(e.fs, ops[0]);
            var v2 := FsStep(v1, ops[1]);
            var v3 := FsStep(v2, ops[2]);
      && FsFault(e.fs, ops[0]).None? && FsRun(e.fs, ops) == v3 && FsRun(e.fs, ops[..2]) == v2
      && (FsFault(v1, ops[1]).Some? <==> Name.Segment(e.segment + 1) in e.fs.live)
      && (FsFault(v1, ops[1]).None? ==> Name.Segment(e.segment + 1) in v3.live && v3.live[Name.Segment(e.segment + 1)].Bytes() == [])
      && Name.Segment(e.segment) in v2.live && |v2.live[Name.Segment(e.segment)].Bytes()| == |e.fs.live[Name.Segment(e.segment)].Bytes()|
  {
    var ops := RotateOps(e);
    ThreeSteps(e.fs, ops[0], ops[1], ops[2]);
    TwoSteps(e.fs, ops[0], ops[1]);
    assert ops[..2] == [ops[0], ops[1]];
  }

  // ------------------------------------------------------------------ opening

  lemma {:induction false} TailListed(crc: Checksum, img: Image, ids: seq<nat>)
    requires forall i :: i in ids ==> Name.Segment(i) in img
    ensures var r := RecoverOver(crc, img, ids);
      && (r.tailSegment.Some? ==> Name.Segment(r.tailSegment.value) in img)
      && (r.tailSegment.None? ==> r.reason == Scan.Clean)
    decreases |ids|
  {
    hide Scan.ScanOf;
    if ids != [] {
      assert ids[0] in ids;
      assert forall i :: i in ids[1..] ==> i in ids;
      TailListed(crc, img, ids[1..]);
    }
  }

  ghost function OpenOps(v: Fs, r: Recovered): seq<Op> {
    RepairOps(v, r) + FirstSegmentOps(FsRun(v, RepairOps(v, r)))
  }

  /** `Wal::open`: recover, cut back a dirty tail, and adopt the last segment or create the first. */
  method OpenWal(fs: SimFs, crc: Checksum, segmentSize: nat) returns (wal: Wal, recovered: Recovered)
    requires fs.Valid() && fs.Calm() && forall id: nat :: SegmentTmp(id) !in fs.View().durable
    modifies fs
    ensures wal.Valid() && fresh(wal) && fresh(wal.active) && wal.fs == fs && wal.crc == crc && wal.segmentSize == segmentSize
    ensures recovered == Recover(crc, LiveImage(old(fs.View())))
    ensures fs.issued == old(fs.issued) + OpenOps(old(fs.View()), recovered)
    ensures fs.View() == FsRun(old(fs.View()), OpenOps(old(fs.View()), recovered))
    ensures wal.active.id == LargestId(Ascending(SegmentIds(fs.View().live.Keys)))
  {
    hide Abstract, Disciplined, FsRun, FsStep, WellFormed, Ascending, Recover, LiveImage, SegmentIds, RepairOps, FirstSegmentOps;
    ghost var v := fs.View();
    recovered := RecoverLog(fs, crc);
    RepairTail(fs, crc, recovered);
    RunThen(v, RepairOps(v, recovered), FirstSegmentOps(fs.View()));
    var active := AdoptSegment(fs);
    wal := new Wal(fs, crc, segmentSize, active);
  }

  /** If the tail ended dirty, truncate it to the clean prefix. */
  method RepairTail(fs: SimFs, crc: Checksum, recovered: Recovered)
    requires fs.Valid() && fs.Calm() && (forall id: nat :: SegmentTmp(id) !in fs.View().durable)
    requires recovered == Recover(crc, LiveImage(fs.View()))
    modifies fs
    ensures fs.Valid() && fs.Calm()
    ensures fs.issued == old(fs.issued) + RepairOps(old(fs.View()), recovered)
    ensures fs.View() == FsRun(old(fs.View()), RepairOps(old(fs.View()), recovered))
  {
    hide Abstract, Disciplined, FsRun, FsStep, WellFormed, Ascending, RecoverOver, LiveImage, SegmentIds;
    ghost var v := fs.View();
    ListedExist(LiveImage(v));
    TailListed(crc, LiveImage(v), Ascending(SegmentIds(LiveImage(v).Keys)));
    LiveBytesOf(v);
    NothingRuns(v, ANYTHING);
    if recovered.reason != Scan.Clean && recovered.tailSegment.Some? {
      var truncated := TruncateTail(fs, recovered.tailSegment.value, recovered.tailValidLen);
      assert truncated.Ok?;
    }
  }

  /** Reopen the last segment if there is one, else create the first and make its name durable. */
  method AdoptSegment(fs: SimFs) returns (active: Segment)
    requires fs.Valid() && fs.Calm()
    modifies fs
    ensures fs.Valid() && fs.Calm() && fresh(active)
    ensures fs.issued == old(fs.issued) + FirstSegmentOps(old(fs.View()))
    ensures fs.View() == FsRun(old(fs.View()), FirstSegmentOps(old(fs.View())))
    ensures active.id == LargestId(Ascending(SegmentIds(fs.View().live.Keys)))
    ensures Name.Segment(active.id) in fs.View().live && active.writeOffset == |fs.View().live[Name.Segment(active.id)].Bytes()|
  {
    hide Abstract, Disciplined, FsRun, FsStep, WellFormed, Step, Crashed, Ascending, Fault, SegmentIds;
    ghost var w := fs.View();
    var ids := ListSegments(fs);
    ListedOrNone(w);
    NothingRuns(w, ANYTHING);
    if ids != [] {
      var id := ids[|ids| - 1];
      var whole := fs.Read(Name.Segment(id));
      assert whole.Ok?;
      active := new Segment(id, |whole.value|);
    } else {
      FirstChain(w);
      fs.SameFault(Op.Create(Name.Segment(1)));
      var created := fs.Create(Name.Segment(1));
      assert created.Ok?;
      var named := fs.SyncDir();
      active := new Segment(1, 0);
    }
  }

  /** The last listed id names a file; with none listed there is no segment. */
  lemma ListedOrNone(w: Fs)
    ensures var ids := Ascending(SegmentIds(w.live.Keys));
      && (ids == [] <==> SegmentIds(w.live.Keys) == {})
      && (ids != [] ==> Name.Segment(ids[|ids| - 1]) in w.live)
  {
    hide Ascending;
    var ids := Ascending(SegmentIds(w.live.Keys));
    AscendingLists(SegmentIds(w.live.Keys));
    if ids != [] {
      assert ids[|ids| - 1] in ids;
      SegmentIdIn(w.live.Keys, ids[|ids| - 1]);
    }
    if SegmentIds(w.live.Keys) != {} {
      var i :| i in SegmentIds(w.live.Keys);
      assert i in ids;
    }
  }

  lemma FirstChain(w: Fs)
    requires SegmentIds(w.live.Keys) == {}
    ensures var op := Op.Create(Name.Segment(1));
            var z := FsStep(FsStep(w, op), Op.SyncDir);
      && FsFault(w, op).None? && FirstSegmentOps(w) == [op, Op.SyncDir] && FsRun(w, [op, Op.SyncDir]) == z
      && Name.Segment(1) in z.live && z.live[Name.Segment(1)].Bytes() == [] && Ascending(SegmentIds(z.live.Keys)) == [1]
  {
    var op := Op.Create(Name.Segment(1));
    SegmentIdIn(w.live.Keys, 1);
    TwoSteps(w, op, Op.SyncDir);
    var z := FsStep(FsStep(w, op), Op.SyncDir);
    assert z.live.Keys == w.live.Keys + {Name.Segment(1)};
    assert SegmentIds(z.live.Keys) == SegmentIds(w.live.Keys) + {1};
    AscendingLists({1});
    AscendingUnique(Ascending({1}), [1]);
  }
}
