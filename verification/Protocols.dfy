// The engine's storage protocols as lists of operations, and what a crash can
// leave at each of their points. Only a directory sync, and a sync of a file that
// is already durably named, change what is on disk for certain.

module Protocols {
  import opened Wrappers
  import opened ByteStrings
  import opened Sim
  import opened FsView

  // ------------------------------------------------------- runs and crash points

  /** The power losses to be survived: those with this tear, each of which has to leave an image that is accepted. */
  datatype Goal = Goal(tear: Tear, accepts: Image -> bool)

  const ANYTHING := Goal(Drop, (img: Image) => true)

  /** Everything such a power loss may leave in this state is accepted. */
  ghost predicate CrashSafe(fs: Fs, ok: Goal) {
    forall torn :: TearAllowed(fs, torn, ok.tear) ==> ok.accepts(CrashImage(fs, torn, ok.tear))
  }

  /** Every operation is one the engine may issue, and a crash before, between or after them is safe. */
  ghost predicate SafeRun(fs: Fs, ops: seq<Op>, ok: Goal)
    decreases |ops|
  {
    CrashSafe(fs, ok) && (ops == [] || (Legal(fs, ops[0]) && SafeRun(FsStep(fs, ops[0]), ops[1..], ok)))
  }

  lemma {:induction false} RunSnoc(fs: Fs, ops: seq<Op>, op: Op)
    ensures FsRun(fs, ops + [op]) == FsStep(FsRun(fs, ops), op)
    decreases |ops|
  {
    hide FsStep;
    if ops == [] {
      assert [op][1..] == [] && ops + [op] == [op];
    } else {
      assert (ops + [op])[1..] == ops[1..] + [op];
      RunSnoc(FsStep(fs, ops[0]), ops[1..], op);
    }
  }

  lemma {:induction false} RunThen(fs: Fs, a: seq<Op>, b: seq<Op>)
    ensures FsRun(fs, a + b) == FsRun(FsRun(fs, a), b)
    decreases |a|
  {
    hide FsStep;
    if a == [] {
      assert a + b == b;
    } else {
      assert (a + b)[1..] == a[1..] + b;
      RunThen(FsStep(fs, a[0]), a[1..], b);
    }
  }

  lemma TwoSteps(fs: Fs, a: Op, b: Op)
    ensures FsRun(fs, [a, b]) == FsStep(FsStep(fs, a), b)
  {
    hide FsStep;
    OneStep(fs, a);
    RunSnoc(fs, [a], b);
    assert [a] + [b] == [a, b];
  }

  lemma ThreeSteps(fs: Fs, a: Op, b: Op, c: Op)
    ensures FsRun(fs, [a, b, c]) == FsStep(FsStep(FsStep(fs, a), b), c)
  {
    hide FsStep;
    TwoSteps(fs, a, b);
    RunSnoc(fs, [a, b], c);
    assert [a, b] + [c] == [a, b, c];
  }

  lemma OneStep(fs: Fs, op: Op)
    ensures FsRun(fs, [op]) == FsStep(fs, op)
    ensures LegalRun(fs, [op]) <==> Legal(fs, op)
    ensures AllVolatile(fs, [op]) <==> Volatile(fs, op)
  {
    assert [op][1..] == [];
  }

  lemma NothingRuns(fs: Fs, ok: Goal)
    ensures FsRun(fs, []) == fs && (CrashSafe(fs, ok) ==> SafeRun(fs, [], ok))
  {
  }

  lemma {:induction false} SafeRunLegal(fs: Fs, ops: seq<Op>, ok: Goal)
    requires SafeRun(fs, ops, ok)
    ensures LegalRun(fs, ops) && CrashSafe(FsRun(fs, ops), ok)
    decreases |ops|
  {
    if ops != [] { SafeRunLegal(FsStep(fs, ops[0]), ops[1..], ok); }
  }

  lemma {:induction false} RunConcat(fs: Fs, a: seq<Op>, b: seq<Op>)
    requires LegalRun(fs, a) && LegalRun(FsRun(fs, a), b)
    ensures LegalRun(fs, a + b) && FsRun(fs, a + b) == FsRun(FsRun(fs, a), b)
    decreases |a|
  {
    if a == [] {
      assert a + b == b;
    } else {
      assert (a + b)[1..] == a[1..] + b;
      RunConcat(FsStep(fs, a[0]), a[1..], b);
    }
  }

  lemma {:induction false} SafeConcat(fs: Fs, a: seq<Op>, b: seq<Op>, ok: Goal)
    requires SafeRun(fs, a, ok) && LegalRun(fs, a) && SafeRun(FsRun(fs, a), b, ok)
    ensures SafeRun(fs, a + b, ok)
    ensures LegalRun(fs, a + b) && LegalRun(FsRun(fs, a), b) && FsRun(fs, a + b) == FsRun(FsRun(fs, a), b)
    decreases |a|
  {
    if a == [] {
      assert a + b == b;
      SafeRunLegal(fs, b, ok);
    } else {
      assert (a + b)[1..] == a[1..] + b;
      SafeConcat(FsStep(fs, a[0]), a[1..], b, ok);
    }
  }

  /** A safe run, cut anywhere, was safe where it was cut. */
  lemma {:induction false} SafeAtCut(fs: Fs, ops: seq<Op>, ok: Goal, n: nat)
    requires SafeRun(fs, ops, ok) && n <= |ops|
    ensures LegalRun(fs, ops[..n]) && CrashSafe(FsRun(fs, ops[..n]), ok)
    decreases |ops|
  {
    if n > 0 {
      SafeAtCut(FsStep(fs, ops[0]), ops[1..], ok, n - 1);
      assert ops[..n][1..] == ops[1..][..n - 1];
    }
  }

  // --------------------------------------------------------- volatile operations

  /** An operation that leaves the durable state as it is. */
  predicate Volatile(fs: Fs, op: Op) {
    match op
    case Create(_) => true
    case Append(n, _) => n !in fs.linked
    case SyncFile(n) => n !in fs.linked
    case Rename(from, to) => from != to && from !in fs.durable
    case Delete(_) => true
    case _ => false
  }

  lemma VolatileStep(fs: Fs, op: Op)
    requires Volatile(fs, op)
    ensures Legal(fs, op) && FsStep(fs, op).durable == fs.durable
  {
  }

  lemma CrashSafeDurable(fs: Fs, fs': Fs, ok: Goal)
    requires fs.durable == fs'.durable && CrashSafe(fs, ok)
    ensures CrashSafe(fs', ok)
  {
    forall torn | TearAllowed(fs', torn, ok.tear)
      ensures ok.accepts(CrashImage(fs', torn, ok.tear))
    {
      assert TearAllowed(fs, torn, ok.tear);
      assert CrashImage(fs', torn, ok.tear) == CrashImage(fs, torn, ok.tear);
    }
  }

  predicate AllVolatile(fs: Fs, ops: seq<Op>)
    decreases |ops|
  {
    ops == [] || (Volatile(fs, ops[0]) && Legal(fs, ops[0]) && AllVolatile(FsStep(fs, ops[0]), ops[1..]))
  }

  /** Volatile operations can be interrupted anywhere without a trace. */
  lemma {:induction false} VolatileRun(fs: Fs, ops: seq<Op>, ok: Goal)
    requires AllVolatile(fs, ops) && CrashSafe(fs, ok)
    ensures SafeRun(fs, ops, ok) && LegalRun(fs, ops) && FsRun(fs, ops).durable == fs.durable
    decreases |ops|
  {
    if ops != [] {
      VolatileStep(fs, ops[0]);
      CrashSafeDurable(fs, FsStep(fs, ops[0]), ok);
      VolatileRun(FsStep(fs, ops[0]), ops[1..], ok);
    }
  }

  lemma {:induction false} VolatileConcat(fs: Fs, a: seq<Op>, b: seq<Op>)
    requires AllVolatile(fs, a) && LegalRun(fs, a) && AllVolatile(FsRun(fs, a), b)
    ensures AllVolatile(fs, a + b)
    decreases |a|
  {
    if a == [] {
      assert a + b == b;
    } else {
      assert (a + b)[1..] == a[1..] + b;
      VolatileConcat(FsStep(fs, a[0]), a[1..], b);
    }
  }

  // ----------------------------------------------------------- states of the view

  /** Everything in `img` is on disk; the files of `extra` are written and synced, but not yet durably named. */
  function Staged(img: Image, extra: Image): Fs {
    Fs(SettledFs(img + extra).live, SettledFs(img).durable, img.Keys - extra.Keys)
  }

  predicate NoScratch(img: Image) {
    ManifestTmp !in img && forall n :: n in img ==> !n.SegmentTmp?
  }

  lemma SettledBytes(img: Image, n: Name)
    requires n in img
    ensures n in SettledFs(img).live && SettledFs(img).live[n].Bytes() == img[n]
  {
  }

  lemma StagedNothing(img: Image)
    ensures Staged(img, map[]) == SettledFs(img)
  {
    assert img + map[] == img;
  }

  lemma StagedImage(img: Image, extra: Image)
    ensures ImageOf(Staged(img, extra)) == img
  {
  }

  /** With nothing buffered in durable files, a crash leaves exactly the durable image. */
  lemma StagedCrashSafe(img: Image, extra: Image, ok: Goal)
    requires ok.accepts(img)
    ensures CrashSafe(Staged(img, extra), ok)
  {
    var fs := Staged(img, extra);
    StagedImage(img, extra);
    forall torn | TearAllowed(fs, torn, ok.tear)
      ensures CrashImage(fs, torn, ok.tear) == img
    {
      if torn.Some? {
        var t := Sim.TornTail(fs.durable[torn.value].tail, ok.tear);
        assert t == [];
        assert fs.durable[torn.value].synced + t == img[torn.value];
      }
    }
  }

  lemma SettledCrashSafe(img: Image, ok: Goal)
    requires ok.accepts(img)
    ensures CrashSafe(SettledFs(img), ok)
  {
    StagedNothing(img);
    StagedCrashSafe(img, map[], ok);
  }

  // ------------------------------------------------------------ replacing a file

  /** `write_manifest` and `truncate_tail`: scratch file, sync, rename, directory sync. */
  function ReplaceOps(tmp: Name, final: Name, bytes: Bytes): seq<Op> {
    [Delete(tmp), Create(tmp), Append(tmp, bytes), SyncFile(tmp), Rename(tmp, final), SyncDir]
  }

  /** Atomic switch: at every crash point of a replacement the disk holds exactly the old image or
      exactly the new one, in which the staged files have become durable together with the new file. */
  lemma ReplaceRun(img: Image, extra: Image, tmp: Name, final: Name, bytes: Bytes, ok: Goal)
    requires tmp != final && tmp !in img && tmp !in extra && final !in extra
    requires img.Keys !! extra.Keys
    requires ok.accepts(img) && ok.accepts((img + extra)[final := bytes])
    ensures SafeRun(Staged(img, extra), ReplaceOps(tmp, final, bytes), ok)
    ensures LegalRun(Staged(img, extra), ReplaceOps(tmp, final, bytes))
    ensures FsRun(Staged(img, extra), ReplaceOps(tmp, final, bytes)) == SettledFs((img + extra)[final := bytes])
  {
    var s0 := Staged(img, extra);
    var before := ReplaceOps(tmp, final, bytes)[..5];
    var goal := (img + extra)[final := bytes];
    assert ReplaceOps(tmp, final, bytes) == before + [SyncDir];
    ReplaceSteps(img, extra, tmp, final, bytes);
    StagedCrashSafe(img, extra, ok);
    VolatileRun(s0, before, ok);
    var s5 := FsRun(s0, before);
    CrashSafeDurable(s0, s5, ok);
    CommitRun(s5, goal, ok);
    SafeConcat(s0, before, [SyncDir], ok);
  }

  /** Deleting and creating the scratch file. */
  lemma ScratchCreated(s0: Fs, tmp: Name)
    requires tmp !in s0.live && tmp !in s0.linked
    ensures FsStep(s0, Delete(tmp)) == s0
    ensures FsStep(s0, Create(tmp)) == s0.(live := s0.live[tmp := Content([], [])])
  {
  }

  /** Writing and syncing it. */
  lemma ScratchWritten(s0: Fs, tmp: Name, bytes: Bytes)
    requires tmp !in s0.linked
    ensures var s2 := s0.(live := s0.live[tmp := Content([], [])]);
            var s3 := s0.(live := s0.live[tmp := Content([], bytes)]);
      && FsStep(s2, Append(tmp, bytes)) == s3
      && FsStep(s3, SyncFile(tmp)) == s0.(live := s0.live[tmp := Content(bytes, [])])
  {
    assert [] + bytes == bytes;
    var s2 := s0.(live := s0.live[tmp := Content([], [])]);
    assert s2.live[tmp := Content([], bytes)] == s0.live[tmp := Content([], bytes)];
  }

  /** Renaming it over the old file. */
  lemma ScratchRenamed(img: Image, extra: Image, tmp: Name, final: Name, bytes: Bytes)
    requires tmp != final && tmp !in img && tmp !in extra && final !in extra && img.Keys !! extra.Keys
    ensures var fs := Staged(img, extra);
            var s4 := fs.(live := fs.live[tmp := Content(bytes, [])]);
            var s5 := FsStep(s4, Rename(tmp, final));
      && s5.live == SettledFs((img + extra)[final := bytes]).live && s5.durable == fs.durable && Legal(s4, Rename(tmp, final))
  {
  }

  /** Up to the directory sync nothing durable changes, and then the live namespace is the new image. */
  lemma ReplaceSteps(img: Image, extra: Image, tmp: Name, final: Name, bytes: Bytes)
    requires tmp != final && tmp !in img && tmp !in extra && final !in extra
    requires img.Keys !! extra.Keys
    ensures var fs, before := Staged(img, extra), ReplaceOps(tmp, final, bytes)[..5];
      && AllVolatile(fs, before) && LegalRun(fs, before)
      && FsRun(fs, before).live == SettledFs((img + extra)[final := bytes]).live
      && FsRun(fs, before).durable == fs.durable
  {
    hide FsStep, SettledFs, FsRun, AllVolatile, LegalRun;
    var s0 := Staged(img, extra);
    var ops := ReplaceOps(tmp, final, bytes)[..5];
    assert ops == [Delete(tmp), Create(tmp), Append(tmp, bytes), SyncFile(tmp), Rename(tmp, final)];
    StagedNames(img, extra, tmp);
    ScratchCreated(s0, tmp);
    ScratchWritten(s0, tmp, bytes);
    ScratchRenamed(img, extra, tmp, final, bytes);
    FiveSteps(s0, ops);
  }

  lemma StagedNames(img: Image, extra: Image, n: Name)
    requires n !in img && n !in extra
    ensures n !in Staged(img, extra).live && n !in Staged(img, extra).linked && n !in Staged(img, extra).durable
  {
  }

  lemma FiveSteps(fs: Fs, ops: seq<Op>)
    requires |ops| == 5
    requires Legal(fs, ops[0]) && Legal(FsStep(fs, ops[0]), ops[1])
    requires var s2 := FsStep(FsStep(fs, ops[0]), ops[1]); Legal(s2, ops[2]) && Legal(FsStep(s2, ops[2]), ops[3])
    requires var s2 := FsStep(FsStep(fs, ops[0]), ops[1]);
             var s4 := FsStep(FsStep(s2, ops[2]), ops[3]); Legal(s4, ops[4])
    requires Volatile(fs, ops[0]) && Volatile(FsStep(fs, ops[0]), ops[1])
    requires var s2 := FsStep(FsStep(fs, ops[0]), ops[1]); Volatile(s2, ops[2]) && Volatile(FsStep(s2, ops[2]), ops[3])
    requires var s2 := FsStep(FsStep(fs, ops[0]), ops[1]);
             var s4 := FsStep(FsStep(s2, ops[2]), ops[3]); Volatile(s4, ops[4])
    ensures AllVolatile(fs, ops) && LegalRun(fs, ops)
    ensures FsRun(fs, ops) == FsStep(FsStep(FsStep(FsStep(FsStep(fs, ops[0]), ops[1]), ops[2]), ops[3]), ops[4])
  {
    var s2 := FsStep(FsStep(fs, ops[0]), ops[1]);
    var s4 := FsStep(FsStep(s2, ops[2]), ops[3]);
    var s5 := FsStep(s4, ops[4]);
    assert ops[4..][1..] == [] && ops[3..][1..] == ops[4..] && ops[2..][1..] == ops[3..] && ops[1..][1..] == ops[2..];
    assert AllVolatile(s4, ops[4..]) && LegalRun(s4, ops[4..]) && FsRun(s4, ops[4..]) == s5;
    assert AllVolatile(s2, ops[2..]) && LegalRun(s2, ops[2..]) && FsRun(s2, ops[2..]) == s5;
  }

  // ------------------------------------------------------------- writing a table

  function AppendAll(n: Name, chunks: seq<Bytes>): seq<Op> {
    if chunks == [] then [] else [Append(n, chunks[0])] + AppendAll(n, chunks[1..])
  }

  lemma {:induction false} AppendAllSnoc(n: Name, chunks: seq<Bytes>, chunk: Bytes)
    ensures AppendAll(n, chunks + [chunk]) == AppendAll(n, chunks) + [Append(n, chunk)]
  {
    if chunks == [] {
      assert chunks + [chunk] == [chunk] && [chunk][1..] == [];
    } else {
      assert (chunks + [chunk])[1..] == chunks[1..] + [chunk];
      AppendAllSnoc(n, chunks[1..], chunk);
    }
  }

  function Joined(chunks: seq<Bytes>): Bytes {
    if chunks == [] then [] else chunks[0] + Joined(chunks[1..])
  }

  /** A table file: created, appended chunk by chunk, synced once. Its name is not synced here. */
  function WriteFileOps(n: Name, chunks: seq<Bytes>): seq<Op> {
    [Create(n)] + AppendAll(n, chunks) + [SyncFile(n)]
  }

  /** One append to a file that is not durably named. */
  lemma AppendOnce(fs: Fs, n: Name, data: Bytes)
    requires n in fs.live && n !in fs.linked
    ensures Volatile(fs, Append(n, data)) && Legal(fs, Append(n, data))
    ensures FsStep(fs, Append(n, data)) == fs.(live := fs.live[n := Content(fs.live[n].synced, fs.live[n].tail + data)])
  {
  }

  lemma {:induction false} AppendAllRun(fs: Fs, n: Name, chunks: seq<Bytes>)
    requires n in fs.live && n !in fs.linked
    ensures AllVolatile(fs, AppendAll(n, chunks)) && LegalRun(fs, AppendAll(n, chunks))
    ensures FsRun(fs, AppendAll(n, chunks))
         == fs.(live := fs.live[n := Content(fs.live[n].synced, fs.live[n].tail + Joined(chunks))])
    decreases |chunks|
  {
    hide FsStep, Volatile, Legal;
    var tail := fs.live[n].tail;
    if chunks == [] {
      assert fs.live[n := fs.live[n]] == fs.live;
      assert tail + [] == tail;
    } else {
      AppendOnce(fs, n, chunks[0]);
      var fs1 := FsStep(fs, Append(n, chunks[0]));
      AppendAllRun(fs1, n, chunks[1..]);
      assert AppendAll(n, chunks)[1..] == AppendAll(n, chunks[1..]);
      var rest := Joined(chunks[1..]);
      assert (tail + chunks[0]) + rest == tail + (chunks[0] + rest);
      var c, c1 := Content(fs.live[n].synced, tail + chunks[0]), Content(fs.live[n].synced, tail + Joined(chunks));
      assert fs.live[n := c][n := c1] == fs.live[n := c1];
    }
  }

  /** A created file, written whole: what is live and linked before and after the sync. */
  lemma WrittenFile(img: Image, n: Name, bytes: Bytes)
    requires n !in img
    ensures var s1 := FsStep(SettledFs(img), Create(n));
            var s2 := s1.(live := s1.live[n := Content([], bytes)]);
      && n in s1.live && n !in s1.linked && s1.live[n] == Content([], [])
      && FsStep(s2, SyncFile(n)) == Staged(img, map[n := bytes]) && Volatile(s2, SyncFile(n)) && Legal(s2, SyncFile(n))
  {
    var s1 := FsStep(SettledFs(img), Create(n));
    var s2 := s1.(live := s1.live[n := Content([], bytes)]);
    var s3 := FsStep(s2, SyncFile(n));
    assert [] + bytes == bytes;
    assert s3.live == SettledFs(img + map[n := bytes]).live;
    assert s3.linked == img.Keys - {n};
  }

  lemma WriteFileRun(img: Image, n: Name, chunks: seq<Bytes>, ok: Goal)
    requires n !in img && ok.accepts(img)
    ensures SafeRun(SettledFs(img), WriteFileOps(n, chunks), ok) && LegalRun(SettledFs(img), WriteFileOps(n, chunks))
    ensures FsRun(SettledFs(img), WriteFileOps(n, chunks)) == Staged(img, map[n := Joined(chunks)])
  {
    hide FsStep, SettledFs, Staged, AppendAll, Joined;
    var s0 := SettledFs(img);
    var s1 := FsStep(s0, Create(n));
    var a := AppendAll(n, chunks);
    var bytes := Joined(chunks);
    WrittenFile(img, n, bytes);
    AppendAllRun(s1, n, chunks);
    assert [] + bytes == bytes;
    var s2 := FsRun(s1, a);
    OneStep(s2, SyncFile(n));
    RunConcat(s1, a, [SyncFile(n)]);
    VolatileConcat(s1, a, [SyncFile(n)]);
    var ops := WriteFileOps(n, chunks);
    assert ops == [Create(n)] + (a + [SyncFile(n)]);
    assert ops[1..] == a + [SyncFile(n)];
    SettledCrashSafe(img, ok);
    VolatileRun(s0, ops, ok);
  }

  /** A file created and left empty: what an empty merge leaves behind before its manifest switch. */
  lemma CreateRun(img: Image, n: Name, ok: Goal)
    requires n !in img && ok.accepts(img)
    ensures SafeRun(SettledFs(img), [Create(n)], ok) && LegalRun(SettledFs(img), [Create(n)])
    ensures FsRun(SettledFs(img), [Create(n)]) == Staged(img, map[n := []])
  {
    var s0 := SettledFs(img);
    var s1 := FsStep(s0, Create(n));
    assert s1.live == SettledFs(img + map[n := []]).live;
    assert s1 == Staged(img, map[n := []]);
    assert [Create(n)][1..] == [];
    SettledCrashSafe(img, ok);
    VolatileRun(s0, [Create(n)], ok);
  }

  // ------------------------------------------------------- directory-level switches

  function DeleteAll(names: seq<Name>): seq<Op> {
    if names == [] then [] else [Delete(names[0])] + DeleteAll(names[1..])
  }

  lemma {:induction false} DeleteAllRun(fs: Fs, names: seq<Name>)
    ensures AllVolatile(fs, DeleteAll(names)) && LegalRun(fs, DeleteAll(names))
    ensures FsRun(fs, DeleteAll(names))
         == Fs(fs.live - (set n | n in names), fs.durable, fs.linked - (set n | n in names && n in fs.live))
    decreases |names|
  {
    if names == [] {
      assert fs.live - {} == fs.live;
    } else {
      var fs1 := FsStep(fs, Delete(names[0]));
      DeleteAllRun(fs1, names[1..]);
      assert DeleteAll(names)[1..] == DeleteAll(names[1..]);
      var here, rest := set n | n in names, set n | n in names[1..];
      assert here == {names[0]} + rest;
      assert fs.live - here == fs.live - {names[0]} - rest;
      var l, lr := set n | n in names && n in fs.live, set n | n in names[1..] && n in fs1.live;
      assert fs.linked - l == fs1.linked - lr;
    }
  }

  function Remove(img: Image, names: seq<Name>): Image { img - (set n | n in names) }

  /** Deletes, then one directory sync: all of them happen, or none. */
  lemma DeleteRun(img: Image, names: seq<Name>, ok: Goal)
    requires ok.accepts(img) && ok.accepts(Remove(img, names))
    ensures SafeRun(SettledFs(img), DeleteAll(names) + [SyncDir], ok)
    ensures LegalRun(SettledFs(img), DeleteAll(names) + [SyncDir])
    ensures FsRun(SettledFs(img), DeleteAll(names) + [SyncDir]) == SettledFs(Remove(img, names))
  {
    var s0 := SettledFs(img);
    DeleteAllRun(s0, names);
    SettledCrashSafe(img, ok);
    VolatileRun(s0, DeleteAll(names), ok);
    var s1 := FsRun(s0, DeleteAll(names));
    assert s1.live == SettledFs(Remove(img, names)).live;
    CrashSafeDurable(s0, s1, ok);
    CommitRun(s1, Remove(img, names), ok);
    SafeConcat(s0, DeleteAll(names), [SyncDir], ok);
  }

  /** Committing a fully synced live namespace. */
  lemma CommitRun(fs: Fs, img: Image, ok: Goal)
    requires fs.live == SettledFs(img).live && CrashSafe(fs, ok) && ok.accepts(img)
    ensures SafeRun(fs, [SyncDir], ok) && LegalRun(fs, [SyncDir]) && FsRun(fs, [SyncDir]) == SettledFs(img)
  {
    var s := FsStep(fs, SyncDir);
    assert s == SettledFs(img);
    SettledCrashSafe(img, ok);
    assert [SyncDir][1..] == [];
    assert SafeRun(s, [], ok);
  }

  /** A new empty file, made durable. */
  lemma CreateDurablyRun(img: Image, n: Name, ok: Goal)
    requires n !in img && ok.accepts(img) && ok.accepts(img[n := []])
    ensures SafeRun(SettledFs(img), [Create(n), SyncDir], ok) && LegalRun(SettledFs(img), [Create(n), SyncDir])
    ensures FsRun(SettledFs(img), [Create(n), SyncDir]) == SettledFs(img[n := []])
  {
    CreateRun(img, n, ok);
    assert img + map[n := []] == img[n := []];
    SafeRunLegal(SettledFs(img), [Create(n)], ok);
    CommitRun(Staged(img, map[n := []]), img[n := []], ok);
    SafeConcat(SettledFs(img), [Create(n)], [SyncDir], ok);
    assert [Create(n)] + [SyncDir] == [Create(n), SyncDir];
  }

  /** Appending to a durable file and syncing it: until the sync, any tear of the new bytes may survive. */
  lemma AppendSyncRun(img: Image, n: Name, data: Bytes, ok: Goal)
    requires n in img && ok.accepts(img)
    requires TearFits(|data|, ok.tear) ==> ok.accepts(img[n := img[n] + Sim.TornTail(data, ok.tear)])
    requires ok.accepts(img[n := img[n] + data])
    ensures SafeRun(SettledFs(img), [Append(n, data), SyncFile(n)], ok)
    ensures LegalRun(SettledFs(img), [Append(n, data), SyncFile(n)])
    ensures FsRun(SettledFs(img), [Append(n, data), SyncFile(n)]) == SettledFs(img[n := img[n] + data])
  {
    var s0 := SettledFs(img);
    var ops := [Append(n, data), SyncFile(n)];
    var s1 := FsStep(s0, ops[0]);
    assert [] + data == data;
    assert s1.durable == s0.durable[n := Content(img[n], data)];
    var goal := img[n := img[n] + data];
    var s2 := FsStep(s1, ops[1]);
    assert s2.live == SettledFs(goal).live && s2.durable == SettledFs(goal).durable;
    assert s2 == SettledFs(goal);
    forall torn | TearAllowed(s1, torn, ok.tear)
      ensures ok.accepts(CrashImage(s1, torn, ok.tear))
    {
      assert ImageOf(s1) == img;
      if torn == Some(n) {
        assert CrashImage(s1, torn, ok.tear) == img[n := img[n] + Sim.TornTail(data, ok.tear)];
      } else if torn.Some? {
        var t := Sim.TornTail(s1.durable[torn.value].tail, ok.tear);
        assert t == [] && img[torn.value] + t == img[torn.value];
        assert CrashImage(s1, torn, ok.tear) == img;
      }
    }
    SettledCrashSafe(img, ok);
    SettledCrashSafe(goal, ok);
    assert ops[1..][1..] == [];
    assert SafeRun(s2, ops[1..][1..], ok);
    assert SafeRun(s1, ops[1..], ok);
    assert FsRun(s1, ops[1..]) == s2;
  }

  /** Syncing a file with nothing buffered changes nothing. */
  lemma SyncAgainRun(img: Image, n: Name, ok: Goal)
    requires n in img && ok.accepts(img)
    ensures SafeRun(SettledFs(img), [SyncFile(n)], ok) && LegalRun(SettledFs(img), [SyncFile(n)])
    ensures FsRun(SettledFs(img), [SyncFile(n)]) == SettledFs(img)
  {
    var s0 := SettledFs(img);
    var s1 := FsStep(s0, SyncFile(n));
    assert img[n] + [] == img[n];
    assert s1.live == s0.live && s1.durable == s0.durable;
    SettledCrashSafe(img, ok);
    assert [SyncFile(n)][1..] == [];
    assert SafeRun(s1, [], ok);
  }

  /** An operation that is refused. */
  lemma RefusedRun(img: Image, op: Op, ok: Goal)
    requires Legal(SettledFs(img), op) && FsFault(SettledFs(img), op).Some? && ok.accepts(img)
    ensures SafeRun(SettledFs(img), [op], ok) && LegalRun(SettledFs(img), [op])
    ensures FsRun(SettledFs(img), [op]) == SettledFs(img)
  {
    SettledCrashSafe(img, ok);
    assert [op][1..] == [];
    assert SafeRun(SettledFs(img), [], ok);
  }
}
