// What an engine that only appends, syncs, renames fresh files and deletes can
// see of the power-loss model: per name, without inodes. `Abstract` maps a disk to
// this view; every operation and every crash of the disk is one of the view.

module FsView {
  import opened Wrappers
  import opened ByteStrings
  import opened Sim

  /** A file's bytes: the part a crash keeps, and the buffered rest. */
  datatype Content = Content(synced: Bytes, tail: Bytes) {
    function Bytes(): Bytes { synced + tail }
  }

  /** `live` is the namespace the process sees, `durable` the one a crash restores; a name is
      `linked` when both lead to the same file. */
  datatype Fs = Fs(live: map<Name, Content>, durable: map<Name, Content>, linked: set<Name>)

  const EMPTY_FS := Fs(map[], map[], {})

  /** What is on disk for certain: the durable names with their synced bytes. */
  type Image = map<Name, Bytes>

  function ImageOf(fs: Fs): Image {
    map n | n in fs.durable :: fs.durable[n].synced
  }

  function FsFault(fs: Fs, op: Op): Option<StorageError> {
    match op
    case Create(n) => if n in fs.live then Some(AlreadyExists) else None
    case WriteAt(_, _, _) => None
    case SyncDir => None
    case Append(n, _) => if n in fs.live then None else Some(NotFound)
    case SyncFile(n) => if n in fs.live then None else Some(NotFound)
    case Rename(from, _) => if from in fs.live then None else Some(NotFound)
    case Delete(n) => if n in fs.live then None else Some(NotFound)
  }

  /** The operations the engine issues: it never overwrites in place, and renames only files
      whose old name is not yet durable. */
  predicate Legal(fs: Fs, op: Op) {
    match op
    case WriteAt(_, _, _) => false
    case Rename(from, to) => from != to && from !in fs.durable
    case _ => true
  }

  function SetContent(fs: Fs, n: Name, c: Content): Fs {
    fs.(live := fs.live[n := c], durable := if n in fs.linked then fs.durable[n := c] else fs.durable)
  }

  /** The effect of an operation on the view; one that is refused, or that is not `Legal`, has none here. */
  function FsStep(fs: Fs, op: Op): Fs {
    if FsFault(fs, op).Some? || !Legal(fs, op) then fs
    else
      match op
      case Create(n) => fs.(live := fs.live[n := Content([], [])], linked := fs.linked - {n})
      case Append(n, data) => SetContent(fs, n, fs.live[n].(tail := fs.live[n].tail + data))
      case SyncFile(n) => SetContent(fs, n, Content(fs.live[n].Bytes(), []))
      case SyncDir => Fs(fs.live, fs.live, fs.live.Keys)
      case Rename(from, to) =>
        Fs((fs.live - {from})[to := fs.live[from]], fs.durable, fs.linked - {from, to})
      case Delete(n) => fs.(live := fs.live - {n}, linked := fs.linked - {n})
  }

  function FsRun(fs: Fs, ops: seq<Op>): Fs
    decreases |ops|
  {
    if ops == [] then fs else FsRun(FsStep(fs, ops[0]), ops[1..])
  }

  predicate LegalRun(fs: Fs, ops: seq<Op>)
    decreases |ops|
  {
    ops == [] || (Legal(fs, ops[0]) && LegalRun(FsStep(fs, ops[0]), ops[1..]))
  }

  /** A view in which everything is on disk. */
  function SettledFs(img: Image): Fs {
    var files := map n | n in img :: Content(img[n], []);
    Fs(files, files, files.Keys)
  }

  predicate TearAllowed(fs: Fs, torn: Option<Name>, tear: Tear) {
    torn.Some? ==> torn.value in fs.durable && TearFits(|fs.durable[torn.value].tail|, tear)
  }

  /** What a crash leaves: the durable image, with part of one file's buffered bytes. */
  function CrashImage(fs: Fs, torn: Option<Name>, tear: Tear): Image
    requires TearAllowed(fs, torn, tear)
  {
    if torn.None? then ImageOf(fs)
    else ImageOf(fs)[torn.value :=
           fs.durable[torn.value].synced + Sim.TornTail(fs.durable[torn.value].tail, tear)]
  }

  // -------------------------------------------------------- the abstraction

  function ContentOf(inode: Inode): Content {
    Content(inode.durable, if |inode.durable| <= |inode.live| then inode.live[|inode.durable|..] else [])
  }

  function ContentAt(inodes: map<nat, Inode>, link: Option<nat>): Option<Content> {
    if link.Some? && link.value in inodes then Some(ContentOf(inodes[link.value])) else None
  }

  function LiveAt(d: Disk, n: Name): Option<Content> { ContentAt(d.inodes, BindingOf(d, n).live) }

  function DurableAt(d: Disk, n: Name): Option<Content> { ContentAt(d.inodes, BindingOf(d, n).durable) }

  predicate LinkedAt(d: Disk, n: Name) {
    BindingOf(d, n).live.Some? && BindingOf(d, n).live == BindingOf(d, n).durable
  }

  function Abstract(d: Disk): Fs {
    Fs(map n | n in d.files && LiveAt(d, n).Some? :: LiveAt(d, n).value,
       map n | n in d.files && DurableAt(d, n).Some? :: DurableAt(d, n).value,
       set n | n in d.files && LinkedAt(d, n))
  }

  predicate Disjoint(a: Binding, b: Binding) {
    && (a.live.Some? ==> a.live != b.live && a.live != b.durable)
    && (a.durable.Some? ==> a.durable != b.live && a.durable != b.durable)
  }

  ghost predicate Exclusive(files: map<Name, Binding>) {
    forall n, m :: n in files && m in files && n != m ==> Disjoint(files[n], files[m])
  }

  ghost predicate AppendOnly(inodes: map<nat, Inode>) {
    forall i :: i in inodes ==> inodes[i].durable <= inodes[i].live
  }

  /** The disks the engine's operations reach: no inode under two names, synced bytes never rewritten. */
  ghost predicate Disciplined(d: Disk) {
    WellFormed(d) && AppendOnly(d.inodes) && Exclusive(d.files)
  }

  /** Name by name, what a view must say to be the abstraction of a disk. */
  ghost predicate Shows(fs: Fs, d: Disk, n: Name) {
    && LiveAt(d, n) == (if n in fs.live then Some(fs.live[n]) else None)
    && DurableAt(d, n) == (if n in fs.durable then Some(fs.durable[n]) else None)
    && LinkedAt(d, n) == (n in fs.linked)
  }

  lemma AbstractShows(d: Disk, n: Name)
    ensures Shows(Abstract(d), d, n)
  {
  }

  lemma ShownIsAbstract(fs: Fs, d: Disk)
    requires forall n :: Shows(fs, d, n)
    ensures Abstract(d) == fs
  {
    forall n
      ensures n in Abstract(d).live <==> n in fs.live
      ensures n in Abstract(d).durable <==> n in fs.durable
      ensures n in Abstract(d).linked <==> n in fs.linked
    {
      assert Shows(fs, d, n);
    }
    assert Abstract(d).live == fs.live by {
      forall n | n in fs.live ensures Abstract(d).live[n] == fs.live[n] { assert Shows(fs, d, n); }
    }
    assert Abstract(d).durable == fs.durable by {
      forall n | n in fs.durable ensures Abstract(d).durable[n] == fs.durable[n] { assert Shows(fs, d, n); }
    }
  }

  lemma EmptyDiskAbstracts()
    ensures Disciplined(EMPTY_DISK) && Abstract(EMPTY_DISK) == EMPTY_FS
  {
  }

  lemma BoundNames(d: Disk, n: Name)
    requires WellFormed(d)
    ensures LiveAt(d, n).Some? <==> BindingOf(d, n).live.Some?
    ensures DurableAt(d, n).Some? <==> BindingOf(d, n).durable.Some?
    ensures LinkedAt(d, n) ==> LiveAt(d, n) == DurableAt(d, n)
  {
    if n in d.files { assert Linked(d, d.files[n].live) && Linked(d, d.files[n].durable); }
  }

  lemma FaultsAgree(d: Disk, op: Op)
    requires WellFormed(d) && Legal(Abstract(d), op)
    ensures Fault(d, op) == FsFault(Abstract(d), op)
  {
    hide WellFormed;
    match op
    case SyncDir =>
    case Create(n) => BoundNames(d, n);
    case Append(n, _) => BoundNames(d, n);
    case SyncFile(n) => BoundNames(d, n);
    case Rename(n, _) => BoundNames(d, n);
    case Delete(n) => BoundNames(d, n);
  }

  /** Refinement: every legal operation of the disk is the same operation of the view. */
  lemma StepRefines(d: Disk, op: Op)
    requires Disciplined(d) && Legal(Abstract(d), op)
    ensures Disciplined(Step(d, op))
    ensures Abstract(Step(d, op)) == FsStep(Abstract(d), op)
  {
    FaultsAgree(d, op);
    var fs, e := Abstract(d), Step(d, op);
    if Fault(d, op).None? {
      StepDisciplined(d, op);
      forall n
        ensures Shows(FsStep(fs, op), e, n)
      {
        StepShows(d, op, n);
      }
      ShownIsAbstract(FsStep(fs, op), e);
    }
  }

  lemma StepDisciplined(d: Disk, op: Op)
    requires Disciplined(d) && Legal(Abstract(d), op) && Fault(d, op).None?
    ensures AppendOnly(Step(d, op).inodes) && Exclusive(Step(d, op).files)
  {
    StepAppends(d, op);
    StepExclusive(d, op);
  }

  lemma StepAppends(d: Disk, op: Op)
    requires WellFormed(d) && AppendOnly(d.inodes) && Legal(Abstract(d), op) && Fault(d, op).None?
    ensures AppendOnly(Step(d, op).inodes)
  {
    hide Referenced, Relink, Unlink, CommitEntries, RevertEntries, Abstract;
    var e := Step(d, op);
    forall i | i in e.inodes
      ensures e.inodes[i].durable <= e.inodes[i].live
    {
      if i in d.inodes { assert d.inodes[i].durable <= d.inodes[i].live; }
    }
  }

  lemma StepExclusive(d: Disk, op: Op)
    requires WellFormed(d) && Exclusive(d.files) && Legal(Abstract(d), op) && Fault(d, op).None?
    ensures Exclusive(Step(d, op).files)
  {
    hide Referenced, Collect, InodeOk;
    var e := Step(d, op);
    match op
    case Create(x) =>
      forall n | n in d.files
        ensures Disjoint(d.files[n], Binding(Some(d.nextInode), None))
      {
        assert Linked(d, d.files[n].live) && Linked(d, d.files[n].durable);
      }
    case Rename(from, to) =>
      AbstractShows(d, from);
      BoundNames(d, from);
      assert d.files[from].durable.None?;
      forall n, m | n in e.files && m in e.files && n != m
        ensures Disjoint(e.files[n], e.files[m])
      {
        RenameDisjoint(d, from, to, n, m);
      }
    case _ =>
  }

  lemma RenameDisjoint(d: Disk, from: Name, to: Name, n: Name, m: Name)
    requires Exclusive(d.files) && from in d.files && d.files[from].durable.None? && from != to && n != m
    requires var files := Unlink(Relink(d.files, to, d.files[from].live), from); n in files && m in files
    ensures var files := Unlink(Relink(d.files, to, d.files[from].live), from); Disjoint(files[n], files[m])
  {
    if n in d.files && m in d.files { assert Disjoint(d.files[n], d.files[m]); }
    if n in d.files && n != from { assert Disjoint(d.files[n], d.files[from]); }
    if m in d.files && m != from { assert Disjoint(d.files[from], d.files[m]); }
  }

  /** The operation as one name sees it. */
  lemma StepShows(d: Disk, op: Op, n: Name)
    requires Disciplined(d) && Legal(Abstract(d), op) && Fault(d, op).None? && FsFault(Abstract(d), op).None?
    ensures Shows(FsStep(Abstract(d), op), Step(d, op), n)
  {
    match op
    case Create(x) => CreateShows(d, x, n);
    case Append(x, data) => AppendShows(d, x, data, n);
    case SyncFile(x) => SyncShows(d, x, n);
    case SyncDir =>
      AbstractShows(d, n);
      BoundNames(d, n);
      CollectShows(Step(d, op).files, d.inodes, n);
    case Rename(from, to) => RenameShows(d, from, to, n);
    case Delete(x) =>
      AbstractShows(d, n);
      CollectShows(Step(d, op).files, d.inodes, n);
  }

  lemma ContentUpdates(inode: Inode, data: Bytes)
    requires inode.durable <= inode.live
    ensures ContentOf(Inode(inode.live, inode.live, None)) == Content(ContentOf(inode).Bytes(), [])
    ensures forall k: Option<nat> ::
              ContentOf(Inode(inode.live + data, inode.durable, k)) == ContentOf(inode).(tail := ContentOf(inode).tail + data)
  {
    assert inode.durable + inode.live[|inode.durable|..] == inode.live;
    assert inode.live[|inode.live|..] == [];
    assert (inode.live + data)[|inode.durable|..] == inode.live[|inode.durable|..] + data;
  }

  lemma AppendShows(d: Disk, x: Name, data: Bytes, n: Name)
    requires Disciplined(d) && Fault(d, Append(x, data)).None? && FsFault(Abstract(d), Append(x, data)).None?
    ensures Shows(FsStep(Abstract(d), Append(x, data)), Step(d, Append(x, data)), n)
  {
    BoundNames(d, x);
    AbstractShows(d, x);
    var inode := d.inodes[d.files[x].live.value];
    ContentUpdates(inode, data);
    hide WellFormed, Abstract, ContentOf, Exclusive, Shows;
    UpdateShows(d, Step(d, Append(x, data)), x, Inode(inode.live + data, inode.durable, Some(d.nextAppend)), n);
  }

  lemma SyncShows(d: Disk, x: Name, n: Name)
    requires Disciplined(d) && Fault(d, SyncFile(x)).None? && FsFault(Abstract(d), SyncFile(x)).None?
    ensures Shows(FsStep(Abstract(d), SyncFile(x)), Step(d, SyncFile(x)), n)
  {
    BoundNames(d, x);
    AbstractShows(d, x);
    var inode := d.inodes[d.files[x].live.value];
    ContentUpdates(inode, []);
    hide WellFormed, Abstract, ContentOf, Exclusive, Shows;
    UpdateShows(d, Step(d, SyncFile(x)), x, Inode(inode.live, inode.live, None), n);
  }

  lemma CreateShows(d: Disk, x: Name, n: Name)
    requires Disciplined(d) && Fault(d, Create(x)).None? && FsFault(Abstract(d), Create(x)).None?
    ensures Shows(FsStep(Abstract(d), Create(x)), Step(d, Create(x)), n)
  {
    AbstractShows(d, n);
    if n in d.files { assert Linked(d, d.files[n].live) && Linked(d, d.files[n].durable); }
    assert d.nextInode !in d.inodes;
  }

  /** Rewriting one inode rewrites the file of the one name that leads to it. */
  lemma UpdateShows(d: Disk, e: Disk, x: Name, inode: Inode, n: Name)
    requires Disciplined(d) && Exists(d, x)
    requires e.files == d.files && e.inodes == d.inodes[d.files[x].live.value := inode]
    ensures Shows(SetContent(Abstract(d), x, ContentOf(inode)), e, n)
  {
    var i := d.files[x].live.value;
    assert i in d.inodes by { assert Linked(d, d.files[x].live); }
    assert n in d.files && n != x ==> Disjoint(d.files[n], d.files[x]);
    AbstractShows(d, n);
    AbstractShows(d, x);
    hide WellFormed, AppendOnly, Exclusive, ContentOf, Abstract;
    if n in d.files {
      RewriteShows(d.inodes, i, inode, d.files[n].live);
      RewriteShows(d.inodes, i, inode, d.files[n].durable);
    }
  }

  lemma RewriteShows(inodes: map<nat, Inode>, i: nat, inode: Inode, link: Option<nat>)
    requires i in inodes
    ensures ContentAt(inodes[i := inode], link)
         == if link == Some(i) then Some(ContentOf(inode)) else ContentAt(inodes, link)
  {
  }

  lemma RenameShows(d: Disk, from: Name, to: Name, n: Name)
    requires Disciplined(d) && Legal(Abstract(d), Rename(from, to)) && Exists(d, from) && from in Abstract(d).live
    ensures Shows(FsStep(Abstract(d), Rename(from, to)), Step(d, Rename(from, to)), n)
  {
    AbstractShows(d, n);
    AbstractShows(d, from);
    BoundNames(d, from);
    CollectShows(Step(d, Rename(from, to)).files, d.inodes, n);
    if n != from && n != to {
      assert Shows(Abstract(d), d, n);
    } else if n == to {
      AbstractShows(d, to);
      if to in d.files { assert Disjoint(d.files[from], d.files[to]); }
    }
  }

  /** Collecting unreferenced inodes is invisible through the namespace. */
  lemma CollectShows(files: map<Name, Binding>, inodes: map<nat, Inode>, n: Name)
    ensures n in files ==> ContentAt(Collect(files, inodes), files[n].live) == ContentAt(inodes, files[n].live)
    ensures n in files ==> ContentAt(Collect(files, inodes), files[n].durable) == ContentAt(inodes, files[n].durable)
  {
    if n in files {
      assert files[n].live.Some? ==> Referenced(files, files[n].live.value);
      assert files[n].durable.Some? ==> Referenced(files, files[n].durable.value);
    }
  }

  /** Refinement of crashes: what any allowed crash leaves is a crash image of the view. */
  lemma CrashRefines(d: Disk, target: Option<nat>, tear: Tear) returns (torn: Option<Name>)
    requires Disciplined(d) && CrashAllowed(d, target, tear)
    ensures Disciplined(Crash(d, target, tear))
    ensures TearAllowed(Abstract(d), torn, tear)
    ensures Abstract(Crash(d, target, tear)) == SettledFs(CrashImage(Abstract(d), torn, tear))
  {
    CrashRestoresSyncedImage(d, target, tear);
    var c := Crash(d, target, tear);
    forall n, m | n in c.files && m in c.files && n != m
      ensures Disjoint(c.files[n], c.files[m])
    {
      assert Disjoint(d.files[n], d.files[m]);
    }
    torn := None;
    if target.Some? {
      var n :| n in d.files && d.files[n].durable == target;
      torn := Some(n);
      AbstractShows(d, n);
      assert d.inodes[target.value].durable <= d.inodes[target.value].live;
    }
    var after := SettledFs(CrashImage(Abstract(d), torn, tear));
    forall n
      ensures Shows(after, c, n)
    {
      CrashShows(d, target, tear, torn, n);
    }
    ShownIsAbstract(after, c);
  }

  lemma CrashShows(d: Disk, target: Option<nat>, tear: Tear, torn: Option<Name>, n: Name)
    requires Disciplined(d) && CrashAllowed(d, target, tear) && TearAllowed(Abstract(d), torn, tear)
    requires torn.Some? == target.Some?
    requires torn.Some? ==> torn.value in d.files && d.files[torn.value].durable == target
    ensures Shows(SettledFs(CrashImage(Abstract(d), torn, tear)), Crash(d, target, tear), n)
  {
    var c := Crash(d, target, tear);
    if n in d.files && d.files[n].durable.Some? {
      assert Linked(d, d.files[n].durable);
      if torn.Some? && torn.value != n { assert Disjoint(d.files[torn.value], d.files[n]); }
      assert forall i :: i in d.inodes ==> InodeOk(d.inodes[i], d.nextAppend);
      SurvivorShows(d, target, tear, torn, n);
      CollectShows(c.files, Survivors(d.inodes, target, tear), n);
    } else {
      assert n !in c.files;
      AbstractShows(d, n);
    }
  }

  /** The file a durable name leads to after a crash. */
  lemma SurvivorShows(d: Disk, target: Option<nat>, tear: Tear, torn: Option<Name>, n: Name)
    requires n in d.files && d.files[n].durable.Some? && d.files[n].durable.value in d.inodes
    requires forall i :: i in d.inodes ==> |d.inodes[i].durable| <= |d.inodes[i].live|
    requires forall i :: i in d.inodes && target == Some(i) ==> TearFits(|d.inodes[i].live| - |d.inodes[i].durable|, tear)
    requires d.inodes[d.files[n].durable.value].durable <= d.inodes[d.files[n].durable.value].live
    requires target == d.files[n].durable <==> torn == Some(n)
    requires TearAllowed(Abstract(d), torn, tear)
    ensures n in CrashImage(Abstract(d), torn, tear)
    ensures ContentAt(Survivors(d.inodes, target, tear), d.files[n].durable)
         == Some(Content(CrashImage(Abstract(d), torn, tear)[n], []))
  {
    var i := d.files[n].durable.value;
    AbstractShows(d, n);
    SurvivorContent(d.inodes[i], target == Some(i), tear);
  }

  lemma SurvivorContent(inode: Inode, torn: bool, tear: Tear)
    requires inode.durable <= inode.live
    requires torn ==> TearFits(|inode.live| - |inode.durable|, tear)
    ensures ContentOf(Survivor(inode, torn, tear))
         == Content(if torn then inode.durable + Sim.TornTail(inode.live[|inode.durable|..], tear) else inode.durable, [])
  {
  }
}
