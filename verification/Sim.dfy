// The power-loss model: a flat namespace whose entries bind paths to inode
// generations twice (as the process sees them and as a crash restores them), and
// inodes that hold bytes twice (buffered and synced).

module Sim {
  import opened Wrappers
  import opened ByteStrings
  import opened Numbers

  /** The files an engine keeps in its one directory. */
  datatype Name =
    | ManifestFile
    | ManifestTmp
    | Segment(id: nat)
    | SegmentTmp(id: nat)
    | Table(id: nat)

  datatype Inode = Inode(live: Bytes, durable: Bytes, lastAppend: Option<nat>)

  datatype Binding = Binding(live: Option<nat>, durable: Option<nat>)

  datatype Disk = Disk(
    files: map<Name, Binding>,
    inodes: map<nat, Inode>,
    nextInode: nat,
    nextAppend: nat,
    opCount: nat)

  datatype StorageError = NotFound | AlreadyExists | OutOfBounds

  datatype Op =
    | Create(name: Name)
    | Append(name: Name, data: Bytes)
    | WriteAt(name: Name, offset: nat, data: Bytes)
    | SyncFile(name: Name)
    | SyncDir
    | Rename(from: Name, to: Name)
    | Delete(name: Name)

  const EMPTY_DISK := Disk(map[], map[], 1, 0, 0)

  // ------------------------------------------------------------ observations

  function BindingOf(d: Disk, n: Name): Binding {
    if n in d.files then d.files[n] else Binding(None, None)
  }

  predicate Exists(d: Disk, n: Name) { BindingOf(d, n).live.Some? }

  predicate Referenced(files: map<Name, Binding>, i: nat) {
    exists n :: n in files && (files[n].live == Some(i) || files[n].durable == Some(i))
  }

  predicate DurablyReferenced(d: Disk, i: nat) {
    exists n :: n in d.files && d.files[n].durable == Some(i)
  }

  // -------------------------------------------------------------- operations

  /** Why a mutating operation is refused, if it is. */
  function Fault(d: Disk, op: Op): Option<StorageError> {
    match op
    case Create(n) => if Exists(d, n) then Some(AlreadyExists) else None
    case WriteAt(n, offset, data) =>
      if !Exists(d, n) then Some(NotFound)
      else
        var i := BindingOf(d, n).live.value;
        if i in d.inodes && offset + |data| > |d.inodes[i].live| then Some(OutOfBounds) else None
    case SyncDir => None
    case Rename(from, _) => if Exists(d, from) then None else Some(NotFound)
    case Append(n, _) => if Exists(d, n) then None else Some(NotFound)
    case SyncFile(n) => if Exists(d, n) then None else Some(NotFound)
    case Delete(n) => if Exists(d, n) then None else Some(NotFound)
  }

  /** Drop the inodes no namespace image mentions any more. */
  function Collect(files: map<Name, Binding>, inodes: map<nat, Inode>): map<nat, Inode> {
    map i | i in inodes && Referenced(files, i) :: inodes[i]
  }

  function CommitEntries(files: map<Name, Binding>): map<Name, Binding> {
    map n | n in files && files[n].live.Some? :: Binding(files[n].live, files[n].live)
  }

  function Relink(files: map<Name, Binding>, n: Name, live: Option<nat>): map<Name, Binding> {
    files[n := Binding(live, if n in files then files[n].durable else None)]
  }

  /** The entry of `n` loses its live link. The entry itself stays until a directory sync. */
  function Unlink(files: map<Name, Binding>, n: Name): map<Name, Binding>
    requires n in files
  {
    files[n := Binding(None, files[n].durable)]
  }

  predicate WellFormed(d: Disk) {
    && (forall n :: n in d.files ==> Linked(d, d.files[n].live) && Linked(d, d.files[n].durable))
    && (forall i :: i in d.inodes ==> i < d.nextInode)
    && (forall i :: i in d.inodes ==> InodeOk(d.inodes[i], d.nextAppend))
    && (forall i, j :: i in d.inodes && j in d.inodes && i != j && d.inodes[i].lastAppend.Some?
          ==> d.inodes[i].lastAppend != d.inodes[j].lastAppend)
  }

  predicate Linked(d: Disk, link: Option<nat>) { link.Some? ==> link.value in d.inodes }

  predicate InodeOk(inode: Inode, nextAppend: nat) {
    && |inode.durable| <= |inode.live|
    && (inode.lastAppend.None? ==> |inode.durable| == |inode.live|)
    && (inode.lastAppend.Some? ==> inode.lastAppend.value < nextAppend)
  }

  function Overwrite(s: Bytes, offset: nat, data: Bytes): (r: Bytes)
    requires offset + |data| <= |s|
    ensures |r| == |s|
    ensures forall k :: 0 <= k < |s| ==> r[k] == if offset <= k < offset + |data| then data[k - offset] else s[k]
  {
    s[..offset] + data + s[offset + |data|..]
  }

  /** Inode `i` gets new contents; a fresh append number, if it takes one, is the next. */
  function WithInode(d: Disk, i: nat, inode: Inode, nextAppend: nat): (r: Disk)
    requires WellFormed(d) && i in d.inodes
    requires d.nextAppend <= nextAppend && InodeOk(inode, nextAppend)
    requires inode.lastAppend.Some? ==> inode.lastAppend.value >= d.nextAppend || inode.lastAppend == d.inodes[i].lastAppend
    ensures WellFormed(r)
  {
    d.(inodes := d.inodes[i := inode], nextAppend := nextAppend)
  }

  /** The namespace becomes `files`, which leads only to inodes that exist. */
  function WithEntries(d: Disk, files: map<Name, Binding>): (r: Disk)
    requires WellFormed(d)
    requires forall n :: n in files ==> Linked(d, files[n].live) && Linked(d, files[n].durable)
    ensures WellFormed(r)
  {
    var r := d.(files := files, inodes := Collect(files, d.inodes));
    CollectKeepsLinks(d, r);
    r
  }

  lemma CollectKeepsLinks(d: Disk, r: Disk)
    requires forall n :: n in r.files ==> Linked(d, r.files[n].live) && Linked(d, r.files[n].durable)
    requires r.inodes == Collect(r.files, d.inodes)
    ensures forall n :: n in r.files ==> Linked(r, r.files[n].live) && Linked(r, r.files[n].durable)
  {
    forall n | n in r.files
      ensures Linked(r, r.files[n].live) && Linked(r, r.files[n].durable)
    {
      assert Linked(d, r.files[n].live) && Linked(d, r.files[n].durable);
      assert r.files[n].live.Some? ==> Referenced(r.files, r.files[n].live.value);
      assert r.files[n].durable.Some? ==> Referenced(r.files, r.files[n].durable.value);
    }
  }

  /** The effect of one mutating operation. A refused operation changes nothing and is not counted. */
  function Step(d: Disk, op: Op): (r: Disk)
    requires WellFormed(d)
    ensures WellFormed(r)
  {
    if Fault(d, op).Some? then d
    else
      var done := d.(opCount := d.opCount + 1);
      match op
      case Create(n) =>
        done.(files := Relink(d.files, n, Some(d.nextInode)),
              inodes := d.inodes[d.nextInode := Inode([], [], None)],
              nextInode := d.nextInode + 1)
      case Append(n, data) =>
        assert Linked(d, d.files[n].live);
        var i := d.files[n].live.value;
        WithInode(done, i, d.inodes[i].(live := d.inodes[i].live + data, lastAppend := Some(d.nextAppend)), d.nextAppend + 1)
      case WriteAt(n, offset, data) =>
        assert Linked(d, d.files[n].live);
        var i := d.files[n].live.value;
        WithInode(done, i, d.inodes[i].(live := Overwrite(d.inodes[i].live, offset, data)), d.nextAppend)
      case SyncFile(n) =>
        assert Linked(d, d.files[n].live);
        var i := d.files[n].live.value;
        WithInode(done, i, Inode(d.inodes[i].live, d.inodes[i].live, None), d.nextAppend)
      case SyncDir => WithEntries(done, CommitEntries(d.files))
      case Rename(from, to) =>
        WithEntries(done, if from == to then d.files else Unlink(Relink(d.files, to, d.files[from].live), from))
      case Delete(n) => WithEntries(done, Unlink(d.files, n))
  }

  /** A write in place changes the given bytes of that one file and nothing else; synced bytes wait for a file sync. */
  lemma WriteAtChanges(d: Disk, n: Name, offset: nat, data: Bytes)
    requires WellFormed(d) && Exists(d, n) && BindingOf(d, n).live.value in d.inodes
    requires offset + |data| <= |d.inodes[BindingOf(d, n).live.value].live|
    ensures var r, i := Step(d, WriteAt(n, offset, data)), BindingOf(d, n).live.value;
      && r.files == d.files && r.inodes.Keys == d.inodes.Keys && r.opCount == d.opCount + 1
      && (forall j :: j in d.inodes && j != i ==> r.inodes[j] == d.inodes[j])
      && r.inodes[i].durable == d.inodes[i].durable && r.inodes[i].lastAppend == d.inodes[i].lastAppend
      && |r.inodes[i].live| == |d.inodes[i].live|
      && (forall k :: offset <= k < offset + |data| ==> r.inodes[i].live[k] == data[k - offset])
      && (forall k :: 0 <= k < |d.inodes[i].live| && !(offset <= k < offset + |data|) ==> r.inodes[i].live[k] == d.inodes[i].live[k])
  {
  }

  /** A rename moves the live link, over whatever the target named, and no durable one; no file that is still named
      changes. */
  lemma RenameMoves(d: Disk, from: Name, to: Name)
    requires WellFormed(d) && Exists(d, from)
    ensures var r := Step(d, Rename(from, to));
      && BindingOf(r, to).live == BindingOf(d, from).live && r.opCount == d.opCount + 1
      && (from != to ==> BindingOf(r, from).live == None)
      && (forall m :: m != from && m != to ==> BindingOf(r, m) == BindingOf(d, m))
      && (forall m :: BindingOf(r, m).durable == BindingOf(d, m).durable)
      && (forall i :: i in r.inodes <==> i in d.inodes && Referenced(r.files, i))
      && (forall i :: i in r.inodes ==> r.inodes[i] == d.inodes[i])
  {
  }

  // ------------------------------------------------------------------- crash

  /** How a crash mangles the unsynced tail of the one file it tears. */
  datatype Tear = Drop | Truncate(keep: nat) | BitFlip(bit: nat)

  function TornTail(tail: Bytes, tear: Tear): Bytes
    requires TearFits(|tail|, tear)
  {
    match tear
    case Drop => []
    case Truncate(keep) => tail[..keep]
    case BitFlip(bit) => FlipAt(tail, bit)
  }

  predicate TearFits(tailLen: nat, tear: Tear) {
    match tear
    case Drop => true
    case Truncate(keep) => keep <= tailLen
    case BitFlip(bit) => bit < 8 * tailLen
  }

  /** An inode a crash may tear: durably named and carrying unsynced bytes. */
  predicate Tearable(d: Disk, i: nat) {
    && i in d.inodes && d.inodes[i].lastAppend.Some?
    && |d.inodes[i].live| > |d.inodes[i].durable| && DurablyReferenced(d, i)
  }

  /** The tear target is the tearable inode appended to last. */
  ghost predicate IsTarget(d: Disk, target: Option<nat>) {
    match target
    case None => forall i :: i in d.inodes ==> !Tearable(d, i)
    case Some(t) =>
      Tearable(d, t)
      && forall i :: i in d.inodes && Tearable(d, i) ==> d.inodes[i].lastAppend.value <= d.inodes[t].lastAppend.value
  }

  /** A crash the model allows: its target, and a tear that fits the target's tail. */
  ghost predicate CrashAllowed(d: Disk, target: Option<nat>, tear: Tear) {
    && IsTarget(d, target)
    && (target.Some? ==>
          TearFits(|d.inodes[target.value].live| - |d.inodes[target.value].durable|, tear))
  }

  function Survivor(inode: Inode, torn: bool, tear: Tear): (r: Inode)
    requires |inode.durable| <= |inode.live|
    requires torn ==> TearFits(|inode.live| - |inode.durable|, tear)
    ensures r.live == r.durable && r.lastAppend.None? && inode.durable <= r.live
    ensures !torn ==> r.live == inode.durable
  {
    var kept := if torn then inode.durable + TornTail(inode.live[|inode.durable|..], tear) else inode.durable;
    Inode(kept, kept, None)
  }

  function RevertEntries(files: map<Name, Binding>): map<Name, Binding> {
    map n | n in files && files[n].durable.Some? :: Binding(files[n].durable, files[n].durable)
  }

  /** The inodes after the crash: each back to its synced bytes, the target with part of its tail. */
  function Survivors(inodes: map<nat, Inode>, target: Option<nat>, tear: Tear): map<nat, Inode>
    requires forall i :: i in inodes ==> |inodes[i].durable| <= |inodes[i].live|
    requires forall i :: i in inodes && target == Some(i) ==> TearFits(|inodes[i].live| - |inodes[i].durable|, tear)
  {
    map i | i in inodes :: Survivor(inodes[i], target == Some(i), tear)
  }

  ghost function Crash(d: Disk, target: Option<nat>, tear: Tear): (r: Disk)
    requires WellFormed(d) && CrashAllowed(d, target, tear)
    ensures WellFormed(r)
  {
    assert forall i :: i in d.inodes ==> InodeOk(d.inodes[i], d.nextAppend);
    var files := RevertEntries(d.files);
    RevertedAreLinked(d);
    WithEntries(d.(inodes := Survivors(d.inodes, target, tear)), files)
  }

  lemma RevertedAreLinked(d: Disk)
    requires forall n :: n in d.files ==> Linked(d, d.files[n].live) && Linked(d, d.files[n].durable)
    ensures var files := RevertEntries(d.files); forall n :: n in files ==> Linked(d, files[n].live) && Linked(d, files[n].durable)
  {
  }

  /** `e` is what some allowed crash of `d` leaves. */
  ghost predicate Crashed(d: Disk, target: Option<nat>, tear: Tear, e: Disk) {
    WellFormed(d) && CrashAllowed(d, target, tear) && e == Crash(d, target, tear)
  }

  /** After a crash the namespace is the last directory-synced image, every file starts with its
      last-synced bytes, and at most one inode carries anything beyond them. */
  lemma CrashRestoresSyncedImage(d: Disk, target: Option<nat>, tear: Tear)
    requires WellFormed(d) && CrashAllowed(d, target, tear)
    ensures var c := Crash(d, target, tear);
      && (forall n :: BindingOf(c, n).live == BindingOf(c, n).durable == BindingOf(d, n).durable)
      && (forall i :: i in c.inodes <==> DurablyReferenced(d, i))
      && (forall i :: i in c.inodes ==> i in d.inodes && d.inodes[i].durable <= c.inodes[i].live == c.inodes[i].durable)
      && (forall i :: i in c.inodes && c.inodes[i].live != d.inodes[i].durable ==> target == Some(i))
  {
    forall i
      ensures i in Crash(d, target, tear).inodes <==> DurablyReferenced(d, i)
    {
      CrashKeepsNamed(d, target, tear, i);
    }
    assert forall i :: i in d.inodes ==> InodeOk(d.inodes[i], d.nextAppend);
    assert forall i :: i in d.inodes && target == Some(i) ==> TearFits(|d.inodes[i].live| - |d.inodes[i].durable|, tear);
    hide WellFormed, CrashAllowed, DurablyReferenced, Referenced, TornTail, TearFits;
    assert forall n :: BindingOf(Crash(d, target, tear), n).durable == BindingOf(d, n).durable;
  }

  /** A crash keeps the inodes that have a durable name, and no others. */
  lemma CrashKeepsNamed(d: Disk, target: Option<nat>, tear: Tear, i: nat)
    requires WellFormed(d) && CrashAllowed(d, target, tear)
    ensures i in Crash(d, target, tear).inodes <==> DurablyReferenced(d, i)
  {
    var c := Crash(d, target, tear);
    if DurablyReferenced(d, i) {
      var n :| n in d.files && d.files[n].durable == Some(i);
      assert Linked(d, d.files[n].durable);
      assert c.files[n].durable == Some(i);
    }
    if i in c.inodes {
      var n :| n in c.files && (c.files[n].live == Some(i) || c.files[n].durable == Some(i));
      assert d.files[n].durable == Some(i);
    }
  }

  /** The choice of tear target is forced: no two inodes share an append number. */
  lemma TargetUnique(d: Disk, t: Option<nat>, u: Option<nat>)
    requires WellFormed(d) && IsTarget(d, t) && IsTarget(d, u)
    ensures t == u
  {
  }

  /** What is left of the tail that was being written: nothing, a prefix, or all of it with one bit inverted. */
  predicate TornTo(tail: Bytes, tear: Tear, left: Bytes) {
    match tear
    case Drop => left == []
    case Truncate(keep) => keep <= |tail| && left == tail[..keep]
    case BitFlip(bit) =>
      && bit < 8 * |tail| && |left| == |tail|
      && (forall k :: 0 <= k < |tail| && k != bit / 8 ==> left[k] == tail[k])
      && (forall j :: 0 <= j < 8 ==> (TestBit(left[bit / 8], j) <==> TestBit(tail[bit / 8], j) != (j == bit % 8)))
  }

  lemma TailTorn(tail: Bytes, tear: Tear)
    requires TearFits(|tail|, tear)
    ensures TornTo(tail, tear, TornTail(tail, tear))
  {
    if tear.BitFlip? {
      forall j | 0 <= j < 8
        ensures TestBit(TornTail(tail, tear)[tear.bit / 8], j) <==> TestBit(tail[tear.bit / 8], j) != (j == tear.bit % 8)
      {
        FlipBitTests(tail[tear.bit / 8], tear.bit % 8, j);
      }
    }
  }

  /** Every tear does happen, to the right file: of the inodes with a durable name and unsynced bytes the one appended
      to last may lose its tail, keep any prefix of it, or keep it with any bit inverted; it then holds its synced
      bytes and what is left of the tail. */
  lemma TearsHappen(d: Disk, n: Name, i: nat, tear: Tear)
    requires WellFormed(d) && n in d.files && d.files[n].durable == Some(i) && i in d.inodes
    requires |d.inodes[i].durable| < |d.inodes[i].live|
    requires forall m, j :: m in d.files && d.files[m].durable == Some(j) && j in d.inodes
               && |d.inodes[j].durable| < |d.inodes[j].live|
               ==> d.inodes[j].lastAppend.Some? && d.inodes[i].lastAppend.Some?
                   && d.inodes[j].lastAppend.value <= d.inodes[i].lastAppend.value
    requires match tear
             case Drop => true
             case Truncate(keep) => keep <= |d.inodes[i].live| - |d.inodes[i].durable|
             case BitFlip(bit) => bit < 8 * (|d.inodes[i].live| - |d.inodes[i].durable|)
    ensures CrashAllowed(d, Some(i), tear)
    ensures var c := Crash(d, Some(i), tear);
      && i in c.inodes && d.inodes[i].durable <= c.inodes[i].live == c.inodes[i].durable
      && TornTo(d.inodes[i].live[|d.inodes[i].durable|..], tear, c.inodes[i].live[|d.inodes[i].durable|..])
  {
    assert InodeOk(d.inodes[i], d.nextAppend);
    forall j | j in d.inodes && Tearable(d, j)
      ensures d.inodes[j].lastAppend.value <= d.inodes[i].lastAppend.value
    {
      var m :| m in d.files && d.files[m].durable == Some(j);
    }
    CrashKeepsNamed(d, Some(i), tear, i);
    TailTorn(d.inodes[i].live[|d.inodes[i].durable|..], tear);
  }

  /** And nothing else is torn: where a crash leaves an inode more than its synced bytes, that inode has a durable name,
      was appended to last among those with unsynced bytes, and holds what the tear leaves of its tail. */
  lemma OnlyTheLastIsTorn(d: Disk, target: Option<nat>, tear: Tear, i: nat)
    requires WellFormed(d) && CrashAllowed(d, target, tear) && i in Crash(d, target, tear).inodes
    requires Crash(d, target, tear).inodes[i].live != d.inodes[i].durable
    ensures exists n :: n in d.files && d.files[n].durable == Some(i)
    ensures i in d.inodes && d.inodes[i].lastAppend.Some? && |d.inodes[i].durable| < |d.inodes[i].live|
    ensures forall m, j :: m in d.files && d.files[m].durable == Some(j) && j in d.inodes
              && |d.inodes[j].durable| < |d.inodes[j].live|
              ==> d.inodes[j].lastAppend.Some? && d.inodes[j].lastAppend.value <= d.inodes[i].lastAppend.value
    ensures TornTo(d.inodes[i].live[|d.inodes[i].durable|..], tear, Crash(d, target, tear).inodes[i].live[|d.inodes[i].durable|..])
  {
    CrashRestoresSyncedImage(d, target, tear);
    TailTorn(d.inodes[i].live[|d.inodes[i].durable|..], tear);
    forall m, j | m in d.files && d.files[m].durable == Some(j) && j in d.inodes && |d.inodes[j].durable| < |d.inodes[j].live|
      ensures d.inodes[j].lastAppend.Some? && d.inodes[j].lastAppend.value <= d.inodes[i].lastAppend.value
    {
      assert InodeOk(d.inodes[j], d.nextAppend);
      assert Tearable(d, j);
    }
  }

  /** Everything on disk is settled: each entry agrees with its durable image, each inode is synced. */
  ghost predicate Settled(d: Disk) {
    && (forall n :: n in d.files ==> d.files[n].live == d.files[n].durable && d.files[n].live.Some?)
    && (forall i :: i in d.inodes ==> d.inodes[i] == Inode(d.inodes[i].live, d.inodes[i].live, None))
    && (forall i :: i in d.inodes ==> Referenced(d.files, i))
  }

  lemma CrashSettles(d: Disk, target: Option<nat>, tear: Tear)
    requires WellFormed(d) && CrashAllowed(d, target, tear)
    ensures Settled(Crash(d, target, tear))
  {
    CrashRestoresSyncedImage(d, target, tear);
  }

  lemma SyncedSurvive(inodes: map<nat, Inode>, tear: Tear)
    requires forall i :: i in inodes ==> inodes[i] == Inode(inodes[i].live, inodes[i].live, None)
    ensures Survivors(inodes, None, tear) == inodes
  {
  }

  lemma NothingToCollect(files: map<Name, Binding>, inodes: map<nat, Inode>)
    requires forall i :: i in inodes ==> Referenced(files, i)
    ensures Collect(files, inodes) == inodes
  {
  }

  lemma NothingToRevert(files: map<Name, Binding>)
    requires forall n :: n in files ==> files[n].live == files[n].durable && files[n].live.Some?
    ensures RevertEntries(files) == files
  {
  }

  lemma CrashOfSettled(d: Disk, target: Option<nat>, tear: Tear)
    requires WellFormed(d) && Settled(d) && CrashAllowed(d, target, tear)
    ensures Crash(d, target, tear) == d
  {
    hide Collect, Survivors, RevertEntries, Referenced, DurablyReferenced, WellFormed;
    assert target.None?;
    NothingToRevert(d.files);
    SyncedSurvive(d.inodes, tear);
    NothingToCollect(d.files, d.inodes);
  }

  /** A second crash changes nothing. */
  lemma CrashIdempotent(d: Disk, target: Option<nat>, tear: Tear, target': Option<nat>, tear': Tear)
    requires WellFormed(d) && CrashAllowed(d, target, tear)
    requires WellFormed(Crash(d, target, tear)) && CrashAllowed(Crash(d, target, tear), target', tear')
    ensures Crash(Crash(d, target, tear), target', tear') == Crash(d, target, tear)
  {
    CrashSettles(d, target, tear);
    CrashOfSettled(Crash(d, target, tear), target', tear');
  }
}
