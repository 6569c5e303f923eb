// The simulator object: its fields are updated in place by every operation, and
// an armed crash fires inside the operation that reaches its threshold.

module Simulator {
  import opened Wrappers
  import opened ByteStrings
  import opened Sim
  import opened FsView

  datatype CrashReport = CrashReport(opsBefore: nat, torn: Option<nat>, tear: Tear)

  class SimFs {
    var files: map<Name, Binding>
    var inodes: map<nat, Inode>
    var nextInode: nat
    var opCount: nat
    var nextAppend: nat
    /** A crash fires once `opCount` reaches this. */
    var crashAfter: Option<nat>
    var lastReport: Option<CrashReport>

    /** Every mutating operation requested so far. */
    ghost var issued: seq<Op>

    function State(): Disk
      reads this
    {
      Disk(files, inodes, nextInode, nextAppend, opCount)
    }

    ghost predicate Valid()
      reads this
    {
      WellFormed(State())
    }

    /** No crash is armed, and the disk is one the engine's own operations produce. */
    ghost predicate Calm()
      reads this
    {
      Disciplined(State()) && crashAfter.None?
    }

    ghost function View(): Fs
      reads this
    {
      Abstract(State())
    }

    constructor ()
      ensures Valid() && Calm() && State() == EMPTY_DISK && View() == EMPTY_FS && issued == []
    {
      files, inodes, nextInode, opCount, nextAppend := map[], map[], 1, 0, 0;
      crashAfter, lastReport := None, None;
      issued := [];
      new;
      EmptyDiskAbstracts();
    }

    method ArmCrashAfter(n: nat)
      requires Valid()
      modifies this`crashAfter
      ensures Valid() && crashAfter == Some(n)
    {
      crashAfter := Some(n);
    }

    /** Power loss: tear at most one unsynced tail, revert everything else to its synced image. */
    method Crash() returns (report: CrashReport)
      requires Valid()
      modifies this
      ensures Valid() && crashAfter.None? && lastReport == Some(report) && issued == old(issued)
      ensures report.opsBefore == old(opCount) && opCount == old(opCount)
      ensures CrashAllowed(old(State()), report.torn, report.tear)
      ensures State() == Sim.Crash(old(State()), report.torn, report.tear)
    {
      var torn := FindTarget();
      var tear := Drop;
      if torn.Some? {
        var tailLen := |inodes[torn.value].live| - |inodes[torn.value].durable|;
        if * {
          var keep: nat :| keep <= tailLen;
          tear := Truncate(keep);
        } else if * {
          assert 0 < 8 * tailLen;
          var bit: nat :| bit < 8 * tailLen;
          tear := BitFlip(bit);
        }
      }
      assert forall i :: i in inodes ==> InodeOk(inodes[i], nextAppend);
      assert CrashAllowed(State(), torn, tear);
      ghost var after := Sim.Crash(State(), torn, tear);
      hide WellFormed, CrashAllowed, InodeOk, Collect, RevertEntries;
      inodes := Survivors(inodes, torn, tear);
      files := RevertEntries(files);
      inodes := Collect(files, inodes);
      report := CrashReport(opCount, torn, tear);
      crashAfter, lastReport := None, Some(report);
      assert State() == after;
    }

    /** The tearable inode whose newest unsynced append came last. */
    method FindTarget() returns (torn: Option<nat>)
      requires Valid()
      ensures IsTarget(State(), torn)
    {
      torn := None;
      var left := inodes.Keys;
      while left != {}
        invariant left <= inodes.Keys
        invariant torn.Some? ==> Tearable(State(), torn.value)
        invariant forall i :: i in inodes && i !in left && Tearable(State(), i) ==>
                    torn.Some? && inodes[i].lastAppend.value <= inodes[torn.value].lastAppend.value
        decreases |left|
      {
        var i :| i in left;
        left := left - {i};
        if Tearable(State(), i) && (torn.None? || inodes[torn.value].lastAppend.value < inodes[i].lastAppend.value) {
          torn := Some(i);
        }
      }
    }

    /** What one operation may do to the state: be refused; take effect; or take effect and crash. */
    twostate predicate Did(op: Op)
      reads this
    {
      && old(Valid()) && Valid()
      && issued == old(issued) + [op]
      && (Fault(old(State()), op).Some? || !old(Armed()) ==>
            State() == Step(old(State()), op) && crashAfter == old(crashAfter) && lastReport == old(lastReport))
      && (Fault(old(State()), op).None? && old(Armed()) ==>
            && crashAfter.None? && lastReport.Some?
            && Crashed(Step(old(State()), op), lastReport.value.torn, lastReport.value.tear, State()))
      && (old(Calm()) && Legal(old(View()), op) ==> Calm() && View() == FsStep(old(View()), op))
    }

    /** The next counted operation triggers the armed crash. */
    ghost predicate Armed()
      reads this
    {
      crashAfter.Some? && opCount + 1 >= crashAfter.value
    }

    /** Count the operation whose effect is already in place; crash if the threshold is reached. */
    method Bump(ghost after: Disk, ghost op: Op)
      requires WellFormed(after) && after.opCount > 0 && State() == after.(opCount := after.opCount - 1)
      modifies this
      ensures Valid() && issued == old(issued) + [op]
      ensures !old(Armed()) ==> State() == after && crashAfter == old(crashAfter) && lastReport == old(lastReport)
      ensures old(Armed()) ==>
                && crashAfter.None? && lastReport.Some?
                && Crashed(after, lastReport.value.torn, lastReport.value.tear, State())
    {
      opCount := opCount + 1;
      issued := issued + [op];
      assert State() == after;
      if crashAfter.Some? && opCount >= crashAfter.value {
        var report := Crash();
      }
    }

    method Create(n: Name) returns (r: Result<(), StorageError>)
      requires Valid()
      modifies this
      ensures Did(Op.Create(n))
      ensures r == if Fault(old(State()), Op.Create(n)).Some? then Err(Fault(old(State()), Op.Create(n)).value) else Ok(())
    {
      Refine(Op.Create(n));
      ghost var after := Step(State(), Op.Create(n));
      hide Collect, Referenced, CommitEntries, Disciplined, Abstract, Legal, FsStep;
      if n in files && files[n].live.Some? {
        issued := issued + [Op.Create(n)];
        return Err(AlreadyExists);
      }
      inodes := inodes[nextInode := Inode([], [], None)];
      files := files[n := Binding(Some(nextInode), if n in files then files[n].durable else None)];
      nextInode := nextInode + 1;
      Bump(after, Op.Create(n));
      return Ok(());
    }

    /** Returns the offset at which the appended bytes begin. */
    method Append(n: Name, data: Bytes) returns (r: Result<nat, StorageError>)
      requires Valid()
      modifies this
      ensures Did(Op.Append(n, data))
      ensures r == if Fault(old(State()), Op.Append(n, data)).Some? then Err(Fault(old(State()), Op.Append(n, data)).value)
                   else Ok(|old(inodes[files[n].live.value].live)|)
    {
      Refine(Op.Append(n, data));
      ghost var after := Step(State(), Op.Append(n, data));
      hide Collect, Referenced, CommitEntries, Disciplined, Abstract, Legal, FsStep;
      if !(n in files && files[n].live.Some?) {
        issued := issued + [Op.Append(n, data)];
        return Err(NotFound);
      }
      var i := files[n].live.value;
      assert Linked(State(), files[n].live);
      var offset := |inodes[i].live|;
      inodes := inodes[i := inodes[i].(live := inodes[i].live + data, lastAppend := Some(nextAppend))];
      nextAppend := nextAppend + 1;
      Bump(after, Op.Append(n, data));
      return Ok(offset);
    }

    method WriteAt(n: Name, offset: nat, data: Bytes) returns (r: Result<(), StorageError>)
      requires Valid()
      modifies this
      ensures Did(Op.WriteAt(n, offset, data))
      ensures r == if Fault(old(State()), Op.WriteAt(n, offset, data)).Some? then Err(Fault(old(State()), Op.WriteAt(n, offset, data)).value)
                   else Ok(())
    {
      if !(n in files && files[n].live.Some?) {
        issued := issued + [Op.WriteAt(n, offset, data)];
        return Err(NotFound);
      }
      var i := files[n].live.value;
      assert Linked(State(), files[n].live);
      if offset + |data| > |inodes[i].live| {
        issued := issued + [Op.WriteAt(n, offset, data)];
        return Err(OutOfBounds);
      }
      inodes := inodes[i := inodes[i].(live := Overwrite(inodes[i].live, offset, data))];
      Bump(Step(old(State()), Op.WriteAt(n, offset, data)), Op.WriteAt(n, offset, data));
      return Ok(());
    }

    method SyncFile(n: Name) returns (r: Result<(), StorageError>)
      requires Valid()
      modifies this
      ensures Did(Op.SyncFile(n))
      ensures r == if Fault(old(State()), Op.SyncFile(n)).Some? then Err(Fault(old(State()), Op.SyncFile(n)).value) else Ok(())
    {
      Refine(Op.SyncFile(n));
      ghost var after := Step(State(), Op.SyncFile(n));
      hide Collect, Referenced, CommitEntries, Disciplined, Abstract, Legal, FsStep;
      if !(n in files && files[n].live.Some?) {
        issued := issued + [Op.SyncFile(n)];
        return Err(NotFound);
      }
      var i := files[n].live.value;
      assert Linked(State(), files[n].live);
      inodes := inodes[i := Inode(inodes[i].live, inodes[i].live, None)];
      Bump(after, Op.SyncFile(n));
      return Ok(());
    }

    method SyncDir() returns (r: Result<(), StorageError>)
      requires Valid()
      modifies this
      ensures Did(Op.SyncDir) && r == Ok(())
    {
      Refine(Op.SyncDir);
      ghost var after := Step(State(), Op.SyncDir);
      hide Collect, Referenced, CommitEntries, Disciplined, Abstract, Legal, FsStep;
      files := CommitEntries(files);
      inodes := Collect(files, inodes);
      Bump(after, Op.SyncDir);
      return Ok(());
    }

    method Rename(from: Name, to: Name) returns (r: Result<(), StorageError>)
      requires Valid()
      modifies this
      ensures Did(Op.Rename(from, to))
      ensures r == if Fault(old(State()), Op.Rename(from, to)).Some? then Err(Fault(old(State()), Op.Rename(from, to)).value) else Ok(())
    {
      Refine(Op.Rename(from, to));
      ghost var after := Step(State(), Op.Rename(from, to));
      hide Collect, Referenced, CommitEntries, Disciplined, Abstract, Legal, FsStep;
      if !(from in files && files[from].live.Some?) {
        issued := issued + [Op.Rename(from, to)];
        return Err(NotFound);
      }
      if from != to {
        files := Relink(files, to, files[from].live);
        files := Unlink(files, from);
      }
      inodes := Collect(files, inodes);
      Bump(after, Op.Rename(from, to));
      return Ok(());
    }

    method Delete(n: Name) returns (r: Result<(), StorageError>)
      requires Valid()
      modifies this
      ensures Did(Op.Delete(n))
      ensures r == if Fault(old(State()), Op.Delete(n)).Some? then Err(Fault(old(State()), Op.Delete(n)).value) else Ok(())
    {
      Refine(Op.Delete(n));
      ghost var after := Step(State(), Op.Delete(n));
      hide Collect, Referenced, CommitEntries, Disciplined, Abstract, Legal, FsStep;
      if !(n in files && files[n].live.Some?) {
        issued := issued + [Op.Delete(n)];
        return Err(NotFound);
      }
      files := Unlink(files, n);
      inodes := Collect(files, inodes);
      Bump(after, Op.Delete(n));
      return Ok(());
    }

    lemma Refine(op: Op)
      requires Valid()
      ensures Calm() && Legal(View(), op) ==>
                Disciplined(Step(State(), op)) && Abstract(Step(State(), op)) == FsStep(View(), op)
    {
      if Calm() && Legal(View(), op) { StepRefines(State(), op); }
    }

    /** An operation is refused exactly when the view says so. */
    lemma SameFault(op: Op)
      requires Valid() && Legal(View(), op)
      ensures Fault(State(), op) == FsFault(View(), op)
    {
      FaultsAgree(State(), op);
    }

    // ------------------------------------------------------------ reading

    function Exists(n: Name): (r: bool)
      reads this
      ensures Valid() ==> r == (n in View().live)
    {
      BoundNamesIfValid(n);
      Sim.Exists(State(), n)
    }

    lemma BoundNamesIfValid(n: Name)
      ensures Valid() ==> (Sim.Exists(State(), n) <==> n in View().live)
    {
      if Valid() {
        BoundNames(State(), n);
        AbstractShows(State(), n);
      }
    }

    /** The whole current content of a file: what `len` and `read_at` give access to. */
    function Read(n: Name): (r: Result<Bytes, StorageError>)
      requires Valid()
      reads this
      ensures Calm() ==> r == if n in View().live then Ok(View().live[n].Bytes()) else Err(NotFound)
    {
      ReadIsView(n);
      if Sim.Exists(State(), n) then
        assert Linked(State(), files[n].live);
        Ok(inodes[files[n].live.value].live)
      else Err(NotFound)
    }

    lemma ReadIsView(n: Name)
      requires Valid()
      ensures Sim.Exists(State(), n) <==> n in View().live
      ensures Calm() && Sim.Exists(State(), n) ==>
                files[n].live.value in inodes && View().live[n].Bytes() == inodes[files[n].live.value].live
    {
      BoundNames(State(), n);
      AbstractShows(State(), n);
      if Calm() && Sim.Exists(State(), n) {
        var inode := inodes[files[n].live.value];
        assert inode.durable <= inode.live;
        assert inode.durable + inode.live[|inode.durable|..] == inode.live;
      }
    }

    /** `read_at`: up to `len` bytes from `offset`, short at the end of the file. */
    function ReadAt(n: Name, offset: nat, len: nat): (r: Result<Bytes, StorageError>)
      requires Valid()
      reads this
      ensures r.Ok? ==>
        && Read(n).Ok? && offset <= |Read(n).value|
        && |r.value| == (if |Read(n).value| - offset < len then |Read(n).value| - offset else len)
        && forall k :: 0 <= k < |r.value| ==> r.value[k] == Read(n).value[offset + k]
      ensures r.Err? ==> Read(n) == Err(r.error) || (Read(n).Ok? && offset > |Read(n).value| && r.error == OutOfBounds)
    {
      match Read(n)
      case Err(e) => Err(e)
      case Ok(bytes) =>
        if offset > |bytes| then Err(OutOfBounds)
        else Ok(bytes[offset..if offset + len <= |bytes| then offset + len else |bytes|])
    }

    /** The existing names. */
    function List(): (names: set<Name>)
      requires Valid()
      reads this
      ensures names == View().live.Keys
    {
      ListIsView();
      set n | n in files && files[n].live.Some?
    }

    lemma ListIsView()
      requires Valid()
      ensures (set n | n in files && files[n].live.Some?) == View().live.Keys
    {
      forall n
        ensures n in View().live <==> n in files && files[n].live.Some?
      {
        ReadIsView(n);
      }
    }
  }
}
