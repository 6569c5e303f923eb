// Garbage collection under readers: any number of readers pin and drop versions while
// one installer switches versions and deletes table files one by one.

module PinGc {
  import opened Wrappers

  /** A version, reduced to the table ids it references. */
  type Ids = set<nat>

  /** What the installer is doing. `Switching`: the files of the next version are written. `Collecting`: of the
      superseded versions, `kept` were still held when the live ids were computed; `garbage` is yet to be deleted. */
  datatype Installer =
    | Resting
    | Switching(next: Ids)
    | Switched
    | Collecting(kept: set<nat>, garbage: set<nat>)

  /** Versions are numbered in the order they are installed. `obsolete`: superseded ones the manifest still lists.
      `pins`: how often readers hold a version; `own`: the one the installer's own handle holds. */
  datatype State = State(versions: seq<Ids>, current: nat, obsolete: set<nat>, pins: map<nat, nat>,
                         own: Option<nat>, installer: Installer, files: set<nat>)

  datatype Step =
    | Pin
    | Drop(v: nat)
    | Begin(created: set<nat>, next: Ids)
    | Switch
    | Snapshot
    | DeleteOne(id: nat)
    | End

  const INIT := State([{}], 0, {}, map[], None, Resting, {})

  function PinCount(s: State, v: nat): nat { if v in s.pins then s.pins[v] else 0 }

  /** `strong_count > 1`: somebody besides the manifest's own list holds the version. */
  predicate Held(s: State, v: nat) { PinCount(s, v) > 0 || s.own == Some(v) }

  predicate Enabled(s: State, st: Step) {
    match st
    case Pin => true
    case Drop(v) => PinCount(s, v) > 0
    case Begin(created, next) => s.installer.Resting? && next <= s.files + created
    case Switch => s.installer.Switching?
    case Snapshot => s.installer.Switched?
    case DeleteOne(id) => s.installer.Collecting? && id in s.installer.garbage
    case End => s.installer.Collecting? && s.installer.garbage == {}
  }

  function Referenced(s: State, vs: set<nat>): Ids {
    set v, id | v in vs && v < |s.versions| && id in s.versions[v] :: id
  }

  /** `retain`: the superseded versions somebody still holds. */
  function Kept(s: State): set<nat> { set v | v in s.obsolete && Held(s, v) }

  function Next(s: State, st: Step): State
    requires Enabled(s, st)
  {
    match st
    case Pin => s.(pins := s.pins[s.current := PinCount(s, s.current) + 1])
    case Drop(v) => s.(pins := s.pins[v := PinCount(s, v) - 1])
    case Begin(created, next) => s.(own := Some(s.current), installer := Switching(next), files := s.files + created)
    case Switch =>
      s.(versions := s.versions + [s.installer.next], current := |s.versions|, obsolete := s.obsolete + {s.current},
         installer := Switched)
    case Snapshot =>
      s.(obsolete := Kept(s), installer := Collecting(Kept(s), s.files - Referenced(s, Kept(s) + {s.current})))
    case DeleteOne(id) =>
      s.(files := s.files - {id}, installer := s.installer.(garbage := s.installer.garbage - {id}))
    case End => s.(own := None, installer := Resting)
  }

  // ------------------------------------------------------------------- safety

  /** Versions somebody may read from: the current one, and every one that is held. */
  predicate Readable(s: State, v: nat) { v == s.current || Held(s, v) }

  ghost predicate OnDisk(s: State, v: nat) { v < |s.versions| && s.versions[v] <= s.files }

  ghost predicate Listed(s: State, v: nat) { v < |s.versions| && (v == s.current || v in s.obsolete) }

  /** While collecting, whatever may be read is live, live files are on disk, and everything else is yet to go. */
  ghost predicate CollectingOk(s: State) {
    s.installer.Collecting? ==>
      var live := Referenced(s, s.installer.kept + {s.current});
      && s.files == live + s.installer.garbage && live !! s.installer.garbage
      && forall v: nat :: Readable(s, v) ==> v in s.installer.kept + {s.current}
  }

  /** Every version that is current or pinned has all its files on disk. */
  ghost predicate Inv(s: State) {
    && s.current < |s.versions|
    && (forall v: nat :: Held(s, v) ==> Listed(s, v))
    && (forall v: nat :: Readable(s, v) ==> OnDisk(s, v))
    && (s.installer.Switching? ==> s.installer.next <= s.files)
    && CollectingOk(s)
  }

  lemma InitInv()
    ensures Inv(INIT)
  {
  }

  lemma ReferencedIn(s: State, vs: set<nat>, v: nat)
    requires v in vs && v < |s.versions|
    ensures s.versions[v] <= Referenced(s, vs)
  {
  }

  /** Whatever is held after a step was held, or current, before it. */
  lemma HeldBefore(s: State, st: Step, v: nat)
    requires Enabled(s, st) && Held(Next(s, st), v)
    ensures Held(s, v) || v == s.current
  {
  }

  lemma StepInv(s: State, st: Step)
    requires Inv(s) && Enabled(s, st)
    ensures Inv(Next(s, st))
  {
    hide Held, Referenced, CollectingOk;
    var t := Next(s, st);
    forall v: nat | Held(t, v)
      ensures Listed(t, v)
    {
      HeldBefore(s, st, v);
      assert Listed(s, v) || v == s.current;
      if st.Snapshot? && v != s.current { SnapshotKeeps(s, v); }
    }
    forall v: nat | Readable(t, v)
      ensures OnDisk(t, v)
    {
      if Held(t, v) { HeldBefore(s, st, v); }
      if v < |s.versions| {
        assert Readable(s, v) && OnDisk(s, v);
        if st.DeleteOne? { DeletesOnlyGarbage(s, st.id, v); }
      }
    }
    StepCollecting(s, st);
  }

  lemma SnapshotKeeps(s: State, v: nat)
    requires Inv(s) && s.installer.Switched? && Held(Next(s, Snapshot), v) && v != s.current
    ensures v in Kept(s)
  {
    assert Held(s, v);
    assert Listed(s, v);
  }

  /** No file of a readable version is among the garbage. */
  lemma DeletesOnlyGarbage(s: State, id: nat, v: nat)
    requires Inv(s) && Enabled(s, DeleteOne(id)) && Readable(s, v)
    ensures v < |s.versions| && id !in s.versions[v]
  {
    assert OnDisk(s, v);
    ReferencedIn(s, s.installer.kept + {s.current}, v);
  }

  lemma StepCollecting(s: State, st: Step)
    requires Inv(s) && Enabled(s, st)
    ensures CollectingOk(Next(s, st))
  {
    hide Held;
    var t := Next(s, st);
    if t.installer.Collecting? {
      var live := Referenced(t, t.installer.kept + {t.current});
      assert live == Referenced(s, t.installer.kept + {s.current});
      forall v: nat | Readable(t, v)
        ensures v in t.installer.kept + {t.current}
      {
        if Held(t, v) { HeldBefore(s, st, v); }
        assert Readable(s, v);
        if st.Snapshot? && v != s.current { SnapshotKeeps(s, v); }
      }
      if st.Snapshot? {
        forall id | id in live
          ensures id in s.files
        {
          var v :| v in Kept(s) + {s.current} && v < |s.versions| && id in s.versions[v];
          assert Readable(s, v);
          assert OnDisk(s, v);
        }
      }
    }
  }

  // --------------------------------------------------------------------- runs

  ghost predicate Runs(s: State, steps: seq<Step>)
    decreases |steps|
  {
    steps == [] || (Enabled(s, steps[0]) && Runs(Next(s, steps[0]), steps[1..]))
  }

  ghost function After(s: State, steps: seq<Step>): State
    requires Runs(s, steps)
    decreases |steps|
  {
    if steps == [] then s else After(Next(s, steps[0]), steps[1..])
  }

  lemma {:induction false} RunsInv(s: State, steps: seq<Step>)
    requires Inv(s) && Runs(s, steps)
    ensures Inv(After(s, steps))
    decreases |steps|
  {
    hide Inv, Next, Enabled;
    if steps != [] {
      StepInv(s, steps[0]);
      RunsInv(Next(s, steps[0]), steps[1..]);
    }
  }

  // ------------------------------------------------- what a run did, from its steps

  /** The version the last `Begin` announced. */
  function LastBegun(steps: seq<Step>): Ids {
    if steps == [] then {}
    else match steps[|steps| - 1] case Begin(_, next) => next case _ => LastBegun(steps[..|steps| - 1])
  }

  /** Every version installed so far, the empty one first; the last is current. */
  function Installed(steps: seq<Step>): (vs: seq<Ids>)
    ensures |vs| > 0
  {
    if steps == [] then [{}]
    else
      var before := steps[..|steps| - 1];
      if steps[|steps| - 1].Switch? then Installed(before) + [LastBegun(before)] else Installed(before)
  }

  /** How many readers have pinned version `v`, each while it was current. */
  function PinsTaken(steps: seq<Step>, v: nat): nat {
    if steps == [] then 0
    else
      var before := steps[..|steps| - 1];
      PinsTaken(before, v) + if steps[|steps| - 1].Pin? && v == |Installed(before)| - 1 then 1 else 0
  }

  function PinsDropped(steps: seq<Step>, v: nat): nat {
    if steps == [] then 0
    else PinsDropped(steps[..|steps| - 1], v) + if steps[|steps| - 1] == Drop(v) then 1 else 0
  }

  /** Some reader that pinned version `v` has not dropped it. */
  predicate StillPinned(steps: seq<Step>, v: nat) { PinsTaken(steps, v) > PinsDropped(steps, v) }

  /** The table files created and not deleted. */
  function FilesLeft(steps: seq<Step>): set<nat> {
    if steps == [] then {}
    else
      var before := FilesLeft(steps[..|steps| - 1]);
      match steps[|steps| - 1]
      case Begin(created, _) => before + created
      case DeleteOne(id) => before - {id}
      case _ => before
  }

  lemma {:induction false} RunsPrefix(s: State, steps: seq<Step>, more: seq<Step>)
    ensures Runs(s, steps + more) <==> Runs(s, steps) && Runs(After(s, steps), more)
    ensures Runs(s, steps + more) ==> After(s, steps + more) == After(After(s, steps), more)
    decreases |steps|
  {
    hide Enabled, Next;
    if steps == [] {
      assert steps + more == more;
    } else {
      assert (steps + more)[1..] == steps[1..] + more;
      assert (steps + more)[0] == steps[0];
      if Enabled(s, steps[0]) { RunsPrefix(Next(s, steps[0]), steps[1..], more); }
    }
  }

  lemma RunsOne(s: State, st: Step)
    ensures Runs(s, [st]) <==> Enabled(s, st)
    ensures Runs(s, [st]) ==> After(s, [st]) == Next(s, st)
  {
    assert [st][1..] == [];
  }

  /** What the state records is what the steps did. */
  ghost predicate Records(s: State, steps: seq<Step>) {
    && s.versions == Installed(steps) && s.current == |Installed(steps)| - 1 && s.files == FilesLeft(steps)
    && (forall v: nat :: PinCount(s, v) + PinsDropped(steps, v) == PinsTaken(steps, v))
    && (s.installer.Switching? ==> s.installer.next == LastBegun(steps) && s.own == Some(s.current))
    && (s.installer.Switched? || s.installer.Collecting? ==> s.current > 0 && s.own == Some(s.current - 1))
    && (s.installer.Resting? ==> s.own == None)
  }

  lemma RecordsStep(s: State, steps: seq<Step>, st: Step)
    requires Records(s, steps) && Enabled(s, st)
    ensures Records(Next(s, st), steps + [st])
  {
    assert (steps + [st])[..|steps|] == steps;
    forall v: nat
      ensures PinCount(Next(s, st), v) + PinsDropped(steps + [st], v) == PinsTaken(steps + [st], v)
    {
      assert PinCount(s, v) + PinsDropped(steps, v) == PinsTaken(steps, v);
    }
  }

  lemma {:induction false} RunRecords(steps: seq<Step>)
    requires Runs(INIT, steps)
    ensures Records(After(INIT, steps), steps)
    decreases |steps|
  {
    hide Enabled, Next, Runs, After, Records;
    if steps == [] {
      FirstRecords();
    } else {
      var before, st := steps[..|steps| - 1], steps[|steps| - 1];
      assert steps == before + [st];
      RunsPrefix(INIT, before, [st]);
      RunRecords(before);
      RunsOne(After(INIT, before), st);
      RecordsStep(After(INIT, before), before, st);
    }
  }

  lemma FirstRecords()
    ensures Runs(INIT, []) && After(INIT, []) == INIT && Records(INIT, [])
  {
  }

  /** Pin-safe collection: under every interleaving of readers with the installer, each table of the current version, and
      of every version that readers have pinned more often than dropped, has been created and not deleted. */
  lemma PinnedFilesStay(steps: seq<Step>, v: nat, id: nat)
    requires Runs(INIT, steps) && v < |Installed(steps)| && id in Installed(steps)[v]
    requires v == |Installed(steps)| - 1 || StillPinned(steps, v)
    ensures id in FilesLeft(steps)
  {
    hide Runs, After, CollectingOk;
    InitInv();
    RunsInv(INIT, steps);
    RunRecords(steps);
    assert Readable(After(INIT, steps), v);
    assert OnDisk(After(INIT, steps), v);
  }

  /** Readers never wait: the current version can be pinned at any moment, and a pinned one dropped. The installer is
      never stuck either: between installs any version over the files on disk and new ones can be begun, and otherwise
      exactly one kind of step is next. */
  lemma NobodyWaits(steps: seq<Step>, v: nat, created: set<nat>, next: Ids)
    requires Runs(INIT, steps)
    ensures Runs(INIT, steps + [Pin])
    ensures Runs(INIT, steps + [Drop(v)]) <==> StillPinned(steps, v)
    ensures next <= FilesLeft(steps) + created ==>
      (Runs(INIT, steps + [Begin(created, next)]) || Runs(INIT, steps + [Switch]) || Runs(INIT, steps + [Snapshot])
       || (exists id :: Runs(INIT, steps + [DeleteOne(id)])) || Runs(INIT, steps + [End]))
  {
    hide Runs, After;
    RunRecords(steps);
    var s := After(INIT, steps);
    Able(steps, Pin);
    Able(steps, Drop(v));
    Able(steps, Begin(created, next));
    Able(steps, Switch);
    Able(steps, Snapshot);
    Able(steps, End);
    if s.installer.Collecting? && s.installer.garbage != {} {
      var id :| id in s.installer.garbage;
      Able(steps, DeleteOne(id));
    }
  }

  lemma Able(steps: seq<Step>, st: Step)
    requires Runs(INIT, steps)
    ensures Runs(INIT, steps + [st]) <==> Enabled(After(INIT, steps), st)
  {
    RunsPrefix(INIT, steps, [st]);
    RunsOne(After(INIT, steps), st);
  }

  predicate WhileCollecting(st: Step) { st.Pin? || st.Drop? || st.DeleteOne? }

  lemma {:induction false} CollectionFixed(s: State, steps: seq<Step>)
    requires s.installer.Collecting? && Runs(s, steps) && forall i :: 0 <= i < |steps| ==> WhileCollecting(steps[i])
    ensures var t := After(s, steps);
      t.installer.Collecting? && t.installer.kept == s.installer.kept && t.versions == s.versions && t.current == s.current
    decreases |steps|
  {
    if steps != [] {
      assert forall i :: 0 <= i < |steps[1..]| ==> steps[1..][i] == steps[i + 1];
      CollectionFixed(Next(s, steps[0]), steps[1..]);
    }
  }

  /** The versions an install that has just switched must leave readable: the new one, the one before it, which the
      installer itself still holds, and whatever readers hold. */
  ghost predicate Live(steps: seq<Step>, v: nat) {
    v < |Installed(steps)| && (v == |Installed(steps)| - 1 || v == |Installed(steps)| - 2 || StillPinned(steps, v))
  }

  /** After a collection the table files on disk are exactly those of the versions that were live when it computed the
      live ids, whatever readers did meanwhile. */
  lemma CollectionExact(before: seq<Step>, during: seq<Step>, id: nat)
    requires Runs(INIT, before + [Snapshot] + during + [End])
    requires forall i :: 0 <= i < |during| ==> WhileCollecting(during[i])
    ensures id in FilesLeft(before + [Snapshot] + during + [End])
       <==> exists v: nat :: Live(before, v) && id in Installed(before)[v]
  {
    hide Runs, After, Referenced, Held, Records, Inv, Enabled, Next;
    var all := before + [Snapshot] + during;
    RunsPrefix(INIT, all, [End]);
    RunsPrefix(INIT, before + [Snapshot], during);
    RunsPrefix(INIT, before, [Snapshot]);
    InitInv();
    RunsInv(INIT, before);
    RunRecords(before);
    RunRecords(all + [End]);
    var s := After(INIT, before);
    RunsOne(s, Snapshot);
    RunsOne(After(INIT, all), End);
    Collects(s, during);
    assert After(INIT, all + [End]).files == FilesLeft(all + [End]) by { FilesRecorded(After(INIT, all + [End]), all + [End]); }
    LiveAreKept(s, before, id);
  }

  lemma FilesRecorded(s: State, steps: seq<Step>)
    requires Records(s, steps)
    ensures s.files == FilesLeft(steps)
  {
  }

  lemma LiveAreKept(s: State, before: seq<Step>, id: nat)
    requires Inv(s) && Enabled(s, Snapshot) && Records(s, before)
    ensures id in Referenced(s, Kept(s) + {s.current}) <==> exists v: nat :: Live(before, v) && id in Installed(before)[v]
  {
    forall v: nat
      ensures v in Kept(s) + {s.current} <==> Live(before, v)
    {
      assert PinCount(s, v) + PinsDropped(before, v) == PinsTaken(before, v);
      assert Held(s, v) ==> Listed(s, v);
    }
    if v: nat :| Live(before, v) && id in Installed(before)[v] { assert v in Kept(s) + {s.current}; }
  }

  /** One collection, from its snapshot to its end. */
  lemma Collects(s: State, steps: seq<Step>)
    requires Inv(s) && Enabled(s, Snapshot) && Runs(Next(s, Snapshot), steps)
    requires forall i :: 0 <= i < |steps| ==> WhileCollecting(steps[i])
    requires Enabled(After(Next(s, Snapshot), steps), End)
    ensures Next(After(Next(s, Snapshot), steps), End).files == Referenced(s, Kept(s) + {s.current})
  {
    hide Runs, After, Referenced, Held;
    StepInv(s, Snapshot);
    RunsInv(Next(s, Snapshot), steps);
    CollectionFixed(Next(s, Snapshot), steps);
    var t := After(Next(s, Snapshot), steps);
    assert t.files == Referenced(t, t.installer.kept + {t.current}) + {};
    SameReferenced(s, t, Kept(s) + {s.current});
  }

  lemma SameReferenced(s: State, t: State, vs: set<nat>)
    requires s.versions == t.versions
    ensures Referenced(s, vs) == Referenced(t, vs)
  {
  }
}
