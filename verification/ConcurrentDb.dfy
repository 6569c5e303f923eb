// The write path, the flush and the readers as atomic steps of any number of threads:
// claim, log with the lock released, apply, clear; quiesce, freeze, install, discard,
// release the log, compact; and lookups that read memory first and pin a version later.

module ConcurrentDb {
  import opened Wrappers
  import opened ByteStrings
  import opened Seqs
  import opened Versions
  import opened Sources
  import opened Meaning

  /** A thread inside one call. A writer is in flight from its claim until it has cleared its mark; it is `Stranded`
      when the log failed it after its record had got there. A flusher
      `Waiting` sleeps until the write path is quiet; `Flushing` holds the write lock. A reader has read memory
      (`hit`) before it pins the tables; `seen` records every value its key has had since the call began. */
  datatype Thread =
    | WriteIdle(key: Bytes, kind: ValueKind)
    | FlushIdle
    | Claimed(rec: Record)
    | Logged(rec: Record)
    | Applied(rec: Record)
    | Stranded(rec: Record)
    | Waiting
    | Flushing(phase: Phase)
    | ReadIdle(rkey: Bytes)
    | Reading(rkey: Bytes, hit: Option<InternalValue>, seen: set<Option<Bytes>>)
    | ReadDone(rkey: Bytes, result: Option<Bytes>, seen: set<Option<Bytes>>)
    | Done

  /** The body of a flush: freezing, then for each frozen table installing and discarding, then the log, then compaction. */
  datatype Phase = Start | Loop | Installed | Compacting

  /** `wal` holds the records in the log; `tables` is newest first, `frozen` oldest first. */
  datatype State = State(nextSeq: nat, inFlight: nat, flushPending: bool,
                         active: Source, frozen: seq<Source>, tables: seq<Source>, wal: set<Record>,
                         threads: map<nat, Thread>)

  datatype Step =
    | Claim(t: nat)
    | LogRecord(t: nat)
    | LogFails(t: nat)
    | LateFails(t: nat)
    | Apply(t: nat)
    | Clear(t: nat, full: bool)
    | CallFlush(t: nat)
    | BeginFlush(t: nat)
    | Freeze(t: nat)
    | Install(t: nat)
    | Discard(t: nat)
    | FlushFails(t: nat)
    | ReleaseLog(t: nat)
    | Compact(t: nat, above: seq<Source>, block: seq<Source>, below: seq<Source>, merged: seq<Source>, dropDeletes: bool)
    | EndFlush(t: nat)
    | ReadMemory(t: nat)
    | FinishFromMemory(t: nat)
    | PinAndFinish(t: nat)

  function Memory(s: State): seq<Source> { [s.active] + Reversed(s.frozen) }

  function Stack(s: State): seq<Source> { Memory(s) + s.tables }

  /** What a reader that ran alone right now would get. */
  function ValueOf(s: State, k: Bytes): Option<Bytes> { Visible(Lookup(Stack(s), k)) }

  predicate InFlight(th: Thread) { th.Claimed? || th.Logged? || th.Applied? }

  function InFlightIds(s: State): set<nat> { set t | t in s.threads && InFlight(s.threads[t]) }

  /** The write lock is free unless a flush body runs. */
  predicate LockFree(s: State) { forall t :: t in s.threads ==> !s.threads[t].Flushing? }

  /** The merge of the two moments a scan looks at: the newer of the memory hit and the tables' hit. */
  function Newer(hit: Option<InternalValue>, found: Option<InternalValue>): Option<InternalValue> {
    if hit.Some? && (found.None? || hit.value.stamp >= found.value.stamp) then hit else found
  }

  ghost predicate Enabled(s: State, st: Step) {
    && st.t in s.threads
    && var th := s.threads[st.t];
       match st
       case Claim(_) => th.WriteIdle? && LockFree(s) && !s.flushPending
       case LogRecord(_) => th.Claimed?
       case LogFails(_) => th.Claimed? && LockFree(s)
       case LateFails(_) => th.Logged? && LockFree(s)
       case Apply(_) => th.Logged?
       case Clear(_, _) => th.Applied? && LockFree(s)
       case CallFlush(_) => th.FlushIdle? && LockFree(s)
       case BeginFlush(_) => th.Waiting? && LockFree(s) && s.inFlight == 0
       case Freeze(_) => th == Flushing(Start)
       case Install(_) => th == Flushing(Loop) && s.frozen != []
       case Discard(_) => th == Flushing(Phase.Installed)
       case FlushFails(_) => th == Flushing(Loop) || th == Flushing(Phase.Installed) || th == Flushing(Compacting)
       case ReleaseLog(_) => th == Flushing(Loop) && s.frozen == []
       case Compact(_, above, block, below, merged, dropDeletes) =>
         && th == Flushing(Compacting) && s.tables == above + block + below && |merged| <= 1
         && MergeOf(block, if merged == [] then map[] else merged[0], dropDeletes) && (dropDeletes ==> below == [])
       case EndFlush(_) => th == Flushing(Compacting)
       case ReadMemory(_) => th.ReadIdle?
       case FinishFromMemory(_) => th.Reading? && th.hit.Some?
       case PinAndFinish(_) => th.Reading?
  }

  /** Every reader under way sees the new state. */
  function Watched(s: State): State {
    s.(threads := map t | t in s.threads :: Watching(s, s.threads[t]))
  }

  function Watching(s: State, th: Thread): Thread {
    match th
    case Reading(k, hit, seen) => Reading(k, hit, seen + {ValueOf(s, k)})
    case _ => th
  }

  function Go(s: State, t: nat, th: Thread): State { s.(threads := s.threads[t := th]) }

  ghost function Changed(s: State, st: Step): State
    requires Enabled(s, st)
  {
    var t := st.t;
    var th := s.threads[t];
    match st
    case Claim(_) =>
      Go(s.(nextSeq := s.nextSeq + 1, inFlight := s.inFlight + 1), t,
         Claimed(Record(th.key, InternalValue(s.nextSeq, th.kind))))
    case LogRecord(_) => Go(s.(wal := s.wal + {th.rec}), t, Logged(th.rec))
    case LogFails(_) => Go(s.(inFlight := Less1(s.inFlight)), t, Done)
    case LateFails(_) => Go(s.(inFlight := Less1(s.inFlight)), t, Stranded(th.rec))
    case Apply(_) => Go(s.(active := InsertIfNewer(s.active, th.rec.key, th.rec.value)), t, Applied(th.rec))
    case Clear(_, full) =>
      var cleared := s.(inFlight := Less1(s.inFlight));
      if full then Go(cleared.(flushPending := true), t, Waiting) else Go(cleared, t, Done)
    case CallFlush(_) => Go(s.(flushPending := true), t, Waiting)
    case BeginFlush(_) => Go(s, t, Flushing(Start))
    case Freeze(_) =>
      Go(if s.active == map[] then s else s.(active := map[], frozen := s.frozen + [s.active]), t, Flushing(Loop))
    case Install(_) => Go(s.(tables := [s.frozen[0]] + s.tables), t, Flushing(Phase.Installed))
    case Discard(_) => Go(s.(frozen := Rest(s.frozen)), t, Flushing(Loop))
    case FlushFails(_) => Go(s.(flushPending := false), t, Done)
    case ReleaseLog(_) => Go(s.(wal := {}), t, Flushing(Compacting))
    case Compact(_, above, block, below, merged, _) => Go(s.(tables := above + merged + below), t, Flushing(Compacting))
    case EndFlush(_) => Go(s.(flushPending := false), t, Done)
    case ReadMemory(_) => Go(s, t, Reading(th.rkey, Lookup(Memory(s), th.rkey), {}))
    case FinishFromMemory(_) => Go(s, t, ReadDone(th.rkey, Visible(th.hit), th.seen))
    case PinAndFinish(_) => Go(s, t, ReadDone(th.rkey, Visible(Newer(th.hit, Lookup(s.tables, th.rkey))), th.seen))
  }

  function Less1(n: nat): nat { if n == 0 then 0 else n - 1 }

  function Rest<T>(s: seq<T>): seq<T> { if s == [] then [] else s[1..] }

  /** One step, watched by every reader under way. */
  ghost function Next(s: State, st: Step): State
    requires Enabled(s, st)
  {
    Watched(Changed(s, st))
  }

  // ------------------------------------------------------------------- the lock

  /** The count is exactly the writers between claim and clear; one flush body at a time, and none while a
      writer is in flight, whoever may have cleared `flushPending` in the meantime. */
  ghost predicate LockInv(s: State) {
    && s.inFlight == |InFlightIds(s)|
    && (forall t, u :: t in s.threads && u in s.threads && s.threads[t].Flushing? && s.threads[u].Flushing? ==> t == u)
    && (!LockFree(s) ==> s.inFlight == 0)
  }

  /** What each phase of the flush body may rely on. */
  ghost predicate PhaseInv(s: State) {
    forall t :: t in s.threads && s.threads[t].Flushing? ==> PhaseOk(s, s.threads[t].phase)
  }

  ghost predicate PhaseOk(s: State, phase: Phase) {
    match phase
    case Start => true
    case Loop => s.active == map[]
    case Installed => s.active == map[] && s.frozen != [] && s.tables != [] && s.tables[0] == s.frozen[0]
    case Compacting => s.active == map[] && s.frozen == [] && s.wal == {}
  }

  lemma OneIdLess(s: State, s': State, t: nat)
    requires t in s.threads && InFlight(s.threads[t]) && s'.threads.Keys == s.threads.Keys && !InFlight(s'.threads[t])
    requires forall u :: u in s.threads && u != t ==> (InFlight(s'.threads[u]) <==> InFlight(s.threads[u]))
    ensures |InFlightIds(s')| == |InFlightIds(s)| - 1
  {
    assert InFlightIds(s) == InFlightIds(s') + {t};
  }

  lemma OneIdMore(s: State, s': State, t: nat)
    requires t in s.threads && !InFlight(s.threads[t]) && s'.threads.Keys == s.threads.Keys && InFlight(s'.threads[t])
    requires forall u :: u in s.threads && u != t ==> (InFlight(s'.threads[u]) <==> InFlight(s.threads[u]))
    ensures |InFlightIds(s')| == |InFlightIds(s)| + 1
  {
    assert InFlightIds(s') == InFlightIds(s) + {t};
  }

  lemma SameIds(s: State, s': State)
    requires s'.threads.Keys == s.threads.Keys
    requires forall u :: u in s.threads ==> (InFlight(s'.threads[u]) <==> InFlight(s.threads[u]))
    ensures InFlightIds(s') == InFlightIds(s)
  {
  }

  /** A step moves its own thread only, and the count with it. */
  lemma StepOwn(s: State, st: Step)
    requires Enabled(s, st)
    ensures var s' := Changed(s, st);
      && s'.threads == s.threads[st.t := s'.threads[st.t]]
      && (st.Claim? ==> !InFlight(s.threads[st.t]) && InFlight(s'.threads[st.t]) && s'.inFlight == s.inFlight + 1)
      && (st.LogFails? || st.LateFails? || st.Clear? ==> InFlight(s.threads[st.t]) && !InFlight(s'.threads[st.t]) && s'.inFlight == Less1(s.inFlight))
      && (!st.Claim? && !st.LogFails? && !st.LateFails? && !st.Clear? ==>
            (InFlight(s.threads[st.t]) <==> InFlight(s'.threads[st.t])) && s'.inFlight == s.inFlight)
  {
    hide InsertIfNewer, Lookup, MergeOf, LockFree, Memory, Rest;
  }

  lemma StepCount(s: State, st: Step)
    requires LockInv(s) && Enabled(s, st)
    ensures Changed(s, st).inFlight == |InFlightIds(Changed(s, st))|
  {
    assert st.t in s.threads;
    hide Changed, Enabled, LockFree, InFlightIds;
    var s' := Changed(s, st);
    StepOwn(s, st);
    if st.Claim? {
      OneIdMore(s, s', st.t);
    } else if st.LogFails? || st.LateFails? || st.Clear? {
      OneIdLess(s, s', st.t);
    } else {
      SameIds(s, s');
    }
  }

  /** A flush body begins only with the lock free and nobody in flight, and the count stands still under it. */
  lemma StepFlushing(s: State, st: Step)
    requires Enabled(s, st)
    ensures var s' := Changed(s, st);
      && s'.threads == s.threads[st.t := s'.threads[st.t]]
      && (s'.threads[st.t].Flushing? ==>
            s'.inFlight == s.inFlight && (s.threads[st.t].Flushing? || (LockFree(s) && s.inFlight == 0)))
      && (!LockFree(s) ==> s'.inFlight == s.inFlight)
  {
    hide InsertIfNewer, Lookup, MergeOf, LockFree, Memory, Rest;
  }

  lemma StepBody(s: State, st: Step)
    requires LockInv(s) && Enabled(s, st)
    ensures var s' := Changed(s, st);
      && (forall t, u :: t in s'.threads && u in s'.threads && s'.threads[t].Flushing? && s'.threads[u].Flushing? ==> t == u)
      && (!LockFree(s') ==> s'.inFlight == 0)
  {
    assert st.t in s.threads;
    hide Changed, Enabled, InFlightIds;
    var s' := Changed(s, st);
    StepFlushing(s, st);
    assert forall u :: u in s.threads && u != st.t ==> s'.threads[u] == s.threads[u];
  }

  lemma StepLock(s: State, st: Step)
    requires LockInv(s) && Enabled(s, st)
    ensures LockInv(Changed(s, st))
  {
    hide Changed, LockFree, InFlightIds;
    StepCount(s, st);
    StepBody(s, st);
  }

  /** While a flush body runs nobody is in flight. */
  lemma BodyIsQuiet(s: State, t: nat)
    requires LockInv(s) && t in s.threads && s.threads[t].Flushing?
    ensures s.inFlight == 0 && forall u :: u in s.threads ==> !InFlight(s.threads[u])
  {
    forall u | u in s.threads
      ensures !InFlight(s.threads[u])
    {
      assert u !in InFlightIds(s);
    }
  }

  lemma StepPhase(s: State, st: Step)
    requires LockInv(s) && PhaseInv(s) && Enabled(s, st)
    ensures PhaseInv(Changed(s, st))
  {
    hide InsertIfNewer, Lookup, MergeOf;
    var s' := Changed(s, st);
    forall t | t in s'.threads && s'.threads[t].Flushing?
      ensures PhaseOk(s', s'.threads[t].phase)
    {
      if t != st.t {
        assert s.threads[t].Flushing? && PhaseOk(s, s.threads[t].phase);
        BodyIsQuiet(s, t);
      } else if s.threads[t].Flushing? {
        assert PhaseOk(s, s.threads[t].phase);
      }
    }
  }

  // ------------------------------------------------------------------- the data

  /** Sequence numbers in flight are new: above everything frozen or in a table, used by no other record. */
  ghost predicate ClaimsNew(s: State) {
    && (forall t :: t in s.threads && (s.threads[t].Claimed? || s.threads[t].Logged?) ==> ClaimNew(s, s.threads[t].rec))
    && (forall t :: t in s.threads && s.threads[t].Claimed? ==> StampUnused(s.wal, s.threads[t].rec))
    && (forall t :: t in s.threads && s.threads[t].Logged? ==> s.threads[t].rec in s.wal)
    && (forall t, u :: t in s.threads && u in s.threads && t != u && s.threads[t].Claimed? && s.threads[u].Claimed? ==>
          s.threads[t].rec.value.stamp != s.threads[u].rec.value.stamp)
  }

  ghost predicate ClaimNew(s: State, rec: Record) {
    rec.value.stamp < s.nextSeq && Below(s.frozen, rec.value.stamp) && Below(s.tables, rec.value.stamp)
  }

  ghost predicate StampUnused(wal: set<Record>, rec: Record) { forall r :: r in wal ==> r.value.stamp != rec.value.stamp }

  ghost predicate InLog(s: State, m: Source) { forall k :: k in m ==> Record(k, m[k]) in s.wal }

  /** A record of the log is shown, by itself or by a later record of the log, or it is not: it is about to be applied,
      or its write has failed. */
  ghost predicate Shown(s: State, r: Record) {
    var h := Lookup(Stack(s), r.key);
    h.Some? && h.value.stamp >= r.value.stamp && Record(r.key, h.value) in s.wal
  }

  predicate Bears(th: Thread, r: Record) { th == Logged(r) || th == Stranded(r) }

  ghost predicate Unapplied(s: State, r: Record) {
    exists t :: t in s.threads && Bears(s.threads[t], r)
  }

  /** A failed write's record that is still in the log is newer than what the tables have for its key, or what they
      have is in the log as well. */
  ghost predicate StrandedOk(s: State) {
    forall t :: t in s.threads && s.threads[t].Stranded? ==> RecordOk(s, s.threads[t].rec)
  }

  ghost predicate RecordOk(s: State, r: Record) {
    r in s.wal ==> forall m: Source :: m in s.tables && r.key in m ==> m[r.key].stamp < r.value.stamp || Record(r.key, m[r.key]) in s.wal
  }

  ghost predicate DataInv(s: State) {
    && Recent(Stack(s)) && Below(Stack(s), s.nextSeq)
    && (forall r :: r in s.wal ==> r.value.stamp < s.nextSeq) && Consistent(s.wal)
    && InLog(s, s.active) && (forall i :: 0 <= i < |s.frozen| ==> InLog(s, s.frozen[i]))
    && (forall r :: r in s.wal ==> Unapplied(s, r) || Shown(s, r))
    && ClaimsNew(s) && StrandedOk(s)
  }

  lemma ClaimedIsOk(s: State, r: Record)
    requires ClaimNew(s, r)
    ensures RecordOk(s, r)
  {
    forall m: Source | m in s.tables && r.key in m
      ensures m[r.key].stamp < r.value.stamp
    {
      var i :| 0 <= i < |s.tables| && s.tables[i] == m;
      assert AllBelow(s.tables[i], r.value.stamp);
    }
  }

  lemma OkKept(s: State, s': State, r: Record)
    requires RecordOk(s, r) && s'.tables == s.tables && (r in s'.wal ==> r in s.wal) && s.wal <= s'.wal
    ensures RecordOk(s', r)
  {
  }

  /** Steps that leave memory, tables and log alone. */
  lemma DataUntouched(s: State, s': State, t: nat)
    requires DataInv(s) && t in s.threads
    requires s'.active == s.active && s'.frozen == s.frozen && s'.tables == s.tables && s'.wal == s.wal && s'.nextSeq >= s.nextSeq
    requires t in s'.threads && s'.threads == s.threads[t := s'.threads[t]]
    requires if s.threads[t].Logged? then s'.threads[t] == Stranded(s.threads[t].rec) else !s'.threads[t].Logged? && !s'.threads[t].Stranded?
    requires !s.threads[t].Stranded?
    requires s'.threads[t].Claimed? ==> s'.threads[t].rec.value.stamp == s.nextSeq < s'.nextSeq
    ensures DataInv(s')
  {
    hide Recent, Lookup, Consistent, Reversed;
    assert Stack(s') == Stack(s);
    BelowMore(Stack(s), s.nextSeq, s'.nextSeq);
    StackBelow(s);
    forall r | r in s.wal
      ensures Unapplied(s', r) || Shown(s', r)
    {
      if Unapplied(s, r) {
        var u :| u in s.threads && Bears(s.threads[u], r);
        assert u in s'.threads && Bears(s'.threads[u], r);
      } else {
        assert Shown(s, r);
      }
    }
    forall u | u in s'.threads && (s'.threads[u].Claimed? || s'.threads[u].Logged?)
      ensures ClaimNew(s', s'.threads[u].rec)
    {
      if u != t { assert ClaimNew(s, s.threads[u].rec); }
    }
    forall u | u in s'.threads && s'.threads[u].Claimed?
      ensures StampUnused(s'.wal, s'.threads[u].rec)
    {
      if u != t { assert StampUnused(s.wal, s.threads[u].rec); }
    }
    forall u, v | u in s'.threads && v in s'.threads && u != v && s'.threads[u].Claimed? && s'.threads[v].Claimed?
      ensures s'.threads[u].rec.value.stamp != s'.threads[v].rec.value.stamp
    {
      if u != t { assert ClaimNew(s, s.threads[u].rec); }
      if v != t { assert ClaimNew(s, s.threads[v].rec); }
    }
    forall i | 0 <= i < |s'.frozen|
      ensures InLog(s', s'.frozen[i])
    {
      assert InLog(s, s.frozen[i]);
    }
    assert InLog(s, s.active);
    if s.threads[t].Logged? { ClaimedIsOk(s, s.threads[t].rec); }
    forall u | u in s'.threads && s'.threads[u].Stranded?
      ensures RecordOk(s', s'.threads[u].rec)
    {
      if u != t { assert RecordOk(s, s.threads[u].rec); }
      OkKept(s, s', s'.threads[u].rec);
    }
  }

  lemma BelowMore(sources: seq<Source>, n: nat, m: nat)
    requires Below(sources, n) && n <= m
    ensures Below(sources, m)
  {
    forall i | 0 <= i < |sources|
      ensures AllBelow(sources[i], m)
    {
      assert AllBelow(sources[i], n);
    }
  }

  /** What is below in the stack is below in each part. */
  lemma StackBelow(s: State)
    requires Below(Stack(s), s.nextSeq)
    ensures Below(s.frozen, s.nextSeq) && Below(s.tables, s.nextSeq) && AllBelow(s.active, s.nextSeq)
  {
    hide AllBelow;
    var m, all := Memory(s), Stack(s);
    assert all[0] == s.active;
    forall i | 0 <= i < |s.frozen|
      ensures AllBelow(s.frozen[i], s.nextSeq)
    {
      ReversedAt(s.frozen, |s.frozen| - 1 - i);
      assert all[1 + |s.frozen| - 1 - i] == s.frozen[i];
    }
    forall i | 0 <= i < |s.tables|
      ensures AllBelow(s.tables[i], s.nextSeq)
    {
      assert all[|m| + i] == s.tables[i];
    }
  }

  lemma LogRecordData(s: State, st: Step)
    requires DataInv(s) && Enabled(s, st) && st.LogRecord?
    ensures DataInv(Changed(s, st))
  {
    hide DataInv, MergeOf, Lookup, InsertIfNewer;
    LoggedData(s, Changed(s, st), st.t, s.threads[st.t].rec);
  }

  lemma LoggedData(s: State, s': State, t: nat, rec: Record)
    requires DataInv(s) && t in s.threads && s.threads[t] == Claimed(rec)
    requires s' == s.(wal := s.wal + {rec}, threads := s.threads[t := Logged(rec)])
    ensures DataInv(s')
  {
    assert ClaimNew(s, rec) && StampUnused(s.wal, rec);
    assert Stack(s') == Stack(s);
    ConsistentMore(s.wal, rec);
    LoggedStranded(s, s', t, rec);
    hide Recent, Lookup, Reversed, Below, ClaimsNew, Consistent, StampUnused, Stack, Unapplied, Shown, StrandedOk;
    LogAccounted(s, s', t, rec);
    LoggedClaims(s, s', t, rec);
    assert InLog(s, s.active);
    FrozenStayLogged(s, s');
  }

  lemma LoggedStranded(s: State, s': State, t: nat, rec: Record)
    requires StrandedOk(s) && ClaimNew(s, rec) && t in s.threads && s'.threads == s.threads[t := Logged(rec)]
    requires s'.wal == s.wal + {rec} && s'.frozen == s.frozen && s'.tables == s.tables && s'.nextSeq == s.nextSeq
    ensures StrandedOk(s')
  {
    hide RecordOk, Below;
    forall u | u in s'.threads && s'.threads[u].Stranded?
      ensures RecordOk(s', s'.threads[u].rec)
    {
      assert RecordOk(s, s.threads[u].rec);
      if s'.threads[u].rec == rec {
        assert ClaimNew(s', rec);
        ClaimedIsOk(s', rec);
      } else {
        OkKept(s, s', s'.threads[u].rec);
      }
    }
  }

  lemma AppliedStranded(s: State, s': State, t: nat, rec: Record)
    requires StrandedOk(s) && t in s.threads && s'.threads == s.threads[t := Applied(rec)]
    requires s'.wal == s.wal && s'.tables == s.tables
    ensures StrandedOk(s')
  {
    hide RecordOk;
    forall u | u in s'.threads && s'.threads[u].Stranded?
      ensures RecordOk(s', s'.threads[u].rec)
    {
      assert RecordOk(s, s.threads[u].rec);
      OkKept(s, s', s'.threads[u].rec);
    }
  }

  lemma ConsistentMore(wal: set<Record>, rec: Record)
    requires Consistent(wal) && StampUnused(wal, rec)
    ensures Consistent(wal + {rec})
  {
  }

  lemma LoggedClaims(s: State, s': State, t: nat, rec: Record)
    requires ClaimsNew(s) && t in s.threads && s.threads[t] == Claimed(rec) && s'.threads == s.threads[t := Logged(rec)]
    requires s'.wal == s.wal + {rec} && s'.nextSeq == s.nextSeq && s'.frozen == s.frozen && s'.tables == s.tables
    ensures ClaimsNew(s')
  {
    hide Below;
    forall u | u in s'.threads && (s'.threads[u].Claimed? || s'.threads[u].Logged?)
      ensures ClaimNew(s', s'.threads[u].rec)
    {
      assert ClaimNew(s, s.threads[u].rec);
    }
    forall u | u in s'.threads && s'.threads[u].Claimed?
      ensures StampUnused(s'.wal, s'.threads[u].rec)
    {
      assert StampUnused(s.wal, s.threads[u].rec);
    }
  }

  lemma AppliedClaims(s: State, s': State, t: nat, rec: Record)
    requires ClaimsNew(s) && t in s.threads && s.threads[t] == Logged(rec) && s'.threads == s.threads[t := Applied(rec)]
    requires s'.wal == s.wal && s'.nextSeq == s.nextSeq && s'.frozen == s.frozen && s'.tables == s.tables
    ensures ClaimsNew(s')
  {
    hide Below, StampUnused;
    forall u | u in s'.threads && (s'.threads[u].Claimed? || s'.threads[u].Logged?)
      ensures ClaimNew(s', s'.threads[u].rec)
    {
      assert ClaimNew(s, s.threads[u].rec);
    }
  }

  lemma LogAccounted(s: State, s': State, t: nat, rec: Record)
    requires t in s.threads && s.threads[t] == Claimed(rec) && s'.wal == s.wal + {rec} && s'.threads == s.threads[t := Logged(rec)]
    requires Stack(s') == Stack(s) && forall r :: r in s.wal ==> Unapplied(s, r) || Shown(s, r)
    ensures forall r :: r in s'.wal ==> Unapplied(s', r) || Shown(s', r)
  {
    hide Stack, Lookup;
    forall r | r in s'.wal
      ensures Unapplied(s', r) || Shown(s', r)
    {
      if r == rec {
        assert Bears(s'.threads[t], r);
      } else if Unapplied(s, r) {
        var u :| u in s.threads && Bears(s.threads[u], r);
        assert Bears(s'.threads[u], r);
      } else {
        assert Shown(s, r);
      }
    }
  }

  /** Applying a record whose number is above everything frozen or stored: it is shown from now on, unless a later
      write of the key has been applied before it. */
  lemma ApplyShows(s: State, rec: Record, s': State)
    requires Recent(Stack(s)) && ClaimNew(s, rec)
    requires s'.active == InsertIfNewer(s.active, rec.key, rec.value) && s'.frozen == s.frozen && s'.tables == s.tables
    ensures Recent(Stack(s'))
    ensures forall k :: Lookup(Stack(s'), k) == if k == rec.key then Some(s'.active[k]) else Lookup(Stack(s), k)
    ensures var h := Lookup(Stack(s), rec.key); h.Some? ==> h.value.stamp <= s'.active[rec.key].stamp
    ensures rec.key in s.active && s'.active == s.active ==> Lookup(Stack(s), rec.key) == Some(s.active[rec.key])
  {
    hide Reversed;
    var below := Reversed(s.frozen) + s.tables;
    assert Stack(s) == [s.active] + below && Stack(s') == [s'.active] + below;
    forall k
      ensures Lookup(Stack(s'), k) == if k in s'.active then Some(s'.active[k]) else Lookup(below, k)
      ensures Lookup(Stack(s), k) == if k in s.active then Some(s.active[k]) else Lookup(below, k)
    {
      LookupInFirst(s'.active, below, k);
      LookupInFirst(s.active, below, k);
    }
    forall o | o in below
      ensures Over(s'.active, o) && AllBelow(o, rec.value.stamp)
    {
      StoredBelow(s, o, rec.value.stamp);
      var i :| 0 <= i < |below| && below[i] == o;
      assert Stack(s)[i + 1] == o;
      assert Over(Stack(s)[0], Stack(s)[i + 1]);
    }
    BlockRecent([s.active], below, []);
    assert [s.active] + below + [] == Stack(s);
    assert Recent([s'.active]);
    RecentConcat([s'.active], below);
    var k := rec.key;
    if k !in s.active && Lookup(below, k).Some? {
      var i := LookupHit(below, k);
      assert below[i] in below;
    }
  }

  lemma StoredBelow(s: State, o: Source, n: nat)
    requires o in Reversed(s.frozen) + s.tables && Below(s.frozen, n) && Below(s.tables, n)
    ensures AllBelow(o, n)
  {
    if o in s.tables {
      var i :| 0 <= i < |s.tables| && s.tables[i] == o;
    } else {
      ReversedMembers(s.frozen);
      var i :| 0 <= i < |s.frozen| && s.frozen[i] == o;
    }
  }

  lemma ApplyData(s: State, st: Step)
    requires DataInv(s) && Enabled(s, st) && st.Apply?
    ensures DataInv(Changed(s, st))
  {
    hide DataInv, MergeOf, Lookup, InsertIfNewer;
    AppliedData(s, Changed(s, st), st.t, s.threads[st.t].rec);
  }

  lemma AppliedData(s: State, s': State, t: nat, rec: Record)
    requires DataInv(s) && t in s.threads && s.threads[t] == Logged(rec)
    requires s' == s.(active := InsertIfNewer(s.active, rec.key, rec.value), threads := s.threads[t := Applied(rec)])
    ensures DataInv(s')
  {
    assert ClaimNew(s, rec) && rec in s.wal;
    hide Recent, Lookup, Reversed, Stack, Consistent, ClaimsNew, StrandedOk;
    AppliedClaims(s, s', t, rec);
    AppliedStranded(s, s', t, rec);
    ApplyShows(s, rec, s');
    ApplyBelow(s, rec, s');
    ApplyAccounted(s, s', t, rec);
    assert InLog(s, s.active);
    assert InLog(s', s'.active);
    FrozenStayLogged(s, s');
  }

  /** What the log holds stays accounted for when one logged record becomes shown. */
  lemma ApplyAccounted(s: State, s': State, t: nat, rec: Record)
    requires t in s.threads && s.threads[t] == Logged(rec) && s'.wal == s.wal && s'.threads == s.threads[t := Applied(rec)]
    requires forall r :: r in s.wal ==> Unapplied(s, r) || Shown(s, r)
    requires Shown(s', rec) && forall r :: r in s.wal && Shown(s, r) ==> Shown(s', r)
    ensures forall r :: r in s'.wal ==> Unapplied(s', r) || Shown(s', r)
  {
    hide Shown;
    forall r | r in s'.wal
      ensures Unapplied(s', r) || Shown(s', r)
    {
      if r != rec && Unapplied(s, r) {
        var u :| u in s.threads && Bears(s.threads[u], r);
        assert Bears(s'.threads[u], r);
      }
    }
  }

  lemma FrozenStayLogged(s: State, s': State)
    requires s'.frozen == s.frozen && s.wal <= s'.wal && forall i :: 0 <= i < |s.frozen| ==> InLog(s, s.frozen[i])
    ensures forall i :: 0 <= i < |s'.frozen| ==> InLog(s', s'.frozen[i])
  {
    forall i | 0 <= i < |s'.frozen|
      ensures InLog(s', s'.frozen[i])
    {
      assert InLog(s, s.frozen[i]);
    }
  }

  lemma ApplyBelow(s: State, rec: Record, s': State)
    requires Below(Stack(s), s.nextSeq) && rec.value.stamp < s.nextSeq
    requires s'.active == InsertIfNewer(s.active, rec.key, rec.value) && s'.frozen == s.frozen && s'.tables == s.tables
    ensures Below(Stack(s'), s.nextSeq)
  {
    var a, b := Stack(s), Stack(s');
    forall i | 0 <= i < |b|
      ensures AllBelow(b[i], s.nextSeq)
    {
      assert AllBelow(a[i], s.nextSeq);
    }
  }

  // ------------------------------------------------------------- the flush body

  /** During a flush body nobody is in flight, so only the stack and the log matter. */
  lemma BodyData(s: State, t: nat, s': State)
    requires LockInv(s) && DataInv(s) && t in s.threads && s.threads[t].Flushing?
    requires t in s'.threads && s'.threads[t].Flushing? && s'.threads == s.threads[t := s'.threads[t]]
    requires s'.nextSeq == s.nextSeq && s'.wal <= s.wal && Recent(Stack(s')) && Below(Stack(s'), s'.nextSeq)
    requires InLog(s', s'.active) && forall i :: 0 <= i < |s'.frozen| ==> InLog(s', s'.frozen[i])
    requires s'.wal == {} || (s'.wal == s.wal && forall k :: Lookup(Stack(s'), k) == Lookup(Stack(s), k))
    requires s'.wal == {} || forall m: Source :: m in s'.tables ==> m in s.tables || InLog(s', m)
    ensures DataInv(s')
  {
    hide Recent, Lookup, Stack, Below, LockInv, InLog;
    BodyIsQuiet(s, t);
    forall r | r in s'.wal
      ensures Unapplied(s', r) || Shown(s', r)
    {
      if Unapplied(s, r) {
        var u :| u in s.threads && Bears(s.threads[u], r);
        assert Bears(s'.threads[u], r);
      } else {
        assert Shown(s, r);
        assert s'.wal == s.wal && Lookup(Stack(s'), r.key) == Lookup(Stack(s), r.key);
      }
    }
    BodyStranded(s, t, s');
  }

  lemma BodyStranded(s: State, t: nat, s': State)
    requires StrandedOk(s) && t in s.threads && t in s'.threads && s'.threads[t].Flushing? && s'.threads == s.threads[t := s'.threads[t]]
    requires s'.wal == {} || (s'.wal == s.wal && forall m: Source :: m in s'.tables ==> m in s.tables || InLog(s', m))
    ensures StrandedOk(s')
  {
    forall u | u in s'.threads && s'.threads[u].Stranded?
      ensures RecordOk(s', s'.threads[u].rec)
    {
      assert RecordOk(s, s.threads[u].rec);
    }
  }

  lemma NoneUnapplied(s: State, r: Record)
    requires forall u :: u in s.threads ==> !InFlight(s.threads[u])
    ensures Unapplied(s, r) <==> IsStranded(s, r)
  {
  }

  /** The record of a write that failed after it had reached the log. */
  ghost predicate IsStranded(s: State, r: Record) { exists t :: t in s.threads && s.threads[t] == Stranded(r) }

  lemma FreezeData(s: State, st: Step)
    requires LockInv(s) && DataInv(s) && Enabled(s, st) && st.Freeze?
    ensures DataInv(Changed(s, st))
  {
    hide Recent, Lookup, Reversed, AllBelow, Consistent, LockInv;
    var s', t := Changed(s, st), st.t;
    if s.active != map[] {
      ReversedConcat(s.frozen, [s.active]);
      ReversedOne(s.active);
      assert Stack(s') == [map[]] + Stack(s);
      var all := Stack(s);
      EmptyRecent(all);
      forall i | 0 <= i < |[map[]] + all|
        ensures AllBelow(([map[]] + all)[i], s.nextSeq)
      {
        if i == 0 { NothingBelow(s.nextSeq); }
      }
      forall k
        ensures Lookup(Stack(s'), k) == Lookup(all, k)
      {
        LookupInFirst(map[], all, k);
      }
      assert InLog(s, s.active);
      forall i | 0 <= i < |s'.frozen|
        ensures InLog(s', s'.frozen[i])
      {
        if i < |s.frozen| { assert InLog(s, s.frozen[i]); }
      }
    } else {
      assert Stack(s') == Stack(s);
    }
    BodyData(s, t, s');
  }

  lemma NothingBelow(n: nat)
    ensures AllBelow(map[], n)
  {
  }

  lemma EmptyRecent(all: seq<Source>)
    requires Recent(all)
    ensures Recent([map[]] + all)
  {
    RecentConcat([map[]], all);
  }

  /** Two neighbouring copies of a table count as one. */
  lemma TwiceSame(a: seq<Source>, f: Source, b: seq<Source>)
    ensures Recent(a + [f] + b) <==> Recent(a + [f, f] + b)
    ensures forall k :: Lookup(a + [f] + b, k) == Lookup(a + [f, f] + b, k)
    ensures forall n :: Below(a + [f] + b, n) <==> Below(a + [f, f] + b, n)
  {
    hide Over, AllBelow, Lookup, Recent;
    var one, two := a + [f] + b, a + [f, f] + b;
    TwiceRecent(a, f, b);
    assert forall i :: 0 <= i < |one| ==> one[i] == two[if i <= |a| then i else i + 1];
    assert forall i :: 0 <= i < |two| ==> two[i] == one[if i <= |a| then i else i - 1];
    forall k
      ensures Lookup(one, k) == Lookup(two, k)
    {
      TwiceLookup(a, f, b, k);
    }
  }

  lemma TwiceRecent(a: seq<Source>, f: Source, b: seq<Source>)
    ensures Recent(a + [f] + b) <==> Recent(a + [f, f] + b)
  {
    hide Over;
    var one, two := a + [f] + b, a + [f, f] + b;
    OverSelf(f);
    assert forall i :: 0 <= i < |one| ==> one[i] == two[if i <= |a| then i else i + 1];
    if Recent(one) {
      forall i, j | 0 <= i < j < |two|
        ensures Over(two[i], two[j])
      {
        var i', j' := if i <= |a| then i else i - 1, if j <= |a| then j else j - 1;
        assert two[i] == one[i'] && two[j] == one[j'];
      }
    }
  }

  lemma TwiceLookup(a: seq<Source>, f: Source, b: seq<Source>, k: Bytes)
    ensures Lookup(a + [f] + b, k) == Lookup(a + [f, f] + b, k)
  {
    hide Lookup;
    LookupConcat(a + [f], b, k);
    LookupConcat(a + [f, f], b, k);
    LookupConcat(a, [f], k);
    LookupConcat(a, [f, f], k);
    LookupConcat([f], [f], k);
    assert [f] + [f] == [f, f];
  }

  lemma OverSelf(f: Source)
    ensures Over(f, f)
  {
  }

  /** The stack around the oldest frozen table. */
  lemma OldestLast(s: State)
    requires s.frozen != []
    ensures Stack(s) == ([s.active] + Reversed(s.frozen[1..])) + [s.frozen[0]] + s.tables
  {
  }

  lemma InstallData(s: State, st: Step)
    requires LockInv(s) && DataInv(s) && Enabled(s, st) && st.Install?
    ensures DataInv(Changed(s, st))
  {
    hide Recent, Lookup, Reversed, Below, Consistent, LockInv, Stack, InLog;
    var s', t := Changed(s, st), st.t;
    var a, f, b := [s.active] + Reversed(s.frozen[1..]), s.frozen[0], s.tables;
    OldestLast(s);
    OldestLast(s');
    assert a + [f] + ([f] + b) == a + [f, f] + b;
    TwiceSame(a, f, b);
    forall m | m == s.active || m in s.frozen
      ensures InLog(s', m)
    {
      SameLog(s, s', m);
    }
    BodyData(s, t, s');
  }

  lemma SameLog(s: State, s': State, m: Source)
    requires InLog(s, m) && s'.wal == s.wal
    ensures InLog(s', m)
  {
  }

  lemma DiscardData(s: State, st: Step)
    requires LockInv(s) && PhaseInv(s) && DataInv(s) && Enabled(s, st) && st.Discard?
    ensures DataInv(Changed(s, st))
  {
    hide Recent, Lookup, Reversed, Below, Consistent, LockInv, Stack, InLog;
    var s', t := Changed(s, st), st.t;
    assert PhaseOk(s, Phase.Installed);
    var a, f, b := [s.active] + Reversed(s.frozen[1..]), s.frozen[0], s.tables[1..];
    OldestLast(s);
    assert s.tables == [f] + b;
    assert a + [f] + ([f] + b) == a + [f, f] + b;
    StackIs(s');
    assert a + [f] + b == a + s.tables;
    TwiceSame(a, f, b);
    forall m | m == s.active || m in s.frozen
      ensures InLog(s', m)
    {
      SameLog(s, s', m);
    }
    BodyData(s, t, s');
  }

  lemma StackIs(s: State)
    ensures Stack(s) == [s.active] + Reversed(s.frozen) + s.tables
  {
  }

  lemma ReleaseData(s: State, st: Step)
    requires LockInv(s) && PhaseInv(s) && DataInv(s) && Enabled(s, st) && st.ReleaseLog?
    ensures DataInv(Changed(s, st))
  {
    hide Recent, Lookup, Reversed, Below, Consistent, LockInv;
    var s' := Changed(s, st);
    assert PhaseOk(s, Loop);
    assert Stack(s') == Stack(s);
    BodyData(s, st.t, s');
  }

  lemma CompactData(s: State, st: Step)
    requires LockInv(s) && PhaseInv(s) && DataInv(s) && Enabled(s, st) && st.Compact?
    ensures DataInv(Changed(s, st))
  {
    hide Lookup, Consistent, LockInv, AllBelow, MergeOf, Recent;
    var s' := Changed(s, st);
    var m := if st.merged == [] then map[] else st.merged[0];
    assert PhaseOk(s, Compacting);
    assert Stack(s) == [map[]] + s.tables && Stack(s') == [map[]] + s'.tables;
    StackBelow(s);
    CompactedTables(st.above, st.block, st.below, st.merged, st.dropDeletes, s.nextSeq);
    EmptyRecent(s'.tables);
    NothingBelow(s.nextSeq);
    BodyData(s, st.t, s');
  }

  lemma CompactedTables(above: seq<Source>, block: seq<Source>, below: seq<Source>, merged: seq<Source>, drop: bool, n: nat)
    requires Recent([map[]] + (above + block + below)) && Below(above + block + below, n)
    requires |merged| <= 1 && MergeOf(block, if merged == [] then map[] else merged[0], drop)
    ensures Recent(above + merged + below) && Below(above + merged + below, n)
  {
    hide MergeOf, Over, AllBelow;
    var m := if merged == [] then map[] else merged[0];
    var all, now := above + block + below, above + merged + below;
    LowerRecent(all);
    MergeKeepsRecent(above, block, below, m, drop);
    if merged == [] {
      RecentSkip(above, [m], below);
      assert now == above + below;
    } else {
      assert merged == [m];
    }
    assert forall i :: 0 <= i < |block| ==> block[i] == all[|above| + i];
    MergeBelow(block, m, drop, n);
    forall i | 0 <= i < |now|
      ensures AllBelow(now[i], n)
    {
      if i < |above| { assert now[i] == all[i]; }
      else if i >= |above| + |merged| { assert now[i] == all[i - |merged| + |block|]; }
    }
  }

  lemma StepData(s: State, st: Step)
    requires LockInv(s) && PhaseInv(s) && DataInv(s) && Enabled(s, st)
    ensures DataInv(Changed(s, st))
  {
    hide DataInv, LockInv, PhaseInv, MergeOf, Lookup, Memory;
    match st
    case LogRecord(_) => LogRecordData(s, st);
    case Apply(_) => ApplyData(s, st);
    case Freeze(_) => FreezeData(s, st);
    case Install(_) => InstallData(s, st);
    case Discard(_) => DiscardData(s, st);
    case ReleaseLog(_) => ReleaseData(s, st);
    case Compact(_, _, _, _, _, _) => CompactData(s, st);
    case _ => DataUntouched(s, Changed(s, st), st.t);
  }

  // ------------------------------------------------------------------- readers

  /** A version a reader of `k` may still come across is one its hit supersedes, or a value `k` has had meanwhile. */
  predicate Known(hit: Option<InternalValue>, seen: set<Option<Bytes>>, v: InternalValue) {
    (hit.Some? && hit.value.stamp >= v.stamp) || Visible(Some(v)) in seen
  }

  ghost predicate ReaderOk(s: State, k: Bytes, hit: Option<InternalValue>, seen: set<Option<Bytes>>) {
    && (hit.Some? ==> Visible(hit) in seen)
    && (hit.None? ==> Visible(Lookup(s.tables, k)) in seen)
    && (forall m :: m in Memory(s) && k in m ==> Known(hit, seen, m[k]))
    && (Lookup(s.tables, k).Some? ==> Known(hit, seen, Lookup(s.tables, k).value))
  }

  ghost predicate ReadersInv(s: State) {
    forall t :: t in s.threads ==>
      match s.threads[t]
      case Reading(k, hit, seen) => ReaderOk(s, k, hit, seen)
      case ReadDone(_, result, seen) => result in seen
      case _ => true
  }

  /** A reader starts with its memory hit, or with none and the tables as they are. */
  lemma ReadStarts(s: State, k: Bytes)
    requires Recent(Stack(s))
    ensures ReaderOk(s, k, Lookup(Memory(s), k), {ValueOf(s, k)})
  {
    hide Memory;
    var hit := Lookup(Memory(s), k);
    LookupConcat(Memory(s), s.tables, k);
    LookupMiss(Memory(s), k);
    forall m | m in Memory(s) && k in m
      ensures Known(hit, {ValueOf(s, k)}, m[k])
    {
      var i :| 0 <= i < |Memory(s)| && Memory(s)[i] == m;
      assert Stack(s)[i] == m;
      HitSupersedes(Stack(s), k, i);
    }
    if hit.Some? && Lookup(s.tables, k).Some? {
      var j := LookupHit(s.tables, k);
      assert Stack(s)[|Memory(s)| + j] == s.tables[j];
      HitSupersedes(Stack(s), k, |Memory(s)| + j);
    }
  }

  /** What a finished read returns its key has had. */
  lemma ReadEnds(s: State, k: Bytes, hit: Option<InternalValue>, seen: set<Option<Bytes>>)
    requires ReaderOk(s, k, hit, seen)
    ensures Visible(Newer(hit, Lookup(s.tables, k))) in seen
  {
  }

  lemma KnownMore(hit: Option<InternalValue>, seen: set<Option<Bytes>>, more: set<Option<Bytes>>, v: InternalValue)
    requires Known(hit, seen, v) && seen <= more
    ensures Known(hit, more, v)
  {
  }

  /** With the same tables, and no new version in memory but the current one, a reader stays sound. */
  lemma ReaderKept(s: State, s': State, k: Bytes, hit: Option<InternalValue>, seen: set<Option<Bytes>>, more: set<Option<Bytes>>)
    requires ReaderOk(s, k, hit, seen) && seen <= more && s'.tables == s.tables
    requires forall m' :: m' in Memory(s') && k in m' ==>
               Visible(Some(m'[k])) in more || exists m :: m in Memory(s) && k in m && m[k] == m'[k]
    ensures ReaderOk(s', k, hit, more)
  {
    hide Memory, Lookup;
    forall m' | m' in Memory(s') && k in m'
      ensures Known(hit, more, m'[k])
    {
      if Visible(Some(m'[k])) !in more {
        var m :| m in Memory(s) && k in m && m[k] == m'[k];
        KnownMore(hit, seen, more, m[k]);
      }
    }
  }

  /** How a compaction changes a lookup in the tables: not at all, or a deletion disappears. */
  lemma MergeLookup(above: seq<Source>, block: seq<Source>, below: seq<Source>, merged: seq<Source>, drop: bool, k: Bytes)
    requires Recent(above + block + below) && |merged| <= 1
    requires MergeOf(block, if merged == [] then map[] else merged[0], drop) && (drop ==> below == [])
    ensures var was, now := Lookup(above + block + below, k), Lookup(above + merged + below, k);
            Visible(now) == Visible(was) && (now.Some? ==> now == was)
  {
    hide Lookup, Over;
    var m := if merged == [] then map[] else merged[0];
    MergePreservesVisible(above, block, below, m, drop, k);
    BlockRecent(above, block, below);
    PositionIsNewest(block, k);
    LookupConcat(above + block, below, k);
    LookupConcat(above, block, k);
    LookupConcat(above + [m], below, k);
    LookupConcat(above, [m], k);
    LookupInFirst(m, [], k);
    var none: seq<Source> := [];
    assert [m] + none == [m];
    NoLookup(k);
    if merged == [] {
      EmptyInvisible(above, below, k);
    } else {
      assert merged == [m];
    }
    assert if k in m then Newest(block, k) == Some(m[k])
           else Newest(block, k).None? || (drop && Newest(block, k).value.kind == Tombstone);
  }

  lemma NoLookup(k: Bytes)
    ensures Lookup([], k) == None
  {
  }

  lemma StepReader(s: State, st: Step, k: Bytes, hit: Option<InternalValue>, seen: set<Option<Bytes>>)
    requires LockInv(s) && PhaseInv(s) && DataInv(s) && Enabled(s, st) && ReaderOk(s, k, hit, seen)
    ensures ReaderOk(Changed(s, st), k, hit, seen + {ValueOf(Changed(s, st), k)})
  {
    hide LockInv, DataInv, Lookup, Reversed, MergeOf, Known, ReaderOk;
    var s' := Changed(s, st);
    var more := seen + {ValueOf(s', k)};
    match st
    case Apply(_) => ApplyReader(s, st, k, hit, seen);
    case Freeze(_) => FreezeReader(s, st, k, hit, seen);
    case Install(_) => InstallReader(s, st, k, hit, seen);
    case Discard(_) =>
      OldestOfMemory(s);
      assert forall m :: m in Memory(s') ==> m in Memory(s);
      ReaderKept(s, s', k, hit, seen, more);
    case Compact(_, _, _, _, _, _) => CompactReader(s, st, k, hit, seen);
    case _ =>
      assert Memory(s') == Memory(s);
      ReaderKept(s, s', k, hit, seen, more);
  }

  lemma OldestOfMemory(s: State)
    requires PhaseInv(s)
    ensures s.frozen != [] ==> Memory(s) == [s.active] + Reversed(s.frozen[1..]) + [s.frozen[0]]
    ensures forall t :: t in s.threads && s.threads[t] == Flushing(Phase.Installed) ==> s.frozen != []
  {
  }

  lemma ApplyReader(s: State, st: Step, k: Bytes, hit: Option<InternalValue>, seen: set<Option<Bytes>>)
    requires Enabled(s, st) && st.Apply? && ReaderOk(s, k, hit, seen)
    ensures ReaderOk(Changed(s, st), k, hit, seen + {ValueOf(Changed(s, st), k)})
  {
    hide Reversed, Known;
    var s' := Changed(s, st);
    var more := seen + {ValueOf(s', k)};
    var rest := Reversed(s.frozen) + s.tables;
    assert Stack(s') == [s'.active] + rest;
    LookupInFirst(s'.active, rest, k);
    forall m' | m' in Memory(s') && k in m'
      ensures Visible(Some(m'[k])) in more || exists m :: m in Memory(s) && k in m && m[k] == m'[k]
    {
      if m' == s'.active {
        assert ValueOf(s', k) == Visible(Some(m'[k]));
      } else {
        assert m' in Memory(s);
      }
    }
    ReaderKept(s, s', k, hit, seen, more);
  }

  lemma FreezeReader(s: State, st: Step, k: Bytes, hit: Option<InternalValue>, seen: set<Option<Bytes>>)
    requires Enabled(s, st) && st.Freeze? && ReaderOk(s, k, hit, seen)
    ensures ReaderOk(Changed(s, st), k, hit, seen + {ValueOf(Changed(s, st), k)})
  {
    hide Known, Lookup;
    var s' := Changed(s, st);
    ReversedConcat(s.frozen, [s.active]);
    ReversedOne(s.active);
    ReaderKept(s, s', k, hit, seen, seen + {ValueOf(s', k)});
  }

  lemma InstallReader(s: State, st: Step, k: Bytes, hit: Option<InternalValue>, seen: set<Option<Bytes>>)
    requires PhaseInv(s) && Enabled(s, st) && st.Install? && ReaderOk(s, k, hit, seen)
    ensures ReaderOk(Changed(s, st), k, hit, seen + {ValueOf(Changed(s, st), k)})
  {
    hide Reversed, Lookup, PhaseInv;
    var s' := Changed(s, st);
    var f := s.frozen[0];
    OldestOfMemory(s);
    assert f in Memory(s);
    LookupInFirst(f, s.tables, k);
    assert Memory(s') == Memory(s);
  }

  lemma CompactReader(s: State, st: Step, k: Bytes, hit: Option<InternalValue>, seen: set<Option<Bytes>>)
    requires DataInv(s) && Enabled(s, st) && st.Compact? && ReaderOk(s, k, hit, seen)
    ensures ReaderOk(Changed(s, st), k, hit, seen + {ValueOf(Changed(s, st), k)})
  {
    hide Reversed, Lookup, MergeOf, Over;
    var s' := Changed(s, st);
    assert Memory(s') == Memory(s);
    BlockRecent(Memory(s), s.tables, []);
    assert Memory(s) + s.tables + [] == Stack(s);
    MergeLookup(st.above, st.block, st.below, st.merged, st.dropDeletes, k);
  }

  ghost predicate Inv(s: State) { LockInv(s) && PhaseInv(s) && DataInv(s) && ReadersInv(s) }

  /** Watching changes nothing but what readers have seen. */
  ghost predicate OnlySeen(s: State, w: State) {
    && w == s.(threads := w.threads) && w.threads.Keys == s.threads.Keys
    && (forall t :: t in s.threads && !s.threads[t].Reading? ==> w.threads[t] == s.threads[t])
    && (forall t :: t in s.threads && s.threads[t].Reading? ==> w.threads[t].Reading?)
  }

  lemma WatchedOnlySeen(s: State)
    ensures OnlySeen(s, Watched(s))
  {
    hide ValueOf;
  }

  lemma WatchedLock(s: State, w: State)
    requires LockInv(s) && PhaseInv(s) && OnlySeen(s, w)
    ensures LockInv(w) && PhaseInv(w)
  {
    SameIds(s, w);
    forall t | t in w.threads && w.threads[t].Flushing?
      ensures PhaseOk(w, w.threads[t].phase)
    {
      assert PhaseOk(s, s.threads[t].phase);
    }
  }

  lemma WatchedClaims(s: State, w: State)
    requires ClaimsNew(s) && OnlySeen(s, w)
    ensures ClaimsNew(w)
  {
    hide Below;
    forall t | t in w.threads && (w.threads[t].Claimed? || w.threads[t].Logged?)
      ensures ClaimNew(w, w.threads[t].rec)
    {
      assert ClaimNew(s, s.threads[t].rec);
    }
    forall t | t in w.threads && w.threads[t].Claimed?
      ensures StampUnused(w.wal, w.threads[t].rec)
    {
      assert StampUnused(s.wal, s.threads[t].rec);
    }
  }

  lemma WatchedData(s: State, w: State)
    requires DataInv(s) && OnlySeen(s, w)
    ensures DataInv(w)
  {
    hide Recent, Lookup, Reversed, Below, Consistent, ClaimsNew, InLog;
    assert Stack(w) == Stack(s);
    WatchedClaims(s, w);
    forall r | r in w.wal
      ensures Unapplied(w, r) || Shown(w, r)
    {
      if Unapplied(s, r) {
        var u :| u in s.threads && Bears(s.threads[u], r);
        assert Bears(w.threads[u], r);
      } else {
        assert Shown(s, r);
      }
    }
    SameLog(s, w, s.active);
    forall i | 0 <= i < |w.frozen|
      ensures InLog(w, w.frozen[i])
    {
      SameLog(s, w, s.frozen[i]);
    }
    forall u | u in w.threads && w.threads[u].Stranded?
      ensures RecordOk(w, w.threads[u].rec)
    {
      assert RecordOk(s, s.threads[u].rec);
    }
  }

  lemma WatchedInv(s: State)
    requires LockInv(s) && PhaseInv(s) && DataInv(s)
    ensures LockInv(Watched(s)) && PhaseInv(Watched(s)) && DataInv(Watched(s))
  {
    hide LockInv, PhaseInv, DataInv, OnlySeen, Watched;
    WatchedOnlySeen(s);
    WatchedLock(s, Watched(s));
    WatchedData(s, Watched(s));
  }

  lemma StepReaders(s: State, st: Step)
    requires Inv(s) && Enabled(s, st)
    ensures ReadersInv(Next(s, st))
  {
    hide LockInv, PhaseInv, DataInv, ReaderOk, Lookup, ValueOf, Memory;
    var c, n := Changed(s, st), Next(s, st);
    forall t | t in n.threads
      ensures match n.threads[t]
              case Reading(k, hit, seen) => ReaderOk(n, k, hit, seen)
              case ReadDone(_, result, seen) => result in seen
              case _ => true
    {
      if t != st.t && s.threads[t].Reading? {
        var th := s.threads[t];
        assert ReaderOk(s, th.rkey, th.hit, th.seen);
        StepReader(s, st, th.rkey, th.hit, th.seen);
        SameReader(c, n, th.rkey, th.hit, th.seen + {ValueOf(c, th.rkey)});
      } else if t == st.t && st.ReadMemory? {
        var k := s.threads[t].rkey;
        ReadingStarts(s, st, k);
        SameReader(c, n, k, Lookup(Memory(s), k), {} + {ValueOf(c, k)});
      } else if t == st.t && s.threads[t].Reading? {
        var th := s.threads[t];
        assert ReaderOk(s, th.rkey, th.hit, th.seen);
        ReadEnds(s, th.rkey, th.hit, th.seen);
        HitSeen(s, th.rkey, th.hit, th.seen);
      }
    }
  }

  lemma HitSeen(s: State, k: Bytes, hit: Option<InternalValue>, seen: set<Option<Bytes>>)
    requires ReaderOk(s, k, hit, seen)
    ensures hit.Some? ==> Visible(hit) in seen
  {
  }

  lemma ReadingStarts(s: State, st: Step, k: Bytes)
    requires DataInv(s) && Enabled(s, st) && st.ReadMemory?
    ensures ReaderOk(Changed(s, st), k, Lookup(Memory(s), k), {} + {ValueOf(Changed(s, st), k)})
  {
    hide Lookup, Reversed, Recent, ReaderOk;
    ReadStarts(s, k);
    var c := Changed(s, st);
    assert Stack(c) == Stack(s) && c.tables == s.tables;
    assert {} + {ValueOf(c, k)} == {ValueOf(s, k)};
    SameReader(s, c, k, Lookup(Memory(s), k), {ValueOf(s, k)});
  }

  lemma SameReader(s: State, s': State, k: Bytes, hit: Option<InternalValue>, seen: set<Option<Bytes>>)
    requires ReaderOk(s, k, hit, seen) && s'.active == s.active && s'.frozen == s.frozen && s'.tables == s.tables
    ensures ReaderOk(s', k, hit, seen)
  {
  }

  lemma StepInv(s: State, st: Step)
    requires Inv(s) && Enabled(s, st)
    ensures Inv(Next(s, st))
  {
    hide LockInv, PhaseInv, DataInv, ReadersInv, Changed, Enabled;
    StepLock(s, st);
    StepPhase(s, st);
    StepData(s, st);
    WatchedInv(Changed(s, st));
    StepReaders(s, st);
  }

  // ---------------------------------------------------------------------- runs

  /** A database just opened: memory is the replayed log over the tables, and nobody is in flight. */
  ghost predicate Opened(s: State) {
    && s.inFlight == 0 && s.frozen == [] && NewestOf(s.active, s.wal) && Consistent(s.wal)
    && Recent(Stack(s)) && Below(Stack(s), s.nextSeq) && (forall r :: r in s.wal ==> r.value.stamp < s.nextSeq)
    && forall t :: t in s.threads ==> s.threads[t].WriteIdle? || s.threads[t].FlushIdle? || s.threads[t].ReadIdle?
  }

  lemma OpenedInv(s: State)
    requires Opened(s)
    ensures Inv(s)
  {
    hide Recent, Below, Consistent;
    assert InFlightIds(s) == {};
    forall r | r in s.wal
      ensures Shown(s, r)
    {
      assert r.key in s.active;
      LookupInFirst(s.active, s.tables, r.key);
      assert Stack(s) == [s.active] + s.tables;
    }
  }

  ghost predicate Runs(s: State, steps: seq<Step>)
    decreases |steps|
  {
    steps == [] || (Enabled(s, steps[0]) && Runs(Next(s, steps[0]), steps[1..]))
  }

  ghost function After(s: State, steps: seq<Step>): State
    requires Runs(s, steps)
    decreases |steps|
  {
    if steps == [] then s else After(Next(s, steps[0]), steps[1..])
  }

  lemma {:induction false} RunsInv(s: State, steps: seq<Step>)
    requires Inv(s) && Runs(s, steps)
    ensures Inv(After(s, steps))
    decreases |steps|
  {
    hide Inv, Next, Enabled;
    if steps != [] {
      StepInv(s, steps[0]);
      RunsInv(Next(s, steps[0]), steps[1..]);
    }
  }

  /** Recency in every reachable state: of two sources with a key the younger holds the newer version, or both the
      same record; every stored number is below the next one; and so the position-based lookup is the largest-number one. */
  lemma AlwaysRecent(s: State, steps: seq<Step>, k: Bytes)
    requires Opened(s) && Runs(s, steps)
    ensures var t := After(s, steps);
      Recent(Stack(t)) && Below(Stack(t), t.nextSeq) && Lookup(Stack(t), k) == Newest(Stack(t), k)
  {
    hide Opened, Runs, After, Recent, Stack, LockInv, PhaseInv, ReadersInv, Lookup, Newest, Below, Consistent;
    OpenedInv(s);
    RunsInv(s, steps);
    PositionIsNewest(Stack(After(s, steps)), k);
  }

  /** Quiesced flush: whatever the interleaving of writers and flushers, the count is the writers in flight, and it is
      0 whenever a flush body runs. */
  lemma AlwaysQuiesced(s: State, steps: seq<Step>, f: nat)
    requires Opened(s) && Runs(s, steps)
    ensures var t := After(s, steps);
      && t.inFlight == |InFlightIds(t)|
      && (f in t.threads && t.threads[f].Flushing? ==> t.inFlight == 0 && forall u :: u in t.threads ==> !InFlight(t.threads[u]))
  {
    hide Opened, Runs, After, PhaseInv, DataInv, ReadersInv;
    OpenedInv(s);
    RunsInv(s, steps);
    var t := After(s, steps);
    if f in t.threads && t.threads[f].Flushing? { BodyIsQuiet(t, f); }
  }

  /** Releasing the log discards no record unless it, or a later write of its key, is in an installed table, or its
      write has failed. */
  lemma ReleaseLosesNothing(s: State, steps: seq<Step>, f: nat, r: Record)
    requires Opened(s) && Runs(s, steps) && Enabled(After(s, steps), ReleaseLog(f)) && r in After(s, steps).wal
    requires !IsStranded(After(s, steps), r)
    ensures var found := Lookup(After(s, steps).tables, r.key); found.Some? && found.value.stamp >= r.value.stamp
  {
    hide Opened, Runs, After, ReadersInv, Recent, Below, Consistent, Lookup;
    OpenedInv(s);
    RunsInv(s, steps);
    var t := After(s, steps);
    BodyIsQuiet(t, f);
    NoneUnapplied(t, r);
    assert PhaseOk(t, Loop);
    assert Shown(t, r);
    LookupInFirst(map[], t.tables, r.key);
    assert Stack(t) == [map[]] + t.tables;
  }

  // ------------------------------------------------------------ linearizability

  /** Every value a reader has seen was its key's value in some state of the run. */
  ghost predicate SeenWere(s: State, steps: seq<Step>, k: Bytes, seen: set<Option<Bytes>>)
    requires Runs(s, steps)
  {
    forall v :: v in seen ==> WasValue(s, steps, k, v)
  }

  ghost predicate WasValue(s: State, steps: seq<Step>, k: Bytes, v: Option<Bytes>)
    requires Runs(s, steps)
  {
    exists i :: HadAt(s, steps, i, k, v)
  }

  ghost predicate HadAt(s: State, steps: seq<Step>, i: int, k: Bytes, v: Option<Bytes>)
    requires Runs(s, steps)
  {
    0 <= i <= |steps| && Runs(s, steps[..i]) && ValueOf(After(s, steps[..i]), k) == v
  }

  lemma {:induction false} RunsPrefix(s: State, steps: seq<Step>, more: seq<Step>)
    ensures Runs(s, steps + more) ==> Runs(s, steps) && Runs(After(s, steps), more) && After(s, steps + more) == After(After(s, steps), more)
    decreases |steps|
  {
    hide Enabled, Next;
    if steps == [] {
      assert steps + more == more;
    } else if Runs(s, steps + more) {
      assert (steps + more)[1..] == steps[1..] + more;
      assert (steps + more)[0] == steps[0];
      RunsPrefix(Next(s, steps[0]), steps[1..], more);
    }
  }

  lemma WasValueLonger(s: State, steps: seq<Step>, st: Step, k: Bytes, v: Option<Bytes>)
    requires Runs(s, steps + [st]) && Runs(s, steps) && WasValue(s, steps, k, v)
    ensures WasValue(s, steps + [st], k, v)
  {
    hide Runs, After, ValueOf;
    var i :| HadAt(s, steps, i, k, v);
    assert (steps + [st])[..i] == steps[..i];
    assert HadAt(s, steps + [st], i, k, v);
  }

  ghost function SeenBy(th: Thread): set<Option<Bytes>> {
    match th
    case Reading(_, _, seen) => seen
    case ReadDone(_, _, seen) => seen
    case _ => {}
  }

  /** The thread is reading `k`, or has yet to begin, or is done. */
  ghost predicate Reads(th: Thread, k: Bytes) {
    (th.ReadIdle? || th.Reading? || th.ReadDone?) && th.rkey == k
  }

  lemma StepSeen(s: State, st: Step, t: nat, k: Bytes, v: Option<Bytes>)
    requires Enabled(s, st) && t in s.threads && Reads(s.threads[t], k)
    ensures t in Next(s, st).threads && Reads(Next(s, st).threads[t], k)
    ensures v in SeenBy(Next(s, st).threads[t]) ==> v in SeenBy(s.threads[t]) || v == ValueOf(Next(s, st), k)
  {
    var c := Changed(s, st);
    StepKeepsReader(s, st, t, k);
    assert Stack(Watched(c)) == Stack(c);
    hide Changed, Enabled, Stack, Lookup;
  }

  /** Before it is watched, a step leaves every reader's record of values as it is. */
  lemma StepKeepsReader(s: State, st: Step, t: nat, k: Bytes)
    requires Enabled(s, st) && t in s.threads && Reads(s.threads[t], k)
    ensures var c := Changed(s, st); t in c.threads && Reads(c.threads[t], k) && SeenBy(c.threads[t]) == SeenBy(s.threads[t])
  {
    hide Lookup, Reversed, MergeOf, InsertIfNewer, Stack, LockFree, ValueOf;
  }

  lemma {:induction false} SeenInRun(s: State, steps: seq<Step>, t: nat, k: Bytes)
    requires Runs(s, steps) && t in s.threads && s.threads[t] == ReadIdle(k)
    ensures t in After(s, steps).threads && Reads(After(s, steps).threads[t], k)
    ensures SeenWere(s, steps, k, SeenBy(After(s, steps).threads[t]))
    decreases |steps|
  {
    hide Enabled, Next, ValueOf, Runs, After;
    if steps == [] {
      RunsNothing(s);
    } else {
      var n := |steps| - 1;
      var before, st := steps[..n], steps[n];
      assert steps == before + [st];
      RunsPrefix(s, before, [st]);
      SeenInRun(s, before, t, k);
      var p := After(s, before);
      RunsOne(p, st);
      StepSeen(p, st, t, k, None);
      forall v | v in SeenBy(After(s, steps).threads[t])
        ensures WasValue(s, steps, k, v)
      {
        StepSeen(p, st, t, k, v);
        if v in SeenBy(p.threads[t]) {
          WasValueLonger(s, before, st, k, v);
        } else {
          assert steps[..|steps|] == steps;
          assert HadAt(s, steps, |steps|, k, v);
        }
      }
    }
  }

  lemma RunsNothing(s: State)
    ensures Runs(s, []) && After(s, []) == s
  {
  }

  lemma RunsOne(s: State, st: Step)
    ensures Runs(s, [st]) ==> Enabled(s, st) && After(s, [st]) == Next(s, st)
  {
    assert [st][1..] == [];
  }

  /** Linearizable reads: under every interleaving with writers, freezing, installing, discarding and compacting, a
      read returns a value its key had in some state between the read's beginning and its end. */
  lemma ReadsAreLinearizable(first: State, earlier: seq<Step>, steps: seq<Step>, t: nat, k: Bytes)
    requires Opened(first) && Runs(first, earlier) && Runs(After(first, earlier), steps)
    requires t in After(first, earlier).threads && After(first, earlier).threads[t] == ReadIdle(k)
    requires var e := After(After(first, earlier), steps); t in e.threads && e.threads[t].ReadDone?
    ensures WasValue(After(first, earlier), steps, k, After(After(first, earlier), steps).threads[t].result)
  {
    hide Opened, Runs, After, LockInv, PhaseInv, DataInv, ValueOf;
    OpenedInv(first);
    RunsInv(first, earlier);
    var s := After(first, earlier);
    RunsInv(s, steps);
    SeenInRun(s, steps, t, k);
  }

  // ---------------------------------------------------------- crashing amid threads

  /** A power loss in any reachable state: replaying the log over the tables, each key reads its current value or that
      of a write which has reached the log and is yet to be applied, or has failed since. So no acknowledged write is
      lost. */
  lemma CrashAmidThreads(s: State, steps: seq<Step>, replayed: Source, k: Bytes)
    requires Opened(s) && Runs(s, steps) && NewestOf(replayed, After(s, steps).wal)
    ensures var t := After(s, steps);
            var found := Lookup([replayed] + t.tables, k);
      Visible(found) == ValueOf(t, k) || (found.Some? && Unapplied(t, Record(k, found.value)))
  {
    hide Opened, Runs, After, LockInv, PhaseInv, ReadersInv, Recent, Below, Lookup, Reversed, ClaimsNew;
    OpenedInv(s);
    RunsInv(s, steps);
    var t := After(s, steps);
    LookupInFirst(replayed, t.tables, k);
    if k in replayed {
      var r := Record(k, replayed[k]);
      assert r in t.wal;
      if !Unapplied(t, r) {
        assert Shown(t, r);
        var h := Lookup(Stack(t), k).value;
        assert Record(k, h) in t.wal;
        assert h.stamp <= replayed[k].stamp;
      }
    } else {
      MemoryHasNot(t, replayed, k);
      LookupConcat(Memory(t), t.tables, k);
    }
  }

  /** And the database reopened then is again one just opened, so all of the above holds for what its threads do next. */
  lemma ReopenedAmidThreads(s: State, steps: seq<Step>, replayed: Source, n: nat, threads: map<nat, Thread>)
    requires Opened(s) && Runs(s, steps) && NewestOf(replayed, After(s, steps).wal)
    requires Below([replayed] + After(s, steps).tables, n) && forall r :: r in After(s, steps).wal ==> r.value.stamp < n
    requires forall t :: t in threads ==> threads[t].WriteIdle? || threads[t].FlushIdle? || threads[t].ReadIdle?
    ensures var t := After(s, steps); Opened(State(n, 0, false, replayed, [], t.tables, t.wal, threads))
  {
    hide Runs, After, LockInv, PhaseInv, ReadersInv, Below, Lookup, Reversed, ClaimsNew, StrandedOk, NewestOf;
    OpenedInv(s);
    RunsInv(s, steps);
    var t := After(s, steps);
    forall j | 0 <= j < |t.tables|
      ensures Over(replayed, t.tables[j])
    {
      forall k | k in replayed && k in t.tables[j]
        ensures Supersedes(replayed[k], t.tables[j][k])
      {
        ReplayedSupersedes(t, replayed, j, k);
      }
    }
    var none: seq<Source> := [];
    TablesRecent(t);
    assert Recent([replayed]);
    RecentConcat([replayed], t.tables);
    assert Reversed(none) == none && [replayed] + none == [replayed];
  }

  lemma TablesRecent(t: State)
    requires Recent(Stack(t))
    ensures Recent(t.tables)
  {
    BlockRecent(Memory(t), t.tables, []);
    assert Memory(t) + t.tables + [] == Stack(t);
  }

  lemma ReplayedSupersedes(t: State, replayed: Source, j: nat, k: Bytes)
    requires DataInv(t) && NewestOf(replayed, t.wal) && j < |t.tables| && k in replayed && k in t.tables[j]
    ensures Supersedes(replayed[k], t.tables[j][k])
  {
    hide Recent, Lookup, Reversed, Below, InLog;
    var r, v := Record(k, replayed[k]), t.tables[j][k];
    assert r in t.wal;
    if Unapplied(t, r) {
      var u :| u in t.threads && Bears(t.threads[u], r);
      if t.threads[u].Logged? {
        ClaimedIsNewer(t, r, j);
      } else {
        assert RecordOk(t, r);
        assert v.stamp < r.value.stamp || Record(k, v) in t.wal;
      }
    } else {
      assert Shown(t, r);
      var h := Lookup(Stack(t), k).value;
      assert Record(k, h) in t.wal;
      assert Record(k, h) == r;
      assert Stack(t)[|Memory(t)| + j] == t.tables[j];
      HitSupersedes(Stack(t), k, |Memory(t)| + j);
    }
  }

  lemma ClaimedIsNewer(t: State, r: Record, j: nat)
    requires ClaimsNew(t) && (exists u :: u in t.threads && t.threads[u] == Logged(r)) && j < |t.tables| && r.key in t.tables[j]
    ensures t.tables[j][r.key].stamp < r.value.stamp
  {
    var u :| u in t.threads && t.threads[u] == Logged(r);
    assert ClaimNew(t, t.threads[u].rec);
    assert AllBelow(t.tables[j], r.value.stamp);
  }

  lemma MemoryHasNot(t: State, replayed: Source, k: Bytes)
    requires DataInv(t) && NewestOf(replayed, t.wal) && k !in replayed
    ensures Lookup(Memory(t), k).None?
  {
    hide Recent, Below, ClaimsNew, Consistent, Lookup, Shown, Unapplied;
    var m := Memory(t);
    forall i | 0 <= i < |m|
      ensures k !in m[i]
    {
      if i == 0 {
        InLogKeys(t, replayed, t.active);
      } else {
        ReversedAt(t.frozen, i - 1);
        InLogKeys(t, replayed, t.frozen[|t.frozen| - i]);
      }
    }
    LookupMiss(m, k);
  }

  lemma InLogKeys(t: State, replayed: Source, m: Source)
    requires InLog(t, m) && NewestOf(replayed, t.wal)
    ensures forall k :: k in m ==> k in replayed
  {
    forall k | k in m
      ensures k in replayed
    {
      assert Record(k, m[k]) in t.wal;
    }
  }
}
