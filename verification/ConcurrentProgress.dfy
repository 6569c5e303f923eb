// Who can go on when: readers never wait, a waiting flush keeps new writers out and is
// let in, and in the end every call returns.

module ConcurrentProgress {
  import opened Wrappers
  import opened Versions
  import opened Sources
  import opened ConcurrentDb

  /** The call has returned; a `Stranded` write has returned its error. */
  predicate Finished(th: Thread) { th.Done? || th.ReadDone? || th.Stranded? }

  /** The thread can take a step of its own; how often a flush compacts is not its choice. */
  ghost predicate CanStep(s: State, t: nat) { exists st: Step :: st.t == t && !st.Compact? && Enabled(s, st) }

  /** What a thread waits for, if it does. */
  ghost predicate MayGo(s: State, th: Thread) {
    match th
    case WriteIdle(_, _) => !s.flushPending && forall u :: u in s.threads ==> !s.threads[u].Flushing?
    case FlushIdle => forall u :: u in s.threads ==> !s.threads[u].Flushing?
    case Waiting => forall u :: u in s.threads ==> !s.threads[u].Flushing? && !InFlight(s.threads[u])
    case _ => !Finished(th)
  }

  lemma NoneInFlight(s: State)
    requires LockInv(s)
    ensures s.inFlight == 0 <==> forall u :: u in s.threads ==> !InFlight(s.threads[u])
  {
    if s.inFlight == 0 {
      forall u | u in s.threads
        ensures !InFlight(s.threads[u])
      {
        assert u !in InFlightIds(s);
      }
    }
    if forall u :: u in s.threads ==> !InFlight(s.threads[u]) {
      assert InFlightIds(s) == {};
    }
  }

  lemma Goes(s: State, t: nat)
    requires LockInv(s) && t in s.threads && MayGo(s, s.threads[t])
    ensures CanStep(s, t)
  {
    hide InFlightIds;
    NoneInFlight(s);
    var th := s.threads[t];
    if InFlight(th) { assert LockFree(s); }
    var st := match th
      case WriteIdle(_, _) => Claim(t)
      case FlushIdle => CallFlush(t)
      case Claimed(_) => LogRecord(t)
      case Logged(_) => Apply(t)
      case Applied(_) => Clear(t, false)
      case Waiting => BeginFlush(t)
      case Flushing(Start) => Freeze(t)
      case Flushing(Loop) => if s.frozen == [] then ReleaseLog(t) else Install(t)
      case Flushing(Installed) => Discard(t)
      case Flushing(Compacting) => EndFlush(t)
      case ReadIdle(_) => ReadMemory(t)
      case _ => PinAndFinish(t);
    assert Enabled(s, st);
  }

  lemma Waits(s: State, t: nat)
    requires LockInv(s) && t in s.threads && CanStep(s, t)
    ensures MayGo(s, s.threads[t])
  {
    hide InFlightIds;
    NoneInFlight(s);
    var st: Step :| st.t == t && !st.Compact? && Enabled(s, st);
  }

  /** Who waits for what, in every reachable state: a reader never waits; a writer waits only to begin, while a flush is
      wanted or under way; a flush waits only for the writers in flight and for another flush. */
  lemma WhoWaits(first: State, steps: seq<Step>, t: nat)
    requires Opened(first) && Runs(first, steps) && t in After(first, steps).threads
    ensures var s := After(first, steps); CanStep(s, t) <==> MayGo(s, s.threads[t])
  {
    hide Opened, Runs, After, LockInv, PhaseInv, DataInv, ReadersInv, CanStep, MayGo;
    OpenedInv(first);
    RunsInv(first, steps);
    if MayGo(After(first, steps), After(first, steps).threads[t]) { Goes(After(first, steps), t); }
    if CanStep(After(first, steps), t) { Waits(After(first, steps), t); }
  }

  // ------------------------------------------------------------------ no deadlock

  /** While a flush is wanted there is somebody to do it. */
  ghost predicate Wanted(s: State) {
    s.flushPending ==> exists u :: u in s.threads && (s.threads[u].Waiting? || s.threads[u].Flushing?)
  }

  lemma StepWanted(s: State, st: Step)
    requires LockInv(s) && Enabled(s, st) && Wanted(s)
    ensures Wanted(Changed(s, st))
  {
    hide InsertIfNewer, Lookup, MergeOf, Memory, Rest, InFlightIds;
    var c := Changed(s, st);
    if c.flushPending {
      if c.threads[st.t].Waiting? || c.threads[st.t].Flushing? {
        assert st.t in c.threads;
      } else {
        var u :| u in s.threads && (s.threads[u].Waiting? || s.threads[u].Flushing?);
        assert u != st.t ==> c.threads[u] == s.threads[u];
      }
    }
  }

  lemma WatchedWanted(c: State)
    requires Wanted(c)
    ensures Wanted(Watched(c))
  {
    hide ValueOf;
    WatchedOnlySeen(c);
    if c.flushPending {
      var u :| u in c.threads && (c.threads[u].Waiting? || c.threads[u].Flushing?);
      assert Watched(c).threads[u] == c.threads[u];
    }
  }

  lemma {:induction false} RunWanted(s: State, steps: seq<Step>)
    requires Inv(s) && Wanted(s) && Runs(s, steps)
    ensures Wanted(After(s, steps))
    decreases |steps|
  {
    hide LockInv, PhaseInv, DataInv, ReadersInv, Wanted, Enabled, Changed, Watched;
    if steps != [] {
      StepInv(s, steps[0]);
      StepWanted(s, steps[0]);
      WatchedWanted(Changed(s, steps[0]));
      RunWanted(Next(s, steps[0]), steps[1..]);
    }
  }

  /** No deadlock: as long as some call has not returned, some thread can go on. */
  lemma NoDeadlock(first: State, steps: seq<Step>, t: nat) returns (u: nat)
    requires Opened(first) && !first.flushPending && Runs(first, steps)
    requires t in After(first, steps).threads && !Finished(After(first, steps).threads[t])
    ensures u in After(first, steps).threads && CanStep(After(first, steps), u)
  {
    hide Opened, Runs, After, PhaseInv, DataInv, ReadersInv, CanStep, InFlightIds;
    OpenedInv(first);
    RunsInv(first, steps);
    RunWanted(first, steps);
    var s := After(first, steps);
    u := t;
    if !MayGo(s, s.threads[t]) {
      if v :| v in s.threads && (s.threads[v].Flushing? || InFlight(s.threads[v])) {
        u := v;
      } else {
        assert s.flushPending;
        u :| u in s.threads && (s.threads[u].Waiting? || s.threads[u].Flushing?);
      }
    }
    Goes(s, u);
  }

  /** A flush is wanted from the moment it is called for, by a caller or by a write that has filled the active table. */
  lemma IsWanted(s: State, st: Step)
    requires Enabled(s, st) && (st.CallFlush? || (st.Clear? && st.full))
    ensures Next(s, st).flushPending && st.t in Next(s, st).threads && Next(s, st).threads[st.t].Waiting?
  {
    hide ValueOf;
  }

  /** A wanted flush is not starved: until it is over no writer joins those in flight. */
  lemma KeepsWritersOut(s: State, st: Step)
    requires Enabled(s, st) && s.flushPending
    ensures InFlightIds(Next(s, st)) <= InFlightIds(s)
  {
    hide InsertIfNewer, Lookup, MergeOf, Memory, Rest, LockFree, ValueOf;
    var c := Changed(s, st);
    assert forall u :: u in s.threads && u != st.t ==> c.threads[u] == s.threads[u];
  }

  /** Nothing that can go wrong is left out: a write may fail before its record is in the log or after, a flush at
      every storage operation. */
  lemma AnythingMayFail(first: State, steps: seq<Step>, t: nat)
    requires Opened(first) && Runs(first, steps) && t in After(first, steps).threads
    ensures var s := After(first, steps);
      && (Enabled(s, LogFails(t)) <==> s.threads[t].Claimed?)
      && (Enabled(s, LateFails(t)) <==> s.threads[t].Logged?)
      && (Enabled(s, FlushFails(t)) <==> s.threads[t].Flushing? && s.threads[t].phase != Start)
      && (Enabled(s, Clear(t, true)) <==> s.threads[t].Applied?)
      && (Enabled(s, FinishFromMemory(t)) <==> s.threads[t].Reading? && s.threads[t].hit.Some?)
      && (Enabled(s, PinAndFinish(t)) <==> s.threads[t].Reading?)
  {
    hide Opened, Runs, After, PhaseInv, DataInv, ReadersInv, InFlightIds;
    OpenedInv(first);
    RunsInv(first, steps);
    var s := After(first, steps);
    NoneInFlight(s);
    if InFlight(s.threads[t]) { assert LockFree(s); }
  }

  /** Once the log is released a flush may compact any neighbouring tables into one that holds the newest version of
      each of their keys; below the oldest table the deletions may go, and a merge that leaves nothing leaves no table. */
  lemma AnythingMayBeCompacted(s: State, t: nat, above: seq<Source>, block: seq<Source>, below: seq<Source>, m: Source, drop: bool)
    requires t in s.threads && s.threads[t] == Flushing(Compacting) && s.tables == above + block + below && (drop ==> below == [])
    requires forall k :: if k in m then Newest(block, k) == Some(m[k])
                         else Newest(block, k).None? || (drop && Newest(block, k).value.kind == Tombstone)
    ensures Enabled(s, Compact(t, above, block, below, [m], drop))
    ensures Next(s, Compact(t, above, block, below, [m], drop)).tables == above + [m] + below
    ensures m == map[] ==> Enabled(s, Compact(t, above, block, below, [], drop))
                           && Next(s, Compact(t, above, block, below, [], drop)).tables == above + below
  {
    hide Newest, ValueOf;
    assert above + [] + below == above + below;
  }

  // ---------------------------------------------------------------------- progress

  /** How many steps a thread has ahead of it, a freeze counting for the table it adds. */
  function Rank(th: Thread): nat {
    match th
    case WriteIdle(_, _) => 11
    case Claimed(_) => 10
    case Logged(_) => 9
    case Applied(_) => 8
    case FlushIdle => 8
    case Waiting => 7
    case Flushing(Start) => 6
    case Flushing(Loop) => 3
    case Flushing(Installed) => 2
    case Flushing(Compacting) => 1
    case ReadIdle(_) => 2
    case Reading(_, _, _) => 1
    case _ => 0
  }

  /** Over the threads numbered below `n`. */
  function RankSum(threads: map<nat, Thread>, n: nat): nat {
    if n == 0 then 0 else RankSum(threads, n - 1) + if n - 1 in threads then Rank(threads[n - 1]) else 0
  }

  function Measure(s: State, n: nat): nat { RankSum(s.threads, n) + 2 * |s.frozen| }

  lemma {:induction false} SumUpdate(threads: map<nat, Thread>, n: nat, t: nat, th: Thread)
    requires t in threads
    ensures RankSum(threads[t := th], n) == RankSum(threads, n) + if t < n then Rank(th) - Rank(threads[t]) else 0
  {
    hide Rank;
    if n > 0 { SumUpdate(threads, n - 1, t, th); }
  }

  lemma {:induction false} SumWatched(c: State, n: nat)
    ensures RankSum(Watched(c).threads, n) == RankSum(c.threads, n)
  {
    hide ValueOf;
    if n > 0 { SumWatched(c, n - 1); }
  }

  lemma StepRank(s: State, st: Step)
    requires PhaseInv(s) && Enabled(s, st)
    ensures var c := Changed(s, st);
      && st.t in s.threads && st.t in c.threads && c.threads == s.threads[st.t := c.threads[st.t]]
      && Rank(c.threads[st.t]) + 2 * |c.frozen| + (if st.Compact? then 0 else 1) <= Rank(s.threads[st.t]) + 2 * |s.frozen|
  {
    hide InsertIfNewer, Lookup, MergeOf, LockFree, Memory;
    if st.Discard? { assert PhaseOk(s, Phase.Installed); }
  }

  lemma StepMeasure(s: State, st: Step, n: nat)
    requires Inv(s) && Enabled(s, st) && forall t :: t in s.threads ==> t < n
    ensures Measure(Next(s, st), n) + (if st.Compact? then 0 else 1) <= Measure(s, n)
    ensures forall t :: t in Next(s, st).threads ==> t < n
  {
    hide LockInv, PhaseInv, DataInv, ReadersInv, Enabled, Changed, Rank, RankSum, Watched;
    StepRank(s, st);
    var c := Changed(s, st);
    SumUpdate(s.threads, n, st.t, c.threads[st.t]);
    SumWatched(c, n);
    WatchedOnlySeen(c);
  }

  function Compactions(steps: seq<Step>): nat {
    if steps == [] then 0 else (if steps[0].Compact? then 1 else 0) + Compactions(steps[1..])
  }

  lemma {:induction false} RunMeasure(s: State, steps: seq<Step>, n: nat)
    requires Inv(s) && Runs(s, steps) && forall t :: t in s.threads ==> t < n
    ensures |steps| + Measure(After(s, steps), n) <= Measure(s, n) + Compactions(steps)
    decreases |steps|
  {
    hide LockInv, PhaseInv, DataInv, ReadersInv, Enabled, Next, Measure;
    if steps != [] {
      StepInv(s, steps[0]);
      StepMeasure(s, steps[0], n);
      RunMeasure(Next(s, steps[0]), steps[1..], n);
    }
  }

  /** Every run ends: beside its compactions a run has no more steps than eleven for each thread. */
  lemma RunsEnd(first: State, steps: seq<Step>, n: nat)
    requires Opened(first) && Runs(first, steps) && forall t :: t in first.threads ==> t < n
    ensures |steps| <= 11 * n + Compactions(steps)
  {
    hide Runs, After;
    OpenedInv(first);
    RunMeasure(first, steps, n);
    RankBound(first.threads, n);
  }

  lemma {:induction false} RankBound(threads: map<nat, Thread>, n: nat)
    ensures RankSum(threads, n) <= 11 * n
  {
    if n > 0 { RankBound(threads, n - 1); }
  }

  /** And then every call has returned: a run that only a further compaction could continue has all threads finished. */
  lemma AllReturn(first: State, steps: seq<Step>)
    requires Opened(first) && !first.flushPending && Runs(first, steps)
    requires forall t :: t in After(first, steps).threads ==> !CanStep(After(first, steps), t)
    ensures forall t :: t in After(first, steps).threads ==> Finished(After(first, steps).threads[t])
  {
    hide Opened, Runs, After, CanStep, Finished;
    forall t | t in After(first, steps).threads
      ensures Finished(After(first, steps).threads[t])
    {
      if !Finished(After(first, steps).threads[t]) { var u := NoDeadlock(first, steps, t); }
    }
  }
}
