// What the threads of a database leave behind is what their callers asked for: every
// record has a caller's key and kind, and an applied write is what is read until a
// later write of its key.

module ConcurrentWrites {
  import opened Wrappers
  import opened ByteStrings
  import opened Seqs
  import opened Versions
  import opened Sources
  import opened ConcurrentDb
  import Meaning

  // -------------------------------------------------------------- provenance

  /** A call to write this key, with this kind, was made after the database was opened. */
  ghost predicate WrittenBy(first: State, r: Record) {
    exists t :: t in first.threads && first.threads[t] == WriteIdle(r.key, r.value.kind) && r.value.stamp >= first.nextSeq
  }

  ghost predicate HadRecord(first: State, r: Record) {
    r in first.wal || exists m :: m in Stack(first) && r.key in m && m[r.key] == r.value
  }

  ghost predicate Origin(first: State, r: Record) { HadRecord(first, r) || WrittenBy(first, r) }

  ghost predicate AllFrom(first: State, m: Source) { forall k :: k in m ==> Origin(first, Record(k, m[k])) }

  ghost predicate SourcesFrom(first: State, sources: seq<Source>) {
    forall i :: 0 <= i < |sources| ==> AllFrom(first, sources[i])
  }

  /** A write under way carries the key and kind it was called with, under a number claimed since. */
  ghost predicate Carries(first: State, t: nat, rec: Record) {
    && t in first.threads && first.threads[t] == WriteIdle(rec.key, rec.value.kind)
    && rec.value.stamp >= first.nextSeq
  }

  ghost predicate ThreadFrom(first: State, t: nat, th: Thread) {
    match th
    case WriteIdle(_, _) => t in first.threads && first.threads[t] == th
    case Claimed(rec) => Carries(first, t, rec)
    case Logged(rec) => Carries(first, t, rec)
    case Applied(rec) => Carries(first, t, rec)
    case Stranded(rec) => Carries(first, t, rec)
    case _ => true
  }

  ghost predicate ThreadsFrom(first: State, s: State) {
    first.nextSeq <= s.nextSeq && forall t :: t in s.threads ==> ThreadFrom(first, t, s.threads[t])
  }

  ghost predicate DataFrom(first: State, s: State) {
    && (forall r :: r in s.wal ==> Origin(first, r))
    && AllFrom(first, s.active) && SourcesFrom(first, s.frozen) && SourcesFrom(first, s.tables)
  }

  ghost predicate From(first: State, s: State) { ThreadsFrom(first, s) && DataFrom(first, s) }

  lemma FirstFrom(first: State)
    requires Opened(first)
    ensures From(first, first)
  {
    hide Recent, NewestOf, Consistent, Reversed;
    assert Stack(first)[0] == first.active;
    forall i | 0 <= i < |first.tables|
      ensures AllFrom(first, first.tables[i])
    {
      assert Stack(first)[|Memory(first)| + i] == first.tables[i];
    }
  }

  lemma StepThreadsFrom(first: State, s: State, st: Step)
    requires ThreadsFrom(first, s) && Enabled(s, st)
    ensures ThreadsFrom(first, Changed(s, st))
  {
    hide InsertIfNewer, Lookup, MergeOf, LockFree, Memory, Rest, Carries;
    assert ThreadFrom(first, st.t, s.threads[st.t]);
    if st.Claim? {
      assert Carries(first, st.t, Changed(s, st).threads[st.t].rec) by { ClaimCarries(first, s, st); }
    }
  }

  lemma ClaimCarries(first: State, s: State, st: Step)
    requires ThreadsFrom(first, s) && Enabled(s, st) && st.Claim?
    ensures Carries(first, st.t, Changed(s, st).threads[st.t].rec)
  {
    hide InsertIfNewer, Lookup, MergeOf, LockFree, Memory, Rest;
    assert ThreadFrom(first, st.t, s.threads[st.t]);
  }

  lemma CarriedOrigin(first: State, t: nat, rec: Record)
    requires Carries(first, t, rec)
    ensures Origin(first, rec)
  {
    assert WrittenBy(first, rec);
  }

  /** A compaction invents nothing. */
  lemma MergedFrom(first: State, block: seq<Source>, m: Source, drop: bool)
    requires SourcesFrom(first, block) && MergeOf(block, m, drop)
    ensures AllFrom(first, m)
  {
    hide Origin;
    forall k | k in m
      ensures Origin(first, Record(k, m[k]))
    {
      assert Newest(block, k) == Some(m[k]);
      NewestOccurs(block, k);
      var i :| 0 <= i < |block| && k in block[i] && block[i][k] == m[k];
      assert AllFrom(first, block[i]);
    }
  }

  lemma StepDataFrom(first: State, s: State, st: Step)
    requires From(first, s) && Enabled(s, st)
    ensures DataFrom(first, Changed(s, st))
  {
    hide Lookup, MergeOf, LockFree, Memory, Origin, Carries;
    var c := Changed(s, st);
    assert ThreadFrom(first, st.t, s.threads[st.t]);
    match st
    case LogRecord(t) => CarriedOrigin(first, t, s.threads[t].rec);
    case Apply(t) =>
      CarriedOrigin(first, t, s.threads[t].rec);
      assert AllFrom(first, c.active);
    case Compact(_, above, block, below, merged, drop) =>
      assert forall i :: 0 <= i < |above| ==> above[i] == s.tables[i];
      assert forall i :: 0 <= i < |block| ==> block[i] == s.tables[|above| + i];
      assert forall i :: 0 <= i < |below| ==> below[i] == s.tables[|above| + |block| + i];
      MergedFrom(first, block, if merged == [] then map[] else merged[0], drop);
    case _ =>
  }

  lemma StepFrom(first: State, s: State, st: Step)
    requires From(first, s) && Enabled(s, st)
    ensures From(first, Next(s, st))
  {
    hide ThreadFrom, AllFrom, SourcesFrom, Origin, Changed, Enabled, Lookup, Memory, ValueOf;
    StepThreadsFrom(first, s, st);
    StepDataFrom(first, s, st);
    var c := Changed(s, st);
    WatchedOnlySeen(c);
    forall t | t in Watched(c).threads
      ensures ThreadFrom(first, t, Watched(c).threads[t])
    {
      if c.threads[t].Reading? { ReaderFrom(first, t, Watched(c).threads[t]); } else { assert ThreadFrom(first, t, c.threads[t]); }
    }
  }

  lemma ReaderFrom(first: State, t: nat, th: Thread)
    requires th.Reading?
    ensures ThreadFrom(first, t, th)
  {
  }

  lemma {:induction false} RunFrom(first: State, s: State, steps: seq<Step>)
    requires From(first, s) && Runs(s, steps)
    ensures From(first, After(s, steps))
    decreases |steps|
  {
    hide From, Enabled, Next;
    if steps != [] {
      StepFrom(first, s, steps[0]);
      RunFrom(first, Next(s, steps[0]), steps[1..]);
    }
  }

  /** Nothing is invented: under every interleaving, each record in the log, in memory or in a table was there when the
      database was opened, or has the key and the kind some thread was called with, under a number given out since. */
  lemma EverythingWasWritten(first: State, steps: seq<Step>, r: Record)
    requires Opened(first) && Runs(first, steps)
    requires r in After(first, steps).wal || exists m :: m in Stack(After(first, steps)) && r.key in m && m[r.key] == r.value
    ensures Origin(first, r)
  {
    hide Opened, Runs, After, Origin, ThreadsFrom;
    FirstFrom(first);
    RunFrom(first, first, steps);
    var s := After(first, steps);
    if r !in s.wal {
      var m :| m in Stack(s) && r.key in m && m[r.key] == r.value;
      InSomePart(s, m);
    }
  }

  lemma InSomePart(s: State, m: Source)
    requires m in Stack(s)
    ensures m == s.active || m in s.frozen || m in s.tables
  {
    ReversedMembers(s.frozen);
  }

  // -------------------------------------------------- an applied write is what is read

  /** Thread `t` has made its claim, and while it still carries a record that is `rec`. */
  predicate Past(th: Thread, rec: Record) {
    && !th.WriteIdle? && !th.FlushIdle? && !th.ReadIdle? && !th.Reading? && !th.ReadDone?
    && (th.Claimed? || th.Logged? || th.Applied? || th.Stranded? ==> th.rec == rec)
  }

  lemma ChangedPast(s: State, st: Step, t: nat, rec: Record)
    requires Enabled(s, st) && t in s.threads && Past(s.threads[t], rec)
    ensures t in Changed(s, st).threads && Past(Changed(s, st).threads[t], rec)
  {
    hide InsertIfNewer, Lookup, MergeOf, LockFree, Memory, Rest;
  }

  lemma StepPast(s: State, st: Step, t: nat, rec: Record)
    requires Enabled(s, st) && t in s.threads && Past(s.threads[t], rec)
    ensures t in Next(s, st).threads && Past(Next(s, st).threads[t], rec)
  {
    hide Enabled, Changed, Watched;
    ChangedPast(s, st, t, rec);
    WatchedOnlySeen(Changed(s, st));
  }

  lemma {:induction false} RunPast(s: State, steps: seq<Step>, t: nat, rec: Record)
    requires Runs(s, steps) && t in s.threads && Past(s.threads[t], rec)
    ensures t in After(s, steps).threads && Past(After(s, steps).threads[t], rec)
    decreases |steps|
  {
    hide Enabled, Next, Past;
    if steps != [] {
      StepPast(s, steps[0], t, rec);
      RunPast(Next(s, steps[0]), steps[1..], t, rec);
    }
  }

  /** What a version reads as. */
  function Read(v: InternalValue): Option<Bytes> {
    match v.kind case Value(b) => Some(b) case Tombstone => None
  }

  /** `v` is the version written under number `n`, or some caller's later-numbered write of the key. */
  ghost predicate SinceThen(first: State, k: Bytes, n: nat, kind: ValueKind, v: InternalValue) {
    v == InternalValue(n, kind) || (v.stamp > n && Origin(first, Record(k, v)))
  }

  /** `v` is the newest version of its key there has been: the one found, or one whose deletion a compaction has
      dropped, and then whatever is in the log or still to be applied is newer. */
  ghost predicate IsLatest(s: State, k: Bytes, v: InternalValue) {
    && v.stamp < s.nextSeq && ValueOf(s, k) == Read(v)
    && match Lookup(Stack(s), k)
       case Some(h) => h == v
       case None =>
         && (forall t :: t in s.threads && (s.threads[t].Claimed? || s.threads[t].Logged?) ==> v.stamp < s.threads[t].rec.value.stamp)
         && (forall r :: r in s.wal ==> v.stamp < r.value.stamp)
  }

  ghost predicate Latest(first: State, s: State, k: Bytes, n: nat, kind: ValueKind) {
    exists v :: SinceThen(first, k, n, kind, v) && IsLatest(s, k, v)
  }

  /** Steps that leave memory and tables alone. */
  lemma QuietLatest(s: State, st: Step, k: Bytes, v: InternalValue)
    requires Enabled(s, st) && IsLatest(s, k, v)
    requires !st.Apply? && !st.Freeze? && !st.Install? && !st.Discard? && !st.Compact?
    ensures IsLatest(Changed(s, st), k, v)
  {
    hide InsertIfNewer, Lookup, MergeOf, LockFree, Reversed;
    var c := Changed(s, st);
    assert Stack(c) == Stack(s);
  }

  lemma FreezeLookup(s: State, st: Step, k: Bytes)
    requires Enabled(s, st) && st.Freeze?
    ensures Lookup(Stack(Changed(s, st)), k) == Lookup(Stack(s), k)
  {
    hide Lookup, Reversed, MergeOf, InsertIfNewer;
    ReversedConcat(s.frozen, [s.active]);
    ReversedOne(s.active);
    assert s.active != map[] ==> Stack(Changed(s, st)) == [map[]] + Stack(s);
    Meaning.LookupInFirst(map[], Stack(s), k);
  }

  lemma InstallLookup(s: State, st: Step, k: Bytes)
    requires Enabled(s, st) && st.Install?
    ensures Lookup(Stack(Changed(s, st)), k) == Lookup(Stack(s), k)
  {
    hide Lookup, Reversed, MergeOf, InsertIfNewer, Stack;
    var a, f := [s.active] + Reversed(s.frozen[1..]), s.frozen[0];
    OldestLast(s);
    OldestLast(Changed(s, st));
    assert a + [f] + ([f] + s.tables) == a + [f, f] + s.tables;
    TwiceSame(a, f, s.tables);
  }

  lemma DiscardLookup(s: State, st: Step, k: Bytes)
    requires PhaseInv(s) && Enabled(s, st) && st.Discard?
    ensures Lookup(Stack(Changed(s, st)), k) == Lookup(Stack(s), k)
  {
    hide Lookup, Reversed, MergeOf, InsertIfNewer, Stack;
    assert PhaseOk(s, Phase.Installed);
    var a, f, b := [s.active] + Reversed(s.frozen[1..]), s.frozen[0], s.tables[1..];
    OldestLast(s);
    assert s.tables == [f] + b;
    assert a + [f] + ([f] + b) == a + [f, f] + b;
    StackIs(Changed(s, st));
    assert a + [f] + b == a + s.tables;
    TwiceSame(a, f, b);
  }

  lemma CompactLookup(s: State, st: Step, k: Bytes)
    requires DataInv(s) && Enabled(s, st) && st.Compact?
    ensures var was, now := Lookup(Stack(s), k), Lookup(Stack(Changed(s, st)), k);
      Visible(now) == Visible(was) && (now.Some? ==> now == was)
  {
    TablesRecent(s);
    hide DataInv, Lookup, Reversed, MergeOf, Recent, InsertIfNewer;
    MergeLookup(st.above, st.block, st.below, st.merged, st.dropDeletes, k);
    LookupConcat(Memory(s), s.tables, k);
    LookupConcat(Memory(s), Changed(s, st).tables, k);
    assert Memory(Changed(s, st)) == Memory(s);
  }

  /** What the steps of a flush body do to a lookup: nothing, or a compaction drops a deletion. */
  lemma BodyLookup(s: State, st: Step, k: Bytes)
    requires PhaseInv(s) && DataInv(s) && Enabled(s, st)
    requires st.Freeze? || st.Install? || st.Discard? || st.Compact?
    ensures var was, now := Lookup(Stack(s), k), Lookup(Stack(Changed(s, st)), k);
      Visible(now) == Visible(was) && (now.Some? || !st.Compact? ==> now == was)
  {
    hide PhaseInv, DataInv, Lookup, Stack, Changed, Enabled;
    match st
    case Freeze(_) => FreezeLookup(s, st, k);
    case Install(_) => InstallLookup(s, st, k);
    case Discard(_) => DiscardLookup(s, st, k);
    case Compact(_, _, _, _, _, _) => CompactLookup(s, st, k);
  }

  lemma CompactsEmptyLog(s: State, st: Step)
    requires PhaseInv(s) && Enabled(s, st)
    ensures st.Compact? ==> s.wal == {}
  {
    assert st.Compact? ==> PhaseOk(s, Compacting);
  }

  /** A step of a flush body changes nobody else, and nobody is in flight. */
  lemma BodyKeeps(s: State, st: Step)
    requires LockInv(s) && Enabled(s, st) && (st.Freeze? || st.Install? || st.Discard? || st.Compact?)
    ensures var c := Changed(s, st);
      c.nextSeq == s.nextSeq && c.wal == s.wal && forall t :: t in c.threads ==> !InFlight(c.threads[t])
  {
    BodyIsQuiet(s, st.t);
    hide LockInv, Lookup, Stack, MergeOf, InsertIfNewer, Reversed, LockFree;
    var c := Changed(s, st);
    assert forall t :: t in c.threads && t != st.t ==> c.threads[t] == s.threads[t];
  }

  lemma BodyLatest(s: State, st: Step, k: Bytes, v: InternalValue)
    requires LockInv(s) && PhaseInv(s) && DataInv(s) && Enabled(s, st) && IsLatest(s, k, v)
    requires st.Freeze? || st.Install? || st.Discard? || st.Compact?
    ensures IsLatest(Changed(s, st), k, v)
  {
    BodyLookup(s, st, k);
    BodyKeeps(s, st);
    CompactsEmptyLog(s, st);
    hide LockInv, DataInv, PhaseInv, Lookup, Stack, Changed, Enabled;
  }

  /** What an applied record leaves in the active table: itself, or a version already there under no smaller number, and
      under an equal one only if it is the same. */
  lemma ActiveAfter(s: State, rec: Record)
    requires DataInv(s) && rec in s.wal
    ensures var a := InsertIfNewer(s.active, rec.key, rec.value);
      && rec.key in a && (a[rec.key] == rec.value || (a[rec.key].stamp > rec.value.stamp && a == s.active))
  {
    hide Recent, Lookup, Reversed, ClaimsNew, Shown, Unapplied;
    if rec.key in s.active {
      assert InLog(s, s.active);
      assert Record(rec.key, s.active[rec.key]) in s.wal;
    }
  }

  lemma ApplyLatest(first: State, s: State, st: Step, k: Bytes, n: nat, kind: ValueKind, v: InternalValue)
    requires From(first, s) && DataInv(s) && Enabled(s, st) && st.Apply?
    requires SinceThen(first, k, n, kind, v) && IsLatest(s, k, v)
    ensures Latest(first, Changed(s, st), k, n, kind)
  {
    var t, rec, c := st.t, s.threads[st.t].rec, Changed(s, st);
    assert ClaimNew(s, rec) && rec in s.wal && rec.value.stamp < s.nextSeq;
    assert ThreadFrom(first, t, s.threads[t]);
    CarriedOrigin(first, t, rec);
    ActiveAfter(s, rec);
    ApplyShows(s, rec, c);
    hide Recent, Lookup, Reversed, DataInv, InsertIfNewer, Origin, MergeOf, Stack, From;
    var w := if k == rec.key then c.active[k] else v;
    if k == rec.key && Lookup(Stack(s), k).Some? && w != v {
      NewerThanFound(s, rec, v);
    }
    assert SinceThen(first, k, n, kind, w);
    assert IsLatest(c, k, w);
  }

  /** A record that replaces what is found for its key has a larger number. */
  lemma NewerThanFound(s: State, rec: Record, v: InternalValue)
    requires DataInv(s) && ClaimNew(s, rec) && rec in s.wal && Lookup(Stack(s), rec.key) == Some(v)
    requires InsertIfNewer(s.active, rec.key, rec.value)[rec.key] != v
    ensures InsertIfNewer(s.active, rec.key, rec.value)[rec.key] == rec.value && rec.value.stamp > v.stamp
  {
    hide Recent, Reversed, ClaimsNew, Shown, Unapplied, Meaning.Below;
    var rest := Reversed(s.frozen) + s.tables;
    assert Stack(s) == [s.active] + rest;
    Meaning.LookupInFirst(s.active, rest, rec.key);
    if rec.key in s.active {
      assert InLog(s, s.active);
      assert Record(rec.key, s.active[rec.key]) in s.wal;
    } else {
      var i := LookupHit(rest, rec.key);
      assert rest[i] in rest;
      StoredBelow(s, rest[i], rec.value.stamp);
    }
  }

  lemma WatchedLatest(first: State, c: State, k: Bytes, n: nat, kind: ValueKind)
    requires Latest(first, c, k, n, kind)
    ensures Latest(first, Watched(c), k, n, kind)
  {
    hide Lookup, Reversed, SinceThen;
    WatchedOnlySeen(c);
    var v :| SinceThen(first, k, n, kind, v) && IsLatest(c, k, v);
    var w := Watched(c);
    assert Stack(w) == Stack(c);
    assert IsLatest(w, k, v);
  }

  lemma StepLatest(first: State, s: State, st: Step, k: Bytes, n: nat, kind: ValueKind)
    requires From(first, s) && LockInv(s) && PhaseInv(s) && DataInv(s) && Enabled(s, st) && Latest(first, s, k, n, kind)
    ensures Latest(first, Next(s, st), k, n, kind)
  {
    hide From, LockInv, PhaseInv, DataInv, Enabled, Changed, SinceThen, IsLatest, Watched;
    var v :| SinceThen(first, k, n, kind, v) && IsLatest(s, k, v);
    if st.Apply? {
      ApplyLatest(first, s, st, k, n, kind, v);
    } else if st.Freeze? || st.Install? || st.Discard? || st.Compact? {
      BodyLatest(s, st, k, v);
    } else {
      QuietLatest(s, st, k, v);
    }
    WatchedLatest(first, Changed(s, st), k, n, kind);
  }

  lemma {:induction false} RunLatest(first: State, s: State, steps: seq<Step>, k: Bytes, n: nat, kind: ValueKind)
    requires From(first, s) && Inv(s) && Runs(s, steps) && Latest(first, s, k, n, kind)
    ensures Latest(first, After(s, steps), k, n, kind)
    decreases |steps|
  {
    hide From, LockInv, PhaseInv, DataInv, ReadersInv, Enabled, Next, Latest;
    if steps != [] {
      StepFrom(first, s, steps[0]);
      StepInv(s, steps[0]);
      StepLatest(first, s, steps[0], k, n, kind);
      RunLatest(first, Next(s, steps[0]), steps[1..], k, n, kind);
    }
  }

  /** A claim takes the next number for the key and kind the thread was called with. */
  lemma ClaimTakes(s: State, t: nat, k: Bytes, kind: ValueKind)
    requires Enabled(s, Claim(t)) && s.threads[t] == WriteIdle(k, kind)
    ensures var c := Next(s, Claim(t)); t in c.threads && c.threads[t] == Claimed(Record(k, InternalValue(s.nextSeq, kind)))
  {
    hide ValueOf;
  }

  lemma ApplyIsLatest(first: State, s: State, t: nat, k: Bytes, n: nat, kind: ValueKind)
    requires From(first, s) && DataInv(s) && Enabled(s, Apply(t)) && s.threads[t] == Logged(Record(k, InternalValue(n, kind)))
    ensures Latest(first, Next(s, Apply(t)), k, n, kind)
    ensures var h := Lookup(Stack(Next(s, Apply(t))), k); h.Some? && (h.value == InternalValue(n, kind) || h.value.stamp > n)
  {
    var rec, c := s.threads[t].rec, Changed(s, Apply(t));
    assert ClaimNew(s, rec) && rec in s.wal && rec.value.stamp < s.nextSeq;
    ActiveAfter(s, rec);
    ApplyShows(s, rec, c);
    ActiveFrom(first, s, c, t);
    assert Meaning.Below(Stack(s), s.nextSeq) && Meaning.AllBelow(Stack(s)[0], s.nextSeq);
    hide Recent, Lookup, Reversed, DataInv, InsertIfNewer, Origin, MergeOf, From, Meaning.Below;
    var w := c.active[k];
    assert SinceThen(first, k, n, kind, w);
    assert IsLatest(c, k, w);
    WatchedLatest(first, c, k, n, kind);
    assert Stack(Watched(c)) == Stack(c);
  }

  lemma ActiveFrom(first: State, s: State, c: State, t: nat)
    requires From(first, s) && Enabled(s, Apply(t)) && c == Changed(s, Apply(t))
    ensures AllFrom(first, c.active)
  {
    hide Origin;
    StepDataFrom(first, s, Apply(t));
  }

  /** From the moment a thread applies the record it claimed, the newest version of its key is that record or a later one. */
  lemma WriteIsLatest(first: State, before: seq<Step>, between: seq<Step>, later: seq<Step>, t: nat, k: Bytes, kind: ValueKind)
      returns (n: nat)
    requires Opened(first) && Runs(first, before + [Claim(t)] + between + [Apply(t)] + later)
    requires t in first.threads && first.threads[t] == WriteIdle(k, kind)
    ensures Runs(first, before) && n == After(first, before).nextSeq
    ensures var e := After(first, before + [Claim(t)] + between + [Apply(t)] + later);
      Latest(first, e, k, n, kind) && (later == [] ==> Lookup(Stack(e), k).Some?)
  {
    hide Opened, Runs, After, Enabled, Next, From, LockInv, PhaseInv, ReadersInv, DataInv, Latest, Stack, ValueOf, Past, Origin;
    var toApply := before + [Claim(t)] + between;
    RunsPrefix(first, toApply + [Apply(t)], later);
    RunsPrefix(first, toApply, [Apply(t)]);
    RunsPrefix(first, before + [Claim(t)], between);
    RunsPrefix(first, before, [Claim(t)]);
    OpenedInv(first);
    FirstFrom(first);
    RunFrom(first, first, before);
    var s := After(first, before);
    n := s.nextSeq;
    RunsOne(s, Claim(t));
    IdleStill(first, s, t, k, kind);
    ClaimTakes(s, t, k, kind);
    var rec := Record(k, InternalValue(n, kind));
    IsPast(After(first, before + [Claim(t)]).threads[t], rec);
    RunPast(After(first, before + [Claim(t)]), between, t, rec);
    var p := After(first, toApply);
    RunsOne(p, Apply(t));
    LoggedIs(p, t, rec);
    RunFrom(first, first, toApply);
    RunsInv(first, toApply);
    ApplyIsLatest(first, p, t, k, n, kind);
    var q := After(first, toApply + [Apply(t)]);
    RunFrom(first, first, toApply + [Apply(t)]);
    RunsInv(first, toApply + [Apply(t)]);
    RunLatest(first, q, later, k, n, kind);
    if later == [] { assert toApply + [Apply(t)] + later == toApply + [Apply(t)]; }
  }

  /** A write takes effect: once a thread called to write `k` has applied its record, and from then on whatever else
      runs, what is read for `k` is what that call asked for, under the number it claimed, or a later-numbered write
      that some caller asked for. */
  lemma WriteTakesEffect(first: State, before: seq<Step>, between: seq<Step>, later: seq<Step>, t: nat, k: Bytes, kind: ValueKind)
      returns (v: InternalValue)
    requires Opened(first) && Runs(first, before + [Claim(t)] + between + [Apply(t)] + later)
    requires t in first.threads && first.threads[t] == WriteIdle(k, kind)
    ensures Runs(first, before)
    ensures ValueOf(After(first, before + [Claim(t)] + between + [Apply(t)] + later), k)
         == match v.kind case Value(b) => Some(b) case Tombstone => None
    ensures var n := After(first, before).nextSeq;
      v == InternalValue(n, kind) || (v.stamp > n && Origin(first, Record(k, v)))
    ensures later == [] ==> Lookup(Stack(After(first, before + [Claim(t)] + between + [Apply(t)] + later)), k) == Some(v)
  {
    hide Opened, Runs, After, Latest, Stack, ValueOf, Origin, Lookup;
    var n := WriteIsLatest(first, before, between, later, t, k, kind);
    v := LatestRead(first, After(first, before + [Claim(t)] + between + [Apply(t)] + later), k, n, kind);
  }

  lemma IsPast(th: Thread, rec: Record)
    requires th == Claimed(rec)
    ensures Past(th, rec)
  {
  }

  lemma IdleStill(first: State, s: State, t: nat, k: Bytes, kind: ValueKind)
    requires From(first, s) && Enabled(s, Claim(t)) && first.threads[t] == WriteIdle(k, kind)
    ensures s.threads[t] == WriteIdle(k, kind)
  {
    assert ThreadFrom(first, t, s.threads[t]);
  }

  lemma LoggedIs(s: State, t: nat, rec: Record)
    requires Enabled(s, Apply(t)) && Past(s.threads[t], rec)
    ensures s.threads[t] == Logged(rec)
  {
  }

  lemma LatestRead(first: State, s: State, k: Bytes, n: nat, kind: ValueKind) returns (v: InternalValue)
    requires Latest(first, s, k, n, kind)
    ensures SinceThen(first, k, n, kind, v) && ValueOf(s, k) == Read(v)
    ensures Lookup(Stack(s), k).Some? ==> Lookup(Stack(s), k) == Some(v)
  {
    v :| SinceThen(first, k, n, kind, v) && IsLatest(s, k, v);
  }

  // ------------------------------------------------------------ after a power loss

  /** A logged record that is not yet applied, or never was, is newer than what is found for its key, or is it. */
  lemma UnappliedIsNewer(s: State, replayed: Source, k: Bytes, v: InternalValue)
    requires DataInv(s) && NewestOf(replayed, s.wal) && k in replayed && IsLatest(s, k, v)
    requires Unapplied(s, Record(k, replayed[k]))
    ensures replayed[k] == v || replayed[k].stamp > v.stamp
  {
    var w, r := replayed[k], Record(k, replayed[k]);
    assert r in s.wal;
    if Lookup(Stack(s), k).Some? && Record(k, v) !in s.wal {
      var j := FoundInTables(s, k, v);
      var t :| t in s.threads && Bears(s.threads[t], r);
      if s.threads[t].Logged? {
        ClaimedIsNewer(s, r, j);
      } else {
        assert RecordOk(s, r);
        assert s.tables[j] in s.tables;
      }
    }
  }

  /** What is found for a key and is not in the log is in a table. */
  lemma FoundInTables(s: State, k: Bytes, v: InternalValue) returns (j: nat)
    requires DataInv(s) && Lookup(Stack(s), k) == Some(v) && Record(k, v) !in s.wal
    ensures j < |s.tables| && k in s.tables[j] && s.tables[j][k] == v
  {
    hide Recent, Lookup, ClaimsNew, Consistent, Shown, Unapplied, Meaning.Below, StrandedOk;
    var i := LookupHit(Stack(s), k);
    var m := |Memory(s)|;
    if i < m {
      assert Stack(s)[i] == Memory(s)[i];
      InLogOfMemory(s, i);
    }
    assert Stack(s)[i] == s.tables[i - m];
    j := i - m;
  }

  lemma InLogOfMemory(s: State, i: nat)
    requires DataInv(s) && i < |Memory(s)|
    ensures InLog(s, Memory(s)[i])
  {
    if i > 0 {
      ReversedAt(s.frozen, i - 1);
      assert InLog(s, s.frozen[|s.frozen| - i]);
    }
  }

  lemma LatestSurvives(first: State, s: State, replayed: Source, k: Bytes, n: nat, kind: ValueKind) returns (w: InternalValue)
    requires From(first, s) && DataInv(s) && Latest(first, s, k, n, kind) && NewestOf(replayed, s.wal)
    requires var found := Lookup([replayed] + s.tables, k);
      Visible(found) == ValueOf(s, k) || (found.Some? && Unapplied(s, Record(k, found.value)))
    ensures SinceThen(first, k, n, kind, w) && Visible(Lookup([replayed] + s.tables, k)) == Read(w)
  {
    hide Lookup, Reversed, Recent, Origin, ClaimsNew, Unapplied, Stack, Memory, IsLatest, DataInv;
    var v :| SinceThen(first, k, n, kind, v) && IsLatest(s, k, v);
    w := v;
    LatestReads(s, k, v);
    if Visible(Lookup([replayed] + s.tables, k)) != ValueOf(s, k) {
      Meaning.LookupInFirst(replayed, s.tables, k);
      if k in replayed {
        w := replayed[k];
        assert Record(k, w) in s.wal;
        UnappliedIsNewer(s, replayed, k, v);
      } else {
        MemoryHasNot(s, replayed, k);
        OnlyTables(s, k);
      }
    }
  }

  lemma LatestReads(s: State, k: Bytes, v: InternalValue)
    requires IsLatest(s, k, v)
    ensures ValueOf(s, k) == Read(v)
  {
  }

  lemma OnlyTables(s: State, k: Bytes)
    requires Lookup(Memory(s), k).None?
    ensures ValueOf(s, k) == Visible(Lookup(s.tables, k))
  {
    LookupConcat(Memory(s), s.tables, k);
  }

  /** No applied write is lost: after a power loss at any later moment the database reopened reads, for its key, what
      the call asked for, or a larger-numbered write of the key that some caller asked for. */
  lemma WriteSurvives(first: State, before: seq<Step>, between: seq<Step>, later: seq<Step>, t: nat, k: Bytes, kind: ValueKind,
                      replayed: Source)
      returns (w: InternalValue)
    requires Opened(first) && Runs(first, before + [Claim(t)] + between + [Apply(t)] + later)
    requires t in first.threads && first.threads[t] == WriteIdle(k, kind)
    requires NewestOf(replayed, After(first, before + [Claim(t)] + between + [Apply(t)] + later).wal)
    ensures Runs(first, before)
    ensures Visible(Lookup([replayed] + After(first, before + [Claim(t)] + between + [Apply(t)] + later).tables, k))
         == match w.kind case Value(b) => Some(b) case Tombstone => None
    ensures var n := After(first, before).nextSeq;
      w == InternalValue(n, kind) || (w.stamp > n && Origin(first, Record(k, w)))
  {
    hide Opened, Runs, After, From, LockInv, PhaseInv, ReadersInv, DataInv, Latest, Stack, ValueOf, Origin, NewestOf, Lookup, Unapplied;
    var all := before + [Claim(t)] + between + [Apply(t)] + later;
    var n := WriteIsLatest(first, before, between, later, t, k, kind);
    OpenedInv(first);
    FirstFrom(first);
    RunFrom(first, first, all);
    RunsInv(first, all);
    CrashAmidThreads(first, all, replayed, k);
    w := LatestSurvives(first, After(first, all), replayed, k, n, kind);
  }
}
