// The group-commit protocol as atomic steps of any number of writers under one mutex
// and one condition variable: who leads, what is synced, and that everybody returns.

module GroupCommit {
  import opened ByteStrings
  import opened Numbers

  /** A frame awaiting its durability barrier, with its commit number. */
  datatype Pending = Pending(seqNo: nat, frame: Bytes)

  /** Where an append stands. `Leading`: it took `batch`, of which `appended` frames have been written, and
      `synced` once the barrier has returned. `Publishing`: the batch is over, with what result. */
  datatype Stage =
    | Fresh
    | Queued(mySeq: nat)
    | Parked(mySeq: nat)
    | Leading(mySeq: nat, batch: seq<Pending>, appended: nat, synced: bool)
    | Publishing(mySeq: nat, batch: seq<Pending>, ok: bool)
    | Returned(mySeq: nat, ok: bool)

  /** One call of `append`. */
  datatype Writer = Writer(frame: Bytes, at: Stage)

  /** The coordinator's fields; the writers; the log, in which `buffered` frames follow the `durable` ones; the
      places in it where a segment was closed; and, for the record, the frames in the order in which they were
      handed a commit number. */
  datatype State = State(queue: seq<Pending>, nextSeq: nat, syncedThrough: nat, leaderActive: bool,
                         writers: seq<Writer>, durable: seq<Bytes>, buffered: seq<Bytes>, cuts: seq<nat>, handed: seq<Bytes>)

  datatype Step =
    | Enqueue(w: nat)
    | Check(w: nat)
    | AppendFrame(w: nat)
    | Sync(w: nat)
    | Succeed(w: nat)
    | Rotate(w: nat)
    | Fail(w: nat)
    | Publish(w: nat)
    | WakeUp(w: nat)

  function Init(frames: seq<Bytes>): State {
    State([], 0, 0, false, seq(|frames|, i requires 0 <= i < |frames| => Writer(frames[i], Fresh)), [], [], [], [])
  }

  predicate Enabled(s: State, st: Step) {
    && st.w < |s.writers|
    && var at := s.writers[st.w].at;
       match st
       case Enqueue(_) => at.Fresh?
       case Check(_) => at.Queued?
       case AppendFrame(_) => at.Leading? && at.appended < |at.batch|
       case Sync(_) => at.Leading? && at.appended == |at.batch| && !at.synced
       case Succeed(_) => at.Leading? && at.synced
       case Rotate(_) => at.Leading? && at.synced
       case Fail(_) => at.Leading?
       case Publish(_) => at.Publishing?
       case WakeUp(_) => at.Parked?
  }

  function Highest(batch: seq<Pending>, mySeq: nat): nat {
    if batch == [] then mySeq else batch[|batch| - 1].seqNo
  }

  function Awake(at: Stage): Stage { if at.Parked? then Queued(at.mySeq) else at }

  /** `notify_all`: every parked writer goes back to checking. */
  function Woken(ws: seq<Writer>): (r: seq<Writer>)
    ensures |r| == |ws|
    ensures forall i :: 0 <= i < |ws| ==> r[i] == Writer(ws[i].frame, Awake(ws[i].at))
  {
    seq(|ws|, i requires 0 <= i < |ws| => Writer(ws[i].frame, Awake(ws[i].at)))
  }

  function At(s: State, w: nat, at: Stage): seq<Writer>
    requires w < |s.writers|
  {
    s.writers[w := Writer(s.writers[w].frame, at)]
  }

  /** `commit_group`, one critical section or storage operation at a time. A frame append is all or nothing. `Rotate`
      is `Succeed` with a roll to a fresh segment; a roll that fails is `Fail`. */
  function Next(s: State, st: Step): State
    requires Enabled(s, st)
  {
    var w := st.w;
    var at := s.writers[w].at;
    match st
    case Enqueue(_) =>
      var n, frame := s.nextSeq + 1, s.writers[w].frame;
      s.(nextSeq := n, queue := s.queue + [Pending(n, frame)], handed := s.handed + [frame], writers := At(s, w, Queued(n)))
    case Check(_) =>
      if s.syncedThrough >= at.mySeq then s.(writers := At(s, w, Returned(at.mySeq, true)))
      else if s.leaderActive then s.(writers := At(s, w, Parked(at.mySeq)))
      else s.(leaderActive := true, queue := [], writers := At(s, w, Leading(at.mySeq, s.queue, 0, false)))
    case AppendFrame(_) =>
      s.(buffered := s.buffered + [at.batch[at.appended].frame], writers := At(s, w, at.(appended := at.appended + 1)))
    case Sync(_) => s.(durable := s.durable + s.buffered, buffered := [], writers := At(s, w, at.(synced := true)))
    case Succeed(_) => s.(writers := At(s, w, Publishing(at.mySeq, at.batch, true)))
    case Rotate(_) => s.(cuts := s.cuts + [|s.durable|], writers := At(s, w, Publishing(at.mySeq, at.batch, true)))
    case Fail(_) => s.(writers := At(s, w, Publishing(at.mySeq, at.batch, false)))
    case Publish(_) =>
      var done := s.(leaderActive := false, writers := Woken(At(s, w, Returned(at.mySeq, at.ok))));
      if at.ok then done.(syncedThrough := Max(s.syncedThrough, Highest(at.batch, at.mySeq)))
      else done.(queue := at.batch + s.queue)
    case WakeUp(_) => s.(writers := At(s, w, Queued(at.mySeq)))
  }

  // ------------------------------------------------------------------- safety

  predicate InCharge(w: Writer) { w.at.Leading? || w.at.Publishing? }

  /** At most one writer leads a batch, and the flag says whether one does. */
  ghost predicate OneLeader(s: State) {
    && (forall i, j :: 0 <= i < j < |s.writers| ==> !(InCharge(s.writers[i]) && InCharge(s.writers[j])))
    && (s.leaderActive <==> exists i :: 0 <= i < |s.writers| && InCharge(s.writers[i]))
  }

  /** The entry numbered `from + 1 + i` at position `i`, with the frame that was handed that number. */
  ghost predicate Numbered(s: State, ps: seq<Pending>, from: nat) {
    forall i :: 0 <= i < |ps| ==> HasNumber(s, ps[i], from + i)
  }

  /** The entry with the `n`-th number, counted from 0, and the frame it was handed to. */
  predicate HasNumber(s: State, p: Pending, n: nat) {
    p.seqNo == n + 1 && n < |s.handed| && p.frame == s.handed[n]
  }

  /** Every writer holds the number its frame was handed. */
  ghost predicate Holds(s: State, w: Writer) {
    w.at.Fresh? || (1 <= w.at.mySeq <= |s.handed| && s.handed[w.at.mySeq - 1] == w.frame)
  }

  /** The unsynced numbers: the leader's batch followed by the queue is, in order and without gaps, exactly
      `syncedThrough + 1` to `nextSeq`; without a leader the queue alone is. */
  ghost predicate Contiguous(s: State) {
    && s.syncedThrough <= s.nextSeq == |s.handed|
    && (forall w :: 0 <= w < |s.writers| ==> Holds(s, s.writers[w]))
    && (!s.leaderActive ==> Numbered(s, s.queue, s.syncedThrough) && |s.queue| == s.nextSeq - s.syncedThrough)
    && (forall w :: 0 <= w < |s.writers| && InCharge(s.writers[w]) ==> BatchThenQueue(s, s.writers[w].at.batch, s.writers[w].at.mySeq))
  }

  ghost predicate BatchThenQueue(s: State, batch: seq<Pending>, mySeq: nat) {
    && Numbered(s, batch + s.queue, s.syncedThrough) && |batch| + |s.queue| == s.nextSeq - s.syncedThrough
    && s.syncedThrough < mySeq <= s.syncedThrough + |batch|
  }

  ghost predicate Written(log: seq<Bytes>, batch: seq<Pending>, n: nat)
    requires n <= |batch|
  {
    forall i :: 0 <= i < n ==> batch[i].frame in log
  }

  /** What a writer's stage says about the log. */
  ghost predicate LogHas(s: State, w: Writer) {
    match w.at
    case Leading(_, batch, appended, synced) =>
      appended <= |batch| && (synced ==> appended == |batch|)
      && Written(if synced then s.durable else s.durable + s.buffered, batch, appended)
    case Publishing(_, batch, ok) => ok ==> Written(s.durable, batch, |batch|)
    case Returned(_, ok) => ok ==> w.frame in s.durable
    case _ => true
  }

  ghost predicate Durable(s: State) {
    && (forall i :: 0 <= i < s.syncedThrough && i < |s.handed| ==> s.handed[i] in s.durable)
    && (forall w :: 0 <= w < |s.writers| ==> LogHas(s, s.writers[w]))
  }

  /** A writer is parked only while there is somebody to wake it. */
  ghost predicate ParkedOnlyIfLed(s: State) {
    forall w :: 0 <= w < |s.writers| && s.writers[w].at.Parked? ==> s.leaderActive
  }

  ghost predicate Inv(s: State) {
    OneLeader(s) && Contiguous(s) && Durable(s) && ParkedOnlyIfLed(s)
  }

  lemma InitInv(frames: seq<Bytes>)
    ensures Inv(Init(frames))
  {
  }

  lemma StepOneLeader(s: State, st: Step)
    requires Inv(s) && Enabled(s, st)
    ensures OneLeader(Next(s, st)) && ParkedOnlyIfLed(Next(s, st))
  {
    hide Contiguous, Durable;
    var t, w := Next(s, st), st.w;
    if InCharge(s.writers[w]) {
      assert s.leaderActive;
      if !st.Publish? { assert InCharge(t.writers[w]); }
    } else if st.Check? && InCharge(t.writers[w]) {
      assert !s.leaderActive;
    } else {
      forall i | 0 <= i < |s.writers|
        ensures InCharge(t.writers[i]) <==> InCharge(s.writers[i])
      {
      }
    }
  }

  lemma NumberedTail(s: State, a: seq<Pending>, b: seq<Pending>, from: nat)
    requires Numbered(s, a + b, from)
    ensures Numbered(s, a, from) && Numbered(s, b, from + |a|)
  {
    hide HasNumber;
    var ps := a + b;
    forall i | 0 <= i < |a|
      ensures HasNumber(s, a[i], from + i)
    {
      assert a[i] == ps[i];
    }
    forall i | 0 <= i < |b|
      ensures HasNumber(s, b[i], from + |a| + i)
    {
      assert b[i] == ps[|a| + i] && HasNumber(s, ps[|a| + i], from + (|a| + i));
    }
  }

  /** Enqueueing at the end keeps the numbering. */
  lemma NumberedEnqueued(s: State, t: State, ps: seq<Pending>, from: nat, frame: Bytes)
    requires Numbered(s, ps, from) && from + |ps| == |s.handed| && t.handed == s.handed + [frame]
    ensures Numbered(t, ps + [Pending(|s.handed| + 1, frame)], from)
  {
  }

  lemma EnqueueContiguous(s: State, st: Step)
    requires Inv(s) && Enabled(s, st) && st.Enqueue?
    ensures Contiguous(Next(s, st))
  {
    hide Durable, ParkedOnlyIfLed, OneLeader, Numbered;
    var t, w := Next(s, st), st.w;
    var p := Pending(s.nextSeq + 1, s.writers[w].frame);
    if !s.leaderActive { NumberedEnqueued(s, t, s.queue, s.syncedThrough, p.frame); }
    forall v | 0 <= v < |t.writers|
      ensures Holds(t, t.writers[v])
    {
      assert Holds(s, s.writers[v]);
    }
    forall v | 0 <= v < |t.writers| && InCharge(t.writers[v])
      ensures BatchThenQueue(t, t.writers[v].at.batch, t.writers[v].at.mySeq)
    {
      var batch := s.writers[v].at.batch;
      assert BatchThenQueue(s, batch, s.writers[v].at.mySeq);
      NumberedEnqueued(s, t, batch + s.queue, s.syncedThrough, p.frame);
      assert batch + t.queue == (batch + s.queue) + [p];
    }
  }

  /** Whoever becomes leader finds its own frame in the batch it takes. */
  lemma CheckContiguous(s: State, st: Step)
    requires Inv(s) && Enabled(s, st) && st.Check?
    ensures Contiguous(Next(s, st))
  {
    hide Durable, ParkedOnlyIfLed, Numbered;
    var t, w := Next(s, st), st.w;
    assert Holds(s, s.writers[w]);
    forall v | 0 <= v < |t.writers|
      ensures Holds(t, t.writers[v])
    {
      assert Holds(s, s.writers[v]);
    }
    assert s.queue + [] == s.queue;
    assert !s.leaderActive ==> forall v :: 0 <= v < |s.writers| ==> !InCharge(s.writers[v]);
    forall v | 0 <= v < |t.writers| && InCharge(t.writers[v])
      ensures BatchThenQueue(t, t.writers[v].at.batch, t.writers[v].at.mySeq)
    {
      if InCharge(s.writers[v]) {
        assert BatchThenQueue(s, s.writers[v].at.batch, s.writers[v].at.mySeq);
        SameNumbers(s, t, s.writers[v].at.batch + s.queue, s.syncedThrough);
      } else {
        SameNumbers(s, t, s.queue, s.syncedThrough);
      }
    }
    if !t.leaderActive { SameNumbers(s, t, s.queue, s.syncedThrough); }
  }

  lemma SameNumbers(s: State, t: State, ps: seq<Pending>, from: nat)
    requires Numbered(s, ps, from) && t.handed == s.handed
    ensures Numbered(t, ps, from)
  {
  }

  /** A successful batch moves `syncedThrough` past it; a failed one goes back to the front of the queue. */
  lemma PublishContiguous(s: State, st: Step)
    requires Inv(s) && Enabled(s, st) && st.Publish?
    ensures Contiguous(Next(s, st))
    ensures s.writers[st.w].at.ok ==> Next(s, st).syncedThrough == s.syncedThrough + |s.writers[st.w].at.batch|
  {
    hide Durable, ParkedOnlyIfLed;
    var t, w := Next(s, st), st.w;
    var at := s.writers[w].at;
    var batch := at.batch;
    assert InCharge(s.writers[w]);
    assert BatchThenQueue(s, batch, at.mySeq);
    NumberedTail(s, batch, s.queue, s.syncedThrough);
    assert forall v :: 0 <= v < |s.writers| && v != w ==> !InCharge(s.writers[v]);
    forall v | 0 <= v < |t.writers|
      ensures Holds(t, t.writers[v]) && !InCharge(t.writers[v])
    {
      assert Holds(s, s.writers[v]);
    }
    if at.ok {
      assert batch[|batch| - 1].seqNo == s.syncedThrough + |batch|;
      SameNumbers(s, t, s.queue, s.syncedThrough + |batch|);
    } else {
      SameNumbers(s, t, batch + s.queue, s.syncedThrough);
    }
  }

  lemma OtherContiguous(s: State, st: Step)
    requires Inv(s) && Enabled(s, st) && !st.Enqueue? && !st.Check? && !st.Publish?
    ensures Contiguous(Next(s, st))
  {
    hide Durable, ParkedOnlyIfLed, OneLeader, Numbered;
    var t, w := Next(s, st), st.w;
    forall v | 0 <= v < |t.writers|
      ensures Holds(t, t.writers[v])
      ensures InCharge(t.writers[v]) ==> BatchThenQueue(t, t.writers[v].at.batch, t.writers[v].at.mySeq)
    {
      assert Holds(s, s.writers[v]);
      if InCharge(s.writers[v]) {
        assert BatchThenQueue(s, s.writers[v].at.batch, s.writers[v].at.mySeq);
        SameNumbers(s, t, s.writers[v].at.batch + s.queue, s.syncedThrough);
      }
    }
    if !t.leaderActive { SameNumbers(s, t, s.queue, s.syncedThrough); }
  }

  lemma StepContiguous(s: State, st: Step)
    requires Inv(s) && Enabled(s, st)
    ensures Contiguous(Next(s, st))
  {
    hide Inv, Contiguous;
    match st
    case Enqueue(_) => EnqueueContiguous(s, st);
    case Check(_) => CheckContiguous(s, st);
    case Publish(_) => PublishContiguous(s, st);
    case _ => OtherContiguous(s, st);
  }

  lemma WrittenMore(log: seq<Bytes>, log': seq<Bytes>, batch: seq<Pending>, n: nat)
    requires n <= |batch| && Written(log, batch, n) && log <= log'
    ensures Written(log', batch, n)
  {
    forall i | 0 <= i < n
      ensures batch[i].frame in log'
    {
      InLonger(log, log', batch[i].frame);
    }
  }

  lemma InLonger(log: seq<Bytes>, log': seq<Bytes>, frame: Bytes)
    requires log <= log' && frame in log
    ensures frame in log'
  {
    var i :| 0 <= i < |log| && log[i] == frame;
    assert log'[i] == frame;
  }

  /** What a stage said about the log it still says of a log that has grown. */
  lemma LogHasMore(s: State, t: State, w: Writer)
    requires LogHas(s, w) && s.durable <= t.durable && s.durable + s.buffered <= t.durable + t.buffered
    ensures LogHas(t, w)
  {
    match w.at
    case Leading(_, batch, appended, synced) =>
      if synced { WrittenMore(s.durable, t.durable, batch, appended); }
      else { WrittenMore(s.durable + s.buffered, t.durable + t.buffered, batch, appended); }
    case Publishing(_, batch, ok) => if ok { WrittenMore(s.durable, t.durable, batch, |batch|); }
    case Returned(_, ok) => if ok { InLonger(s.durable, t.durable, w.frame); }
    case _ =>
  }

  lemma ActorLogHas(s: State, st: Step)
    requires Inv(s) && Enabled(s, st)
    ensures LogHas(Next(s, st), Next(s, st).writers[st.w])
  {
    hide OneLeader, ParkedOnlyIfLed;
    var t, w := Next(s, st), st.w;
    var at := s.writers[w].at;
    assert Holds(s, s.writers[w]) && LogHas(s, s.writers[w]);
    match st
    case AppendFrame(_) =>
      var log, log' := s.durable + s.buffered, t.durable + t.buffered;
      assert log' == log + [at.batch[at.appended].frame];
      WrittenMore(log, log', at.batch, at.appended);
      assert log'[|log|] == at.batch[at.appended].frame;
    case Publish(_) =>
      if at.ok {
        assert BatchThenQueue(s, at.batch, at.mySeq);
        var i := at.mySeq - s.syncedThrough - 1;
        assert (at.batch + s.queue)[i].frame == s.handed[s.syncedThrough + i];
        assert at.batch[i].frame == s.writers[w].frame;
      }
    case _ =>
  }

  /** The log only grows, and its durable part too. */
  lemma LogGrows(s: State, st: Step)
    requires Enabled(s, st)
    ensures s.durable <= Next(s, st).durable && s.durable + s.buffered <= Next(s, st).durable + Next(s, st).buffered
  {
  }

  lemma StepDurable(s: State, st: Step)
    requires Inv(s) && Enabled(s, st)
    ensures Durable(Next(s, st))
  {
    hide ParkedOnlyIfLed, OneLeader, LogHas, Numbered;
    var t, w := Next(s, st), st.w;
    var at := s.writers[w].at;
    LogGrows(s, st);
    ActorLogHas(s, st);
    forall v | 0 <= v < |t.writers|
      ensures LogHas(t, t.writers[v])
    {
      assert LogHas(s, s.writers[v]);
      if v != w {
        LogHasMore(s, t, s.writers[v]);
        AwakeLogHas(t, s.writers[v]);
      }
    }
    forall i | 0 <= i < t.syncedThrough && i < |t.handed|
      ensures t.handed[i] in t.durable
    {
      if i < s.syncedThrough && i < |s.handed| {
        assert s.handed[i] in s.durable;
        InLonger(s.durable, t.durable, s.handed[i]);
      } else {
        PublishedDurable(s, st, i);
      }
    }
  }

  lemma AwakeLogHas(s: State, w: Writer)
    requires LogHas(s, w)
    ensures LogHas(s, Writer(w.frame, Awake(w.at)))
  {
  }

  lemma PublishedDurable(s: State, st: Step, i: nat)
    requires Inv(s) && Enabled(s, st) && s.syncedThrough <= i < Next(s, st).syncedThrough
    ensures i < |s.handed| && s.handed[i] in Next(s, st).durable
  {
    hide ParkedOnlyIfLed, OneLeader;
    assert st.Publish?;
    var w := st.w;
    var at := s.writers[w].at;
    PublishContiguous(s, st);
    assert InCharge(s.writers[w]) && LogHas(s, s.writers[w]);
    assert BatchThenQueue(s, at.batch, at.mySeq);
    NumberedTail(s, at.batch, s.queue, s.syncedThrough);
    assert at.batch[i - s.syncedThrough].frame == s.handed[s.syncedThrough + (i - s.syncedThrough)];
  }

  lemma StepInv(s: State, st: Step)
    requires Inv(s) && Enabled(s, st)
    ensures Inv(Next(s, st))
  {
    hide OneLeader, Contiguous, Durable, ParkedOnlyIfLed;
    StepOneLeader(s, st);
    StepContiguous(s, st);
    StepDurable(s, st);
  }

  // --------------------------------------------------------------------- runs

  ghost predicate Runs(s: State, steps: seq<Step>)
    decreases |steps|
  {
    steps == [] || (Enabled(s, steps[0]) && Runs(Next(s, steps[0]), steps[1..]))
  }

  ghost function After(s: State, steps: seq<Step>): State
    requires Runs(s, steps)
    decreases |steps|
  {
    if steps == [] then s else After(Next(s, steps[0]), steps[1..])
  }

  lemma {:induction false} RunsInv(s: State, steps: seq<Step>)
    requires Inv(s) && Runs(s, steps)
    ensures Inv(After(s, steps))
    decreases |steps|
  {
    hide Inv, Next, Enabled;
    if steps != [] {
      StepInv(s, steps[0]);
      RunsInv(Next(s, steps[0]), steps[1..]);
    }
  }

  /** Group-commit safety: in every run of any number of writers, with batches failing anywhere and being
      retried, there is at most one leader, the leader's batch followed by the queue is the unsynced numbers
      in order and without gaps, and every append that returned success has its frame in the synced log. */
  lemma Safety(frames: seq<Bytes>, steps: seq<Step>)
    requires Runs(Init(frames), steps)
    ensures var s := After(Init(frames), steps);
      && (forall i, j :: 0 <= i < j < |s.writers| ==> !(InCharge(s.writers[i]) && InCharge(s.writers[j])))
      && Contiguous(s)
      && (forall w :: 0 <= w < |s.writers| && s.writers[w].at.Returned? && s.writers[w].at.ok ==> s.writers[w].frame in s.durable)
  {
    hide Runs, After, Contiguous, ParkedOnlyIfLed;
    InitInv(frames);
    RunsInv(Init(frames), steps);
    var s := After(Init(frames), steps);
    forall w | 0 <= w < |s.writers| && s.writers[w].at.Returned? && s.writers[w].at.ok
      ensures s.writers[w].frame in s.durable
    {
      assert LogHas(s, s.writers[w]);
    }
  }

  // ------------------------------------------------------------------ failures

  lemma {:induction false} RunsMore(s: State, steps: seq<Step>, st: Step)
    requires Runs(s, steps)
    ensures Runs(s, steps + [st]) <==> Enabled(After(s, steps), st)
    decreases |steps|
  {
    hide Enabled, Next;
    if steps == [] {
      assert steps + [st] == [st] && [st][1..] == [];
    } else {
      assert (steps + [st])[1..] == steps[1..] + [st] && (steps + [st])[0] == steps[0];
      RunsMore(Next(s, steps[0]), steps[1..], st);
    }
  }

  /** Nothing that can go wrong is left out: a leader may fail at any moment of its batch, before, between and after the
      frames and behind the barrier, where the segment may be rolled as well, and a parked writer may wake at any time. */
  lemma AnythingMayHappen(frames: seq<Bytes>, steps: seq<Step>, w: nat)
    requires Runs(Init(frames), steps) && w < |frames|
    ensures |After(Init(frames), steps).writers| == |frames|
    ensures var at := After(Init(frames), steps).writers[w].at;
      && (Runs(Init(frames), steps + [Fail(w)]) <==> at.Leading?)
      && (Runs(Init(frames), steps + [Rotate(w)]) <==> Runs(Init(frames), steps + [Succeed(w)]))
      && (Runs(Init(frames), steps + [Succeed(w)]) <==> at.Leading? && at.synced)
      && (Runs(Init(frames), steps + [WakeUp(w)]) <==> at.Parked?)
  {
    hide Runs, After;
    FramesFixed(Init(frames), steps);
    RunsMore(Init(frames), steps, Fail(w));
    RunsMore(Init(frames), steps, Rotate(w));
    RunsMore(Init(frames), steps, Succeed(w));
    RunsMore(Init(frames), steps, WakeUp(w));
  }

  // ----------------------------------------------------------------- progress

  /** Steps other than an input-output error and a spurious wakeup. */
  predicate Useful(st: Step) { !st.Fail? && !st.WakeUp? }

  /** No deadlock: as long as some append has not returned, a useful step is enabled. */
  lemma NoDeadlock(s: State, w: nat) returns (st: Step)
    requires Inv(s) && w < |s.writers| && !s.writers[w].at.Returned?
    ensures Enabled(s, st) && Useful(st)
  {
    hide Contiguous;
    var v := w;
    if s.writers[w].at.Parked? {
      v :| 0 <= v < |s.writers| && InCharge(s.writers[v]);
    }
    assert LogHas(s, s.writers[v]);
    match s.writers[v].at {
      case Fresh => st := Enqueue(v);
      case Queued(_) => st := Check(v);
      case Leading(_, batch, appended, synced) =>
        st := if synced then Succeed(v) else if appended < |batch| then AppendFrame(v) else Sync(v);
      case Publishing(_, _, _) => st := Publish(v);
    }
  }

  function Sum(ws: seq<Writer>, f: Writer -> nat): nat {
    if ws == [] then 0 else f(ws[0]) + Sum(ws[1..], f)
  }

  lemma {:induction false} SumUpdate(ws: seq<Writer>, i: nat, w: Writer, f: Writer -> nat)
    requires i < |ws|
    ensures Sum(ws[i := w], f) == Sum(ws, f) - f(ws[i]) + f(w)
  {
    if i > 0 {
      assert ws[i := w][1..] == ws[1..][i - 1 := w];
      SumUpdate(ws[1..], i - 1, w, f);
    }
  }

  lemma {:induction false} SumWoken(ws: seq<Writer>, f: Writer -> nat)
    requires forall w: Writer :: f(Writer(w.frame, Awake(w.at))) == f(w)
    ensures Sum(Woken(ws), f) == Sum(ws, f)
  {
    if ws != [] {
      assert Woken(ws)[1..] == Woken(ws[1..]);
      SumWoken(ws[1..], f);
    }
  }

  function Unreturned(w: Writer): nat { if w.at.Returned? then 0 else 1 }
  function Unstarted(w: Writer): nat { if w.at.Fresh? then 1 else 0 }
  function Checking(w: Writer): nat { if w.at.Queued? then 1 else 0 }

  /** Storage operations a leader has yet to see through. */
  function Ahead(w: Writer): nat {
    if !w.at.Leading? then 0
    else (if w.at.synced then 1 else 2) + if w.at.appended < |w.at.batch| then |w.at.batch| - w.at.appended else 0
  }

  /** A useful step makes lexicographic progress: appends returned, then started, then checked, then operations done. */
  ghost predicate Progress(s: State, t: State) {
    var u, u' := Sum(s.writers, Unreturned), Sum(t.writers, Unreturned);
    var f, f' := Sum(s.writers, Unstarted), Sum(t.writers, Unstarted);
    var q, q' := Sum(s.writers, Checking), Sum(t.writers, Checking);
    u' < u || (u' == u && (f' < f || (f' == f && (q' < q || (q' == q && Sum(t.writers, Ahead) < Sum(s.writers, Ahead))))))
  }

  lemma StepProgress(s: State, st: Step)
    requires Enabled(s, st) && Useful(st)
    ensures Progress(s, Next(s, st))
  {
    hide Sum;
    var w := st.w;
    var at := s.writers[w].at;
    if st.Publish? {
      var ws := At(s, w, Returned(at.mySeq, at.ok));
      SumUpdate(s.writers, w, ws[w], Unreturned);
      SumWoken(ws, Unreturned);
    } else {
      var x := Next(s, st).writers[w];
      SumUpdate(s.writers, w, x, Unreturned);
      SumUpdate(s.writers, w, x, Unstarted);
      SumUpdate(s.writers, w, x, Checking);
      SumUpdate(s.writers, w, x, Ahead);
    }
  }

  /** Every run of useful steps is finite. */
  lemma NoInfiniteRun(states: nat -> State, steps: nat -> Step, i: nat)
    requires forall n: nat :: Enabled(states(n), steps(n)) && Useful(steps(n)) && states(n + 1) == Next(states(n), steps(n))
    ensures false
    decreases Sum(states(i).writers, Unreturned), Sum(states(i).writers, Unstarted), Sum(states(i).writers, Checking),
              Sum(states(i).writers, Ahead)
  {
    hide Next, Enabled, Sum;
    StepProgress(states(i), steps(i));
    NoInfiniteRun(states, steps, i + 1);
  }

  /** Without an error nothing is ever going to return one. */
  ghost predicate NoneFailed(s: State) {
    forall w :: 0 <= w < |s.writers| ==> (s.writers[w].at.Publishing? || s.writers[w].at.Returned? ==> s.writers[w].at.ok)
  }

  lemma {:induction false} NoneFailedAfter(s: State, steps: seq<Step>)
    requires NoneFailed(s) && Runs(s, steps) && forall i :: 0 <= i < |steps| ==> !steps[i].Fail?
    ensures NoneFailed(After(s, steps)) && |After(s, steps).writers| == |s.writers|
    ensures forall w :: 0 <= w < |s.writers| ==> After(s, steps).writers[w].frame == s.writers[w].frame
    decreases |steps|
  {
    if steps != [] {
      assert forall i :: 0 <= i < |steps[1..]| ==> steps[1..][i] == steps[i + 1];
      NoneFailedAfter(Next(s, steps[0]), steps[1..]);
    }
  }

  /** Group-commit progress: with no error and no spurious wakeup, a run that can go no further has every
      append returned successfully and its frame synced. Together with `NoInfiniteRun`, every run ends so. */
  lemma AllReturn(frames: seq<Bytes>, steps: seq<Step>)
    requires Runs(Init(frames), steps) && forall i :: 0 <= i < |steps| ==> Useful(steps[i])
    requires forall st :: Useful(st) ==> !Enabled(After(Init(frames), steps), st)
    ensures var s := After(Init(frames), steps);
      |s.writers| == |frames| && forall w :: 0 <= w < |frames| ==>
        s.writers[w].at.Returned? && s.writers[w].at.ok && frames[w] in s.durable
  {
    hide Runs, After, Inv, Enabled;
    var s := After(Init(frames), steps);
    InitInv(frames);
    RunsInv(Init(frames), steps);
    NoneFailedAfter(Init(frames), steps);
    Safety(frames, steps);
    forall w | 0 <= w < |frames|
      ensures s.writers[w].at.Returned?
    {
      if !s.writers[w].at.Returned? { var st := NoDeadlock(s, w); }
    }
  }

  // ---------------------------------------------------------------- log order

  /** Without an error the log is the handed frames, in commit order, none twice. */
  ghost predicate InOrder(s: State) {
    && s.durable + s.buffered <= s.handed
    && (!s.leaderActive ==> |s.durable + s.buffered| == s.syncedThrough)
    && forall w :: 0 <= w < |s.writers| ==>
         match s.writers[w].at
         case Leading(_, _, appended, _) => |s.durable + s.buffered| == s.syncedThrough + appended
         case Publishing(_, batch, _) => |s.durable + s.buffered| == s.syncedThrough + |batch|
         case _ => true
  }

  lemma StepInOrder(s: State, st: Step)
    requires Inv(s) && Enabled(s, st) && InOrder(s) && NoneFailed(s) && !st.Fail?
    ensures InOrder(Next(s, st))
  {
    var t, w := Next(s, st), st.w;
    assert LogHas(s, s.writers[w]);
    match st
    case AppendFrame(_) => AppendInOrder(s, st);
    case Sync(_) =>
      hide Contiguous, Durable, ParkedOnlyIfLed, LogHas;
      assert t.durable + t.buffered == s.durable + s.buffered;
    case Publish(_) => PublishContiguous(s, st);
    case Enqueue(_) =>
      hide Contiguous, Durable, ParkedOnlyIfLed, LogHas, OneLeader;
      assert s.handed <= t.handed;
    case _ => hide Contiguous, Durable, ParkedOnlyIfLed;
  }

  lemma AppendInOrder(s: State, st: Step)
    requires Inv(s) && Enabled(s, st) && InOrder(s) && st.AppendFrame?
    ensures InOrder(Next(s, st))
  {
    var t, at := Next(s, st), s.writers[st.w].at;
    var log := s.durable + s.buffered;
    assert BatchThenQueue(s, at.batch, at.mySeq);
    NumberedTail(s, at.batch, s.queue, s.syncedThrough);
    assert at.batch[at.appended].frame == s.handed[s.syncedThrough + at.appended];
    assert t.durable + t.buffered == log + [at.batch[at.appended].frame];
    assert log + [s.handed[|log|]] <= s.handed;
    assert s.leaderActive;
    hide Contiguous, Durable, ParkedOnlyIfLed;
  }

  lemma {:induction false} OrderKept(s: State, steps: seq<Step>)
    requires Inv(s) && InOrder(s) && NoneFailed(s) && Runs(s, steps) && forall i :: 0 <= i < |steps| ==> !steps[i].Fail?
    ensures InOrder(After(s, steps))
    decreases |steps|
  {
    hide Inv, InOrder, NoneFailed, Next, Enabled;
    if steps != [] {
      StepInv(s, steps[0]);
      StepInOrder(s, steps[0]);
      assert NoneFailed(Next(s, steps[0])) by { NoneFailedAfter(s, [steps[0]]); OneAfter(s, steps[0]); }
      assert forall i :: 0 <= i < |steps[1..]| ==> steps[1..][i] == steps[i + 1];
      OrderKept(Next(s, steps[0]), steps[1..]);
    }
  }

  /** The frames in the order in which their appends entered the queue. */
  function Asked(frames: seq<Bytes>, steps: seq<Step>): seq<Bytes>
    decreases |steps|
  {
    if steps == [] then []
    else (if steps[0].Enqueue? && steps[0].w < |frames| then [frames[steps[0].w]] else []) + Asked(frames, steps[1..])
  }

  lemma {:induction false} HandedAre(frames: seq<Bytes>, s: State, steps: seq<Step>)
    requires Runs(s, steps) && |s.writers| == |frames| && forall w :: 0 <= w < |frames| ==> s.writers[w].frame == frames[w]
    ensures After(s, steps).handed == s.handed + Asked(frames, steps)
    decreases |steps|
  {
    hide Next, Enabled;
    if steps == [] {
      assert s.handed + [] == s.handed;
    } else {
      var t, st := Next(s, steps[0]), steps[0];
      var first := if st.Enqueue? && st.w < |frames| then [frames[st.w]] else [];
      HandedStep(frames, s, st);
      HandedAre(frames, t, steps[1..]);
      assert s.handed + (first + Asked(frames, steps[1..])) == s.handed + first + Asked(frames, steps[1..]);
    }
  }

  lemma HandedStep(frames: seq<Bytes>, s: State, st: Step)
    requires Enabled(s, st) && |s.writers| == |frames| && forall w :: 0 <= w < |frames| ==> s.writers[w].frame == frames[w]
    ensures var t := Next(s, st);
      && t.handed == s.handed + (if st.Enqueue? && st.w < |frames| then [frames[st.w]] else [])
      && |t.writers| == |frames| && forall w :: 0 <= w < |frames| ==> t.writers[w].frame == frames[w]
  {
  }

  /** In every run without an error the log is the frames in the order in which their appends entered the queue, none
      twice: the first of them, up to the last one written. */
  lemma LogInOrder(frames: seq<Bytes>, steps: seq<Step>)
    requires Runs(Init(frames), steps) && forall i :: 0 <= i < |steps| ==> !steps[i].Fail?
    ensures var s := After(Init(frames), steps); InOrder(s) && s.durable + s.buffered <= Asked(frames, steps)
  {
    hide Runs, After, Inv;
    InitInv(frames);
    OrderKept(Init(frames), steps);
    HandedAre(frames, Init(frames), steps);
    assert [] + Asked(frames, steps) == Asked(frames, steps);
  }

  lemma OneAfter(s: State, st: Step)
    requires Enabled(s, st)
    ensures Runs(s, [st]) && After(s, [st]) == Next(s, st)
  {
    assert [st][1..] == [];
  }

  // ------------------------------------------------------------- log and segments

  predicate HasFrame(s: State, f: Bytes) { exists w :: 0 <= w < |s.writers| && s.writers[w].frame == f }

  /** The log holds frames of the writers only; segments are closed with nothing buffered. */
  ghost predicate LogShape(s: State) {
    && (forall f :: f in s.durable || f in s.buffered ==> f in s.handed)
    && (forall f :: f in s.handed ==> HasFrame(s, f))
    && (forall i :: 0 <= i < |s.cuts| ==> s.cuts[i] <= |s.durable|)
    && (forall i, j :: 0 <= i < j < |s.cuts| ==> s.cuts[i] <= s.cuts[j])
    && (forall w :: 0 <= w < |s.writers| && s.writers[w].at.Leading? && s.writers[w].at.synced ==> s.buffered == [])
  }

  lemma StepFrames(s: State, st: Step, f: Bytes)
    requires Enabled(s, st) && HasFrame(s, f)
    ensures HasFrame(Next(s, st), f)
  {
    var w :| 0 <= w < |s.writers| && s.writers[w].frame == f;
    assert Next(s, st).writers[w].frame == f;
  }

  lemma StepLogShape(s: State, st: Step)
    requires Inv(s) && Enabled(s, st) && LogShape(s)
    ensures LogShape(Next(s, st))
  {
    var t, w := Next(s, st), st.w;
    var at := s.writers[w].at;
    if st.AppendFrame? {
      assert BatchThenQueue(s, at.batch, at.mySeq);
      NumberedTail(s, at.batch, s.queue, s.syncedThrough);
      assert at.batch[at.appended].frame == s.handed[s.syncedThrough + at.appended];
      assert LogHas(s, s.writers[w]);
    }
    hide Contiguous, Durable, ParkedOnlyIfLed, HasFrame;
    forall f | f in t.handed
      ensures HasFrame(t, f)
    {
      if f in s.handed { StepFrames(s, st, f); } else { EnqueuedFrame(s, st); }
    }
  }

  lemma EnqueuedFrame(s: State, st: Step)
    requires Enabled(s, st) && st.Enqueue?
    ensures HasFrame(Next(s, st), s.writers[st.w].frame)
  {
    assert Next(s, st).writers[st.w].frame == s.writers[st.w].frame;
  }

  lemma {:induction false} RunsLogShape(s: State, steps: seq<Step>)
    requires Inv(s) && LogShape(s) && Runs(s, steps)
    ensures LogShape(After(s, steps))
    decreases |steps|
  {
    hide Inv, LogShape, Next, Enabled;
    if steps != [] {
      StepInv(s, steps[0]);
      StepLogShape(s, steps[0]);
      RunsLogShape(Next(s, steps[0]), steps[1..]);
    }
  }

  lemma {:induction false} FramesFixed(s: State, steps: seq<Step>)
    requires Runs(s, steps)
    ensures |After(s, steps).writers| == |s.writers|
    ensures forall w :: 0 <= w < |s.writers| ==> After(s, steps).writers[w].frame == s.writers[w].frame
    decreases |steps|
  {
    if steps != [] { FramesFixed(Next(s, steps[0]), steps[1..]); }
  }
}
