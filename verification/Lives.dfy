// Whole lives of a database on the simulated disk: sessions of calls, each ended by
// a power loss at any storage operation, including while opening, any number of times.

module Lives {
  import opened Wrappers
  import opened ByteStrings
  import opened Versions
  import opened Sim
  import opened FsView
  import opened Protocols
  import opened LsmVersion
  import opened ManifestFormat
  import WalModel
  import opened SortedRuns
  import opened TableFormat
  import opened Meaning
  import opened EngineModel
  import opened EngineState
  import opened EngineSafety
  import opened OpenSafety
  import opened Reading
  import opened CompactionSafety

  // ------------------------------------------------------------ runs on the disk

  function DiskRun(d: Disk, ops: seq<Op>): (r: Disk)
    requires WellFormed(d)
    ensures WellFormed(r)
    decreases |ops|
  {
    if ops == [] then d else DiskRun(Step(d, ops[0]), ops[1..])
  }

  lemma {:induction false} RunRefines(d: Disk, ops: seq<Op>)
    requires Disciplined(d) && LegalRun(Abstract(d), ops)
    ensures Disciplined(DiskRun(d, ops)) && Abstract(DiskRun(d, ops)) == FsRun(Abstract(d), ops)
    decreases |ops|
  {
    hide Step, FsStep, Legal, Abstract;
    if ops != [] {
      StepRefines(d, ops[0]);
      RunRefines(Step(d, ops[0]), ops[1..]);
    }
  }

  /** The disk is one the engine leaves: nothing buffered, and what it holds means `kv`. */
  ghost predicate DiskShows(cfg: Config, d: Disk, kv: KV) {
    Disciplined(d) && exists img :: Abstract(d) == SettledFs(img) && ImageMeans(cfg, img, kv)
  }

  /** Cutting a safe run after any number of operations and crashing the disk leaves an acceptable image. */
  lemma CutAndCrash(d: Disk, ops: seq<Op>, cut: nat, target: Option<nat>, tear: Tear, ok: Goal) returns (img: Image)
    requires Disciplined(d) && SafeRun(Abstract(d), ops, ok) && cut <= |ops| && ok.tear == tear
    requires CrashAllowed(DiskRun(d, ops[..cut]), target, tear)
    ensures ok.accepts(img)
    ensures var e := Crash(DiskRun(d, ops[..cut]), target, tear); Disciplined(e) && Abstract(e) == SettledFs(img)
  {
    hide AppendOnly, Exclusive, Abstract, SafeRun, FsRun, LegalRun, SettledFs, Crash, DiskRun, WellFormed, CrashAllowed, CrashImage;
    SafeAtCut(Abstract(d), ops, ok, cut);
    RunRefines(d, ops[..cut]);
    var c := DiskRun(d, ops[..cut]);
    var torn := CrashRefines(c, target, tear);
    img := CrashImage(Abstract(c), torn, tear);
  }

  // ------------------------------------------------------------------- sessions

  ghost function CallsRun(cfg: Config, e: Engine, calls: seq<Call>): Engine
    requires Sane(cfg)
    decreases |calls|
  {
    if calls == [] then e else CallsRun(cfg, CallEffect(cfg, e, calls[0]).engine, calls[1..])
  }

  ghost function CallsOps(cfg: Config, e: Engine, calls: seq<Call>): seq<Op>
    requires Sane(cfg)
    decreases |calls|
  {
    if calls == [] then []
    else CallEffect(cfg, e, calls[0]).ops + CallsOps(cfg, CallEffect(cfg, e, calls[0]).engine, calls[1..])
  }

  /** The premise on a call: what it writes fits the format. */
  ghost predicate CallFits(cfg: Config, e: Engine, call: Call)
    requires Sane(cfg)
  {
    CallEffect(cfg, e, call).outcome != OutOfRange
  }

  ghost predicate CallsFit(cfg: Config, e: Engine, calls: seq<Call>)
    requires Sane(cfg)
    decreases |calls|
  {
    calls == [] || (CallFits(cfg, e, calls[0]) && CallsFit(cfg, CallEffect(cfg, e, calls[0]).engine, calls[1..]))
  }

  function CallsApplied(kv: KV, calls: seq<Call>): KV
    decreases |calls|
  {
    if calls == [] then kv else CallsApplied(CallApplied(kv, calls[0]), calls[1..])
  }

  /** A period between power losses. `Opening`: power is lost during the open. `Session`: the open and
      `calls` complete, and power is lost after `cut` operations of `last`. */
  datatype Event =
    | Opening(cut: nat, target: Option<nat>, tear: Tear)
    | Session(calls: seq<Call>, last: Call, cut: nat, target: Option<nat>, tear: Tear)

  ghost function LastEffect(cfg: Config, fs: Fs, ev: Event): Effect
    requires Sane(cfg)
  {
    match ev
    case Opening(_, _, _) => OpenEffect(cfg, fs)
    case Session(calls, last, _, _, _) => CallEffect(cfg, CallsRun(cfg, OpenEffect(cfg, fs).engine, calls), last)
  }

  ghost function EventOps(cfg: Config, fs: Fs, ev: Event): seq<Op>
    requires Sane(cfg) && ev.cut <= |LastEffect(cfg, fs, ev).ops|
  {
    match ev
    case Opening(cut, _, _) => OpenEffect(cfg, fs).ops[..cut]
    case Session(calls, _, cut, _, _) =>
      OpenEffect(cfg, fs).ops + CallsOps(cfg, OpenEffect(cfg, fs).engine, calls) + LastEffect(cfg, fs, ev).ops[..cut]
  }

  /** The premises on a session: its calls fit the format, and if the power loss flips a bit, then not one that turns
      the frame of the interrupted write into another frame. */
  ghost predicate EventFits(cfg: Config, fs: Fs, ev: Event)
    requires Sane(cfg)
  {
    match ev
    case Opening(_, _, _) => true
    case Session(calls, last, _, _, tear) =>
      var e := CallsRun(cfg, OpenEffect(cfg, fs).engine, calls);
      CallsFit(cfg, OpenEffect(cfg, fs).engine, calls) && CallFits(cfg, e, last) && CallNoticed(cfg, e, last, tear)
  }

  ghost predicate EventOk(cfg: Config, d: Disk, ev: Event)
    requires Sane(cfg)
  {
    && WellFormed(d) && ev.cut <= |LastEffect(cfg, Abstract(d), ev).ops| && EventFits(cfg, Abstract(d), ev)
    && CrashAllowed(DiskRun(d, EventOps(cfg, Abstract(d), ev)), ev.target, ev.tear)
  }

  ghost function AfterEvent(cfg: Config, d: Disk, ev: Event): Disk
    requires Sane(cfg) && EventOk(cfg, d, ev)
  {
    Crash(DiskRun(d, EventOps(cfg, Abstract(d), ev)), ev.target, ev.tear)
  }

  /** What the client may find after the event; `took` says whether the interrupted call took effect. */
  function EventApplied(kv: KV, ev: Event, took: bool): KV {
    match ev
    case Opening(_, _, _) => kv
    case Session(calls, last, _, _, _) =>
      if took then CallApplied(CallsApplied(kv, calls), last) else CallsApplied(kv, calls)
  }

  /** A power loss with this tear is to leave an image that means `a` or means `b`. */
  ghost function Either(cfg: Config, tear: Tear, a: KV, b: KV): Goal {
    Goal(tear, img => ImageMeans(cfg, img, a) || ImageMeans(cfg, img, b))
  }

  lemma EitherAccepts(cfg: Config, tear: Tear, a: KV, b: KV)
    ensures Accepts(cfg, Either(cfg, tear, a, b), a) && Accepts(cfg, Either(cfg, tear, a, b), b)
  {
    hide ImageMeans;
  }

  /** A running engine between calls, on a real disk. */
  ghost predicate RunningOn(cfg: Config, d: Disk, e: Engine, kv: KV) {
    Disciplined(d) && Abstract(d) == e.fs && exists img, o :: Running(cfg, e, img, o, kv)
  }

  lemma OpenRuns(cfg: Config, d: Disk, kv: KV)
    requires DiskShows(cfg, d, kv)
    ensures var o := OpenEffect(cfg, Abstract(d));
            o.outcome == Done && RunningOn(cfg, DiskRun(d, o.ops), o.engine, kv)
  {
    hide Disciplined, Abstract, OpenEffect, Running, SafeRun, FsRun, LegalRun, SettledFs, DiskRun, ImageMeans, WellFormed, Accepts;
    var img :| Abstract(d) == SettledFs(img) && ImageMeans(cfg, img, kv);
    var ok := Either(cfg, Drop, kv, kv);
    EitherAccepts(cfg, Drop, kv, kv);
    var img', o' := OpenSafe(cfg, img, kv, ok);
    var o := OpenEffect(cfg, Abstract(d));
    SafeRunLegal(Abstract(d), o.ops, ok);
    RunRefines(d, o.ops);
  }

  /** A completed call leaves the engine running with the call applied. */
  lemma CallRuns(cfg: Config, d: Disk, e: Engine, kv: KV, call: Call)
    requires Sane(cfg) && RunningOn(cfg, d, e, kv) && CallFits(cfg, e, call)
    ensures var c := CallEffect(cfg, e, call);
      && c.outcome in {Done, Collision} && Disciplined(DiskRun(d, c.ops))
      && RunningOn(cfg, DiskRun(d, c.ops), c.engine, CallApplied(kv, call))
  {
    hide Disciplined, Abstract, CallEffect, Running, SafeRun, FsRun, LegalRun, SettledFs, DiskRun, WellFormed, Accepts, CallNoticed,
      CallApplied;
    var img, o :| Running(cfg, e, img, o, kv);
    var kv' := CallApplied(kv, call);
    var ok := Either(cfg, Drop, kv, kv');
    EitherAccepts(cfg, Drop, kv, kv');
    NothingToNotice(cfg, e, call);
    var img', o' := CallSafe(cfg, e, img, o, kv, call, ok);
    var c := CallEffect(cfg, e, call);
    SafeRunLegal(e.fs, c.ops, ok);
    RunRefines(d, c.ops);
  }

  lemma {:induction false} CallsRuns(cfg: Config, d: Disk, e: Engine, kv: KV, calls: seq<Call>)
    requires Sane(cfg) && RunningOn(cfg, d, e, kv) && CallsFit(cfg, e, calls)
    ensures WellFormed(d) && WellFormed(DiskRun(d, CallsOps(cfg, e, calls)))
    ensures RunningOn(cfg, DiskRun(d, CallsOps(cfg, e, calls)), CallsRun(cfg, e, calls), CallsApplied(kv, calls))
    decreases |calls|
  {
    hide Abstract, CallEffect, Running, SafeRun, FsRun, LegalRun, SettledFs, WellFormed, CallFits, CallApplied, RunningOn, Step;
    assert Disciplined(d) by { OnDisciplined(cfg, d, e, kv); }
    if calls != [] {
      var c := CallEffect(cfg, e, calls[0]);
      CallRuns(cfg, d, e, kv, calls[0]);
      CallsRuns(cfg, DiskRun(d, c.ops), c.engine, CallApplied(kv, calls[0]), calls[1..]);
      DiskRunConcat(d, c.ops, CallsOps(cfg, c.engine, calls[1..]));
    }
  }

  lemma OnDisciplined(cfg: Config, d: Disk, e: Engine, kv: KV)
    requires RunningOn(cfg, d, e, kv)
    ensures Disciplined(d) && WellFormed(d)
  {
  }

  lemma {:induction false} DiskRunConcat(d: Disk, a: seq<Op>, b: seq<Op>)
    requires WellFormed(d)
    ensures DiskRun(d, a + b) == DiskRun(DiskRun(d, a), b)
    decreases |a|
  {
    hide Step, WellFormed;
    if a == [] {
      assert a + b == b;
    } else {
      assert (a + b)[1..] == a[1..] + b;
      DiskRunConcat(Step(d, a[0]), a[1..], b);
    }
  }

  // ------------------------------------------------------------------- theorems

  /** Crash safety of one period: the disk shows the completed calls, or those and the interrupted one. */
  lemma EventSafe(cfg: Config, d: Disk, kv: KV, ev: Event) returns (took: bool)
    requires Sane(cfg) && DiskShows(cfg, d, kv) && EventOk(cfg, d, ev)
    ensures DiskShows(cfg, AfterEvent(cfg, d, ev), EventApplied(kv, ev, took))
    ensures took ==> ev.Session? && ev.cut > 0
  {
    hide Abstract, OpenEffect, CallEffect, WellFormed, CrashAllowed, Disciplined, Crash, DiskRun, CallApplied, CallsApplied, ImageMeans,
      CallsOps, CallsRun, RunningOn, CallFits, CallsFit, DiskShows;
    match ev
    case Opening(cut, target, tear) =>
      CutOpening(cfg, d, kv, cut, target, tear);
      took := false;
    case Session(calls, last, cut, target, tear) =>
      var o := OpenEffect(cfg, Abstract(d));
      OpenRuns(cfg, d, kv);
      ShownWellFormed(cfg, d, kv);
      var d1 := DiskRun(d, o.ops);
      CallsRuns(cfg, d1, o.engine, kv, calls);
      var e := CallsRun(cfg, o.engine, calls);
      var more := CallsOps(cfg, o.engine, calls);
      var rest := CallEffect(cfg, e, last).ops[..cut];
      DiskRunConcat(d, o.ops + more, rest);
      DiskRunConcat(d, o.ops, more);
      took := CutCall(cfg, DiskRun(d1, more), e, CallsApplied(kv, calls), last, cut, target, tear);
  }

  lemma ShownWellFormed(cfg: Config, d: Disk, kv: KV)
    requires DiskShows(cfg, d, kv)
    ensures WellFormed(d)
  {
  }

  lemma CutOpening(cfg: Config, d: Disk, kv: KV, cut: nat, target: Option<nat>, tear: Tear)
    requires DiskShows(cfg, d, kv) && WellFormed(d) && cut <= |OpenEffect(cfg, Abstract(d)).ops|
    requires CrashAllowed(DiskRun(d, OpenEffect(cfg, Abstract(d)).ops[..cut]), target, tear)
    ensures DiskShows(cfg, Crash(DiskRun(d, OpenEffect(cfg, Abstract(d)).ops[..cut]), target, tear), kv)
  {
    hide Disciplined, Abstract, OpenEffect, Running, SafeRun, FsRun, SettledFs, DiskRun, ImageMeans, WellFormed, Accepts, Crash, CrashAllowed;
    var img :| Abstract(d) == SettledFs(img) && ImageMeans(cfg, img, kv);
    var ok := Either(cfg, tear, kv, kv);
    EitherAccepts(cfg, tear, kv, kv);
    var img', o' := OpenSafe(cfg, img, kv, ok);
    var left := CutAndCrash(d, OpenEffect(cfg, Abstract(d)).ops, cut, target, tear, ok);
  }

  lemma CutCall(cfg: Config, d: Disk, e: Engine, kv: KV, call: Call, cut: nat, target: Option<nat>, tear: Tear)
    returns (took: bool)
    requires Sane(cfg) && RunningOn(cfg, d, e, kv) && CallFits(cfg, e, call) && CallNoticed(cfg, e, call, tear)
    requires cut <= |CallEffect(cfg, e, call).ops|
    requires WellFormed(d) && CrashAllowed(DiskRun(d, CallEffect(cfg, e, call).ops[..cut]), target, tear)
    ensures DiskShows(cfg, Crash(DiskRun(d, CallEffect(cfg, e, call).ops[..cut]), target, tear),
                      if took then CallApplied(kv, call) else kv)
    ensures took ==> cut > 0
  {
    hide Disciplined, Abstract, CallEffect, Running, SafeRun, FsRun, SettledFs, DiskRun, ImageMeans, WellFormed, Accepts, Crash,
      CrashAllowed, CallNoticed, CallApplied;
    var img, o :| Running(cfg, e, img, o, kv);
    var ok := Either(cfg, tear, kv, CallApplied(kv, call));
    EitherAccepts(cfg, tear, kv, CallApplied(kv, call));
    var img', o' := CallSafe(cfg, e, img, o, kv, call, ok);
    if cut == 0 {
      took := false;
      EitherAccepts(cfg, tear, kv, kv);
      RunningCrashSafe(cfg, e, img, o, kv, Either(cfg, tear, kv, kv));
      NothingRuns(e.fs, Either(cfg, tear, kv, kv));
      assert CallEffect(cfg, e, call).ops[..cut] == [][..cut];
      var left := CutAndCrash(d, [], cut, target, tear, Either(cfg, tear, kv, kv));
    } else {
      var left := CutAndCrash(d, CallEffect(cfg, e, call).ops, cut, target, tear, ok);
      took := !ImageMeans(cfg, left, kv);
    }
  }

  /** No power loss is left out: the open and the calls may be cut after any number of the operations of the last one, and
      the disk be crashed there in any way it can be, a flipped bit that goes unnoticed aside; and what is left is what
      that crash leaves. */
  lemma EveryPowerLoss(cfg: Config, d: Disk, calls: seq<Call>, last: Call, cut: nat, target: Option<nat>, tear: Tear)
    requires Sane(cfg) && WellFormed(d) && CallsFit(cfg, OpenEffect(cfg, Abstract(d)).engine, calls)
    requires var o := OpenEffect(cfg, Abstract(d));
      var f := CallEffect(cfg, CallsRun(cfg, o.engine, calls), last);
      && f.outcome != OutOfRange && cut <= |f.ops|
      && (tear.BitFlip? ==> CallNoticed(cfg, CallsRun(cfg, o.engine, calls), last, tear))
      && CrashAllowed(DiskRun(d, o.ops + CallsOps(cfg, o.engine, calls) + f.ops[..cut]), target, tear)
    ensures EventOk(cfg, d, Session(calls, last, cut, target, tear))
    ensures var o := OpenEffect(cfg, Abstract(d));
      AfterEvent(cfg, d, Session(calls, last, cut, target, tear))
      == Crash(DiskRun(d, o.ops + CallsOps(cfg, o.engine, calls) + CallEffect(cfg, CallsRun(cfg, o.engine, calls), last).ops[..cut]), target, tear)
  {
    hide OpenEffect, CallEffect, DiskRun, CrashAllowed, Crash, WellFormed, Abstract;
  }

  /** Nor while opening. */
  lemma EveryPowerLossOnOpening(cfg: Config, d: Disk, cut: nat, target: Option<nat>, tear: Tear)
    requires Sane(cfg) && WellFormed(d) && cut <= |OpenEffect(cfg, Abstract(d)).ops|
    requires CrashAllowed(DiskRun(d, OpenEffect(cfg, Abstract(d)).ops[..cut]), target, tear)
    ensures EventOk(cfg, d, Opening(cut, target, tear))
    ensures AfterEvent(cfg, d, Opening(cut, target, tear)) == Crash(DiskRun(d, OpenEffect(cfg, Abstract(d)).ops[..cut]), target, tear)
  {
    hide OpenEffect, DiskRun, CrashAllowed, Crash, WellFormed, Abstract;
  }

  // --------------------------------------------------------------- whole lives

  ghost predicate LifeOk(cfg: Config, d: Disk, life: seq<Event>)
    requires Sane(cfg)
    decreases |life|
  {
    life == [] || (EventOk(cfg, d, life[0]) && LifeOk(cfg, AfterEvent(cfg, d, life[0]), life[1..]))
  }

  ghost function AfterLife(cfg: Config, d: Disk, life: seq<Event>): Disk
    requires Sane(cfg) && LifeOk(cfg, d, life)
    decreases |life|
  {
    if life == [] then d else AfterLife(cfg, AfterEvent(cfg, d, life[0]), life[1..])
  }

  function LifeApplied(kv: KV, life: seq<Event>, took: seq<bool>): KV
    requires |took| == |life|
    decreases |life|
  {
    if life == [] then kv else LifeApplied(EventApplied(kv, life[0], took[0]), life[1..], took[1..])
  }

  lemma {:induction false} LifeFrom(cfg: Config, d: Disk, kv: KV, life: seq<Event>) returns (took: seq<bool>)
    requires Sane(cfg) && DiskShows(cfg, d, kv) && LifeOk(cfg, d, life)
    ensures |took| == |life| && DiskShows(cfg, AfterLife(cfg, d, life), LifeApplied(kv, life, took))
    ensures forall i :: 0 <= i < |life| && took[i] ==> life[i].Session? && life[i].cut > 0
    decreases |life|
  {
    hide DiskShows, EventOk, AfterEvent, EventApplied;
    if life == [] {
      took := [];
    } else {
      var t := EventSafe(cfg, d, kv, life[0]);
      var ts := LifeFrom(cfg, AfterEvent(cfg, d, life[0]), EventApplied(kv, life[0], t), life[1..]);
      took := [t] + ts;
      assert took[1..] == ts;
    }
  }

  lemma FreshDiskShows(cfg: Config)
    ensures DiskShows(cfg, EMPTY_DISK, map[])
  {
    EmptyDiskAbstracts();
    var img: Image := map[];
    assert EMPTY_FS == SettledFs(img);
    assert ImageMeans(cfg, img, map[]);
  }

  /** A table the version names is there in full: the file opens, yields sorted entries, and they are the ones its
      metadata describes. */
  ghost predicate Intact(c: Codec, fs: Fs, t: TableMeta) {
    match ReadTable(c, fs, t.id)
    case None => false
    case Some((es, n)) => es != [] && Sorted(es) && n == |es| && t == MetaOf(t.id, es)
  }

  /** The manifest decodes, and every table its version names is there in full, under an id of its own. */
  ghost predicate AllIntact(cfg: Config, fs: Fs) {
    && ManifestFile in fs.live && ManifestRead(cfg, fs).Some?
    && var v := ManifestRead(cfg, fs).value;
       var ts := NewestFirst(v.tiers);
       (forall i :: 0 <= i < |ts| ==> Intact(cfg.codec, fs, ts[i]) && ts[i].id < v.nextTableId)
       && (forall i, j :: 0 <= i < j < |ts| ==> ts[i].id != ts[j].id)
  }

  /** The manifest switch is atomic: whenever power was lost, however often, the disk holds no file at all, or a
      manifest that decodes to a version whose tables are all there in full. */
  lemma TablesIntact(cfg: Config, life: seq<Event>)
    requires cfg.fanout >= 2 && LifeOk(cfg, EMPTY_DISK, life)
    ensures var fs := Abstract(AfterLife(cfg, EMPTY_DISK, life)); fs.live == map[] || AllIntact(cfg, fs)
  {
    hide AfterLife, LifeApplied, Abstract, LifeOk, ImageMeans, AllIntact;
    FreshDiskShows(cfg);
    var took := LifeFrom(cfg, EMPTY_DISK, map[], life);
    var d, kv := AfterLife(cfg, EMPTY_DISK, life), LifeApplied(map[], life, took);
    var img :| Abstract(d) == SettledFs(img) && ImageMeans(cfg, img, kv);
    if img != map[] {
      var o := MeansDisk(cfg, img, kv);
      NamedAreIntact(cfg, img, o);
    }
  }

  lemma MeansDisk(cfg: Config, img: Image, kv: KV) returns (o: OnDisk)
    requires ImageMeans(cfg, img, kv) && img != map[]
    ensures Stored(cfg, img, o)
  {
    hide Stored;
    o :| DiskMeans(cfg, img, o, kv);
  }

  lemma NamedAreIntact(cfg: Config, img: Image, o: OnDisk)
    requires Stored(cfg, img, o)
    ensures AllIntact(cfg, SettledFs(img))
  {
    hide WalModel.LogIn, ReadTable, EncodeVersion, DecodeVersion, VersionFits, Below, NewestFirst;
    ManifestFormat.VersionRoundTrip(cfg.codec.crc, o.version);
    SettledBytes(img, ManifestFile);
    var ts := TableOrder(o);
    forall i | 0 <= i < |ts|
      ensures Intact(cfg.codec, SettledFs(img), ts[i])
    {
      assert TableHeld(cfg.codec, img, o.tabs, ts[i]);
      ReadTableHeld(cfg.codec, img, o.tabs, ts[i]);
    }
  }

  /** Reopening reads back a map exactly, by lookup and by scan. */
  ghost predicate ReadsAs(cfg: Config, e: Engine, kv: KV) {
    && (forall k :: GetOf(cfg, e, k) == Some(ValueIn(kv, k)))
    && (forall lo, hi :: ScanReads(cfg, e, lo, hi, kv))
  }

  ghost predicate ScanReads(cfg: Config, e: Engine, lo: Bound, hi: Bound, kv: KV) {
    match ScanOf(cfg, e, lo, hi)
    case None => false
    case Some(r) =>
      && (forall i, j :: 0 <= i < j < |r| ==> Less(r[i].0, r[j].0))
      && (forall k, b :: (k, b) in r <==>
            && (lo.Included? ==> k == lo.key || Less(lo.key, k)) && (lo.Excluded? ==> Less(lo.key, k))
            && (hi.Included? ==> k == hi.key || Less(k, hi.key)) && (hi.Excluded? ==> Less(k, hi.key))
            && k in kv && kv[k] == b)
  }

  lemma RunningReads(cfg: Config, d: Disk, e: Engine, kv: KV)
    requires RunningOn(cfg, d, e, kv)
    ensures ReadsAs(cfg, e, kv)
  {
    hide Running, GetOf, ScanOf;
    var img, o :| Running(cfg, e, img, o, kv);
    forall k
      ensures GetOf(cfg, e, k) == Some(ValueIn(kv, k))
    {
      GetCorrect(cfg, e, img, o, kv, k);
    }
    forall lo, hi
      ensures ScanReads(cfg, e, lo, hi, kv)
    {
      ScanOfCorrect(cfg, e, img, o, kv, lo, hi);
    }
  }

  /** Whole-engine crash safety: from an empty disk, through any number of sessions each ended by a power
      loss at any storage operation with any tear, reopening succeeds and reads back exactly the
      completed calls of every session, each followed by its one interrupted call or not. A call that
      had not yet issued an operation has no effect. */
  lemma CrashSafety(cfg: Config, life: seq<Event>) returns (took: seq<bool>)
    requires cfg.fanout >= 2 && LifeOk(cfg, EMPTY_DISK, life)
    ensures |took| == |life| && forall i :: 0 <= i < |life| && took[i] ==> life[i].Session? && life[i].cut > 0
    ensures var o := OpenEffect(cfg, Abstract(AfterLife(cfg, EMPTY_DISK, life)));
            o.outcome == Done && ReadsAs(cfg, o.engine, LifeApplied(map[], life, took))
  {
    hide DiskShows, OpenEffect, AfterLife, LifeApplied, Abstract, ReadsAs, LifeOk;
    FreshDiskShows(cfg);
    took := LifeFrom(cfg, EMPTY_DISK, map[], life);
    var d := AfterLife(cfg, EMPTY_DISK, life);
    OpenRuns(cfg, d, LifeApplied(map[], life, took));
    var o := OpenEffect(cfg, Abstract(d));
    assert WellFormed(d) by { ShownWellFormed(cfg, d, LifeApplied(map[], life, took)); }
    RunningReads(cfg, DiskRun(d, o.ops), o.engine, LifeApplied(map[], life, took));
  }
}
