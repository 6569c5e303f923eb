// Every call, and opening the engine, at every crash point.

module EngineSafety {
  import opened Wrappers
  import opened ByteStrings
  import opened Seqs
  import opened Versions
  import opened Sim
  import opened FsView
  import opened Protocols
  import opened RecordFormat
  import opened WalModel
  import opened LsmVersion
  import opened Meaning
  import opened EngineModel
  import opened EngineState
  import opened LogSafety
  import opened TableSafety
  import opened CompactionSafety

  // ------------------------------------------------------------------ flush

  lemma FreezeKeeps(cfg: Config, e: Engine, img: Image, d: OnDisk, kv: KV)
    requires Running(cfg, e, img, d, kv)
    ensures Running(cfg, Freeze(e), img, d, kv)
    ensures Freeze(e).active == map[] && Freeze(e).fs == e.fs && Freeze(e).version == e.version
  {
    hide Sound, Stored, LogOpen, AllBelow, TablesOf, LoggedOf, SettledFs, Reversed;
    if e.active != map[] {
      var f := Freeze(e);
      ReversedConcat(e.frozen, [e.active]);
      ReversedOne(e.active);
      assert MemorySources(f) == [map[]] + MemorySources(e);
      EmptyOnTop(StackOf(e, d), kv);
      var m, t := MemorySources(e), TablesOf(d);
      assert MemorySources(f) + t == [map[]] + (m + t);
      EmptyBelow(m + t, e.nextSeq);
      LogOpenElsewhere(cfg, e, img, f, img, d.log);
    }
  }

  lemma EmptyBelow(s: seq<Source>, n: nat)
    requires Below(s, n)
    ensures Below([map[]] + s, n)
  {
    forall i | 0 <= i < |[map[]] + s|
      ensures AllBelow(([map[]] + s)[i], n)
    {
      if i > 0 { assert AllBelow(s[i - 1], n); }
    }
  }

  lemma StrayFewer(img: Image, img': Image, v: Version)
    requires NoStray(img, v) && forall n :: n in img' && n.Table? ==> n in img
    ensures NoStray(img', v)
  {
  }

  /** `flush` at every crash point: the disk means what it meant. It is refused only by a stray table file. */
  lemma FlushSafe(cfg: Config, e: Engine, img: Image, d: OnDisk, kv: KV, ok: Goal)
    returns (img': Image, d': OnDisk)
    requires Sane(cfg) && Running(cfg, e, img, d, kv) && Accepts(cfg, ok, kv)
    requires FlushEffect(cfg, e).outcome != OutOfRange
    ensures var f := FlushEffect(cfg, e); f.outcome in {Done, Collision} && Safe(e.fs, f, ok)
    ensures Running(cfg, FlushEffect(cfg, e).engine, img', d', kv)
    ensures FlushEffect(cfg, e).outcome == Done ==> Quiet(FlushEffect(cfg, e).engine, d')
    ensures FlushEffect(cfg, e).outcome == Done ==> FullTier(FlushEffect(cfg, e).engine.version, cfg.fanout).None?
    ensures NoStray(img, e.version) ==> FlushEffect(cfg, e).outcome == Done && NoStray(img', d'.version)
  {
    hide Running, SafeRun, FsRun, FlushFrozen, Accepts, Reset, Cascade, FullTier, Freeze, LoggedOf, NoStray;
    FreezeKeeps(cfg, e, img, d, kv);
    var f := FlushFrozen(cfg, Freeze(e));
    var img1, d1 := FlushFrozenSafe(cfg, Freeze(e), img, d, kv, ok);
    if f.outcome != Done {
      img', d' := img1, d1;
    } else {
      var r := Reset(f.engine);
      RunningVersion(cfg, f.engine, img1, d1, kv);
      ResetKeeps(f.engine);
      var img2, d2 := ResetSafe(cfg, f.engine, img1, d1, kv, ok);
      RunningVersion(cfg, r.engine, img2, d2, kv);
      if NoStray(img, e.version) { StrayFewer(img1, img2, r.engine.version); }
      img', d' := CascadeSafe(cfg, r.engine, img2, d2, kv, ok);
      SequelSafe(f.engine.fs, r, Cascade(cfg, r.engine), ok);
      SequelSafe(e.fs, f, Sequel(r, Cascade(cfg, r.engine)), ok);
    }
  }

  lemma ResetKeeps(e: Engine)
    ensures Reset(e).outcome == Done
    ensures Reset(e).engine.active == e.active && Reset(e).engine.frozen == e.frozen && Reset(e).engine.version == e.version
  {
  }

  // ------------------------------------------------------------------ writes

  function Written(e: Engine, key: Bytes, kind: ValueKind): Record { Record(key, InternalValue(e.nextSeq, kind)) }

  /** If the tear hits the frame of this write, it does not turn it into another frame. */
  predicate WriteNoticed(cfg: Config, e: Engine, key: Bytes, kind: ValueKind, tear: Tear) {
    TearNoticed(cfg.codec.crc, EncodeRecord(Written(e, key, kind)), tear)
  }

  /** `put` and `delete` at every crash point: the disk means the map before or after the write;
      once the call returns, the map after it. A refused flush does not undo the write. */
  lemma WriteSafe(cfg: Config, e: Engine, img: Image, d: OnDisk, kv: KV, key: Bytes, kind: ValueKind, ok: Goal)
    returns (img': Image, d': OnDisk)
    requires Sane(cfg) && Running(cfg, e, img, d, kv)
    requires Accepts(cfg, ok, kv) && Accepts(cfg, ok, Applied(kv, key, kind))
    requires WriteEffect(cfg, e, key, kind).outcome != OutOfRange && WriteNoticed(cfg, e, key, kind, ok.tear)
    ensures var w := WriteEffect(cfg, e, key, kind); w.outcome in {Done, Collision} && Safe(e.fs, w, ok)
    ensures Running(cfg, WriteEffect(cfg, e, key, kind).engine, img', d', Applied(kv, key, kind))
    ensures NoStray(img, e.version) ==> WriteEffect(cfg, e, key, kind).outcome == Done && NoStray(img', d'.version)
  {
    hide Running, SafeRun, FsRun, Accepts, FlushEffect, Logged, InsertIfNewer, EncodeRecord, RecordFits, TearNoticed, Weight, Applied,
      NoStray;
    var r := Written(e, key, kind);
    var a := Logged(cfg, e.(nextSeq := e.nextSeq + 1), EncodeRecord(r));
    var img1, d1 := AppendSafe(cfg, e, img, d, kv, r, ok);
    var e1 := a.engine.(active := InsertIfNewer(a.engine.active, key, r.value));
    RunningVersion(cfg, e1, img1, d1, Applied(kv, key, kind));
    if NoStray(img, e.version) { StrayFewer(img, img1, e.version); }
    if Weight(e1.active) >= cfg.memtableSize {
      img', d' := FlushSafe(cfg, e1, img1, d1, Applied(kv, key, kind), ok);
      SequelSafe(e.fs, a, FlushEffect(cfg, e1), ok);
    } else {
      img', d' := img1, d1;
    }
  }

  // ------------------------------------------------------------------- calls

  /** The map a call makes of `kv`. */
  function CallApplied(kv: KV, call: Call): KV {
    match call
    case Put(k, v) => kv[k := v]
    case Delete(k) => kv - {k}
    case Flush => kv
  }

  predicate CallNoticed(cfg: Config, e: Engine, call: Call, tear: Tear) {
    match call
    case Put(k, v) => WriteNoticed(cfg, e, k, Value(v), tear)
    case Delete(k) => WriteNoticed(cfg, e, k, Tombstone, tear)
    case Flush => true
  }

  /** A frame that is lost altogether is not taken for another one. */
  lemma NothingToNotice(cfg: Config, e: Engine, call: Call)
    ensures CallNoticed(cfg, e, call, Drop)
  {
  }

  /** Crash safety of one call. */
  lemma CallSafe(cfg: Config, e: Engine, img: Image, d: OnDisk, kv: KV, call: Call, ok: Goal)
    returns (img': Image, d': OnDisk)
    requires Sane(cfg) && Running(cfg, e, img, d, kv)
    requires Accepts(cfg, ok, kv) && Accepts(cfg, ok, CallApplied(kv, call))
    requires CallEffect(cfg, e, call).outcome != OutOfRange && CallNoticed(cfg, e, call, ok.tear)
    ensures var c := CallEffect(cfg, e, call); c.outcome in {Done, Collision} && Safe(e.fs, c, ok)
    ensures Running(cfg, CallEffect(cfg, e, call).engine, img', d', CallApplied(kv, call))
    ensures NoStray(img, e.version) ==> CallEffect(cfg, e, call).outcome == Done && NoStray(img', d'.version)
  {
    hide Running, Accepts, FlushEffect, WriteEffect, WriteNoticed, Safe;
    match call
    case Put(k, v) => img', d' := WriteSafe(cfg, e, img, d, kv, k, Value(v), ok);
    case Delete(k) => img', d' := WriteSafe(cfg, e, img, d, kv, k, Tombstone, ok);
    case Flush => img', d' := FlushSafe(cfg, e, img, d, kv, ok);
  }
}
