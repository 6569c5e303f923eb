// The manifest's versions: which tables exist, in which tier, and how a flush and a
// compaction derive one version from another.

module LsmVersion {
  import opened Wrappers
  import opened ByteStrings
  import opened Numbers
  import opened Seqs

  datatype TableMeta = TableMeta(id: nat, numEntries: nat, firstKey: Bytes, lastKey: Bytes)

  predicate KeyInRange(t: TableMeta, key: Bytes) {
    AtMost(t.firstKey, key) && AtMost(key, t.lastKey)
  }

  type Tiers = seq<seq<TableMeta>>

  /** Tables grouped by tier, tier 0 youngest; within a tier, oldest first. */
  datatype Version = Version(tiers: Tiers, nextSeq: nat, nextTableId: nat)

  const EMPTY_VERSION := Version([], 1, 1)

  function AllTables(v: Version): seq<TableMeta> { Flatten(v.tiers) }

  function ReferencedIds(v: Version): set<nat> { set t | t in AllTables(v) :: t.id }

  function TierLen(v: Version, t: nat): nat { if t < |v.tiers| then |v.tiers[t]| else 0 }

  /** `tables_newest_first`: youngest tier first, within a tier the latest added first. */
  function NewestFirst(tiers: Tiers): seq<TableMeta> {
    if tiers == [] then [] else Reversed(tiers[0]) + NewestFirst(tiers[1..])
  }

  function Flushed(v: Version, table: TableMeta, nextSeq: nat): Version {
    var tiers := if v.tiers == [] then [[]] else v.tiers;
    Version(tiers[0 := tiers[0] + [table]], Max(nextSeq, v.nextSeq), Max(v.nextTableId, table.id + 1))
  }

  /** Trim trailing empty tiers. */
  function Trimmed(tiers: Tiers): (r: Tiers)
    ensures |r| <= |tiers| && r == tiers[..|r|]
    ensures r == [] || r[|r| - 1] != []
    ensures forall i :: |r| <= i < |tiers| ==> tiers[i] == []
    decreases |tiers|
  {
    if tiers != [] && tiers[|tiers| - 1] == [] then Trimmed(tiers[..|tiers| - 1]) else tiers
  }

  /** Push empty tiers until there are more than `n`. */
  function Extended(tiers: Tiers, n: nat): (r: Tiers)
    ensures |r| == Max(|tiers|, n + 1) && tiers <= r
    ensures forall i :: |tiers| <= i < |r| ==> r[i] == []
    decreases n + 1 - |tiers|
  {
    if |tiers| <= n then Extended(tiers + [[]], n) else tiers
  }

  /** Tier `t` is emptied, and the output is put at the end of the next. */
  function Moved(tiers: Tiers, t: nat, output: TableMeta): Tiers
    requires t + 1 < |tiers|
  {
    tiers[t := []][t + 1 := tiers[t + 1] + [output]]
  }

  /** `compacted`: tier `t` is replaced by one table at the end of tier `t + 1`. */
  function Compacted(v: Version, t: nat, output: TableMeta): Version {
    var tiers := Extended(v.tiers, t + 1);
    v.(tiers := Trimmed(Moved(tiers, t, output)), nextTableId := Max(v.nextTableId, output.id + 1))
  }

  /** The branch for a merge that left nothing: tier `t` is simply cleared. */
  function Cleared(v: Version, t: nat): Version
    requires t < |v.tiers|
  {
    v.(tiers := Trimmed(v.tiers[t := []]))
  }

  /** `output_is_bottom`: nothing older lies below tier `t`. */
  predicate OutputIsBottom(v: Version, t: nat) {
    forall i :: t < i < |v.tiers| ==> TierLen(v, i) == 0
  }

  /** The youngest tier that has reached the fanout. */
  function FullTier(v: Version, fanout: nat): (r: Option<nat>)
    ensures match r
            case Some(t) => t < |v.tiers| && TierLen(v, t) >= fanout && forall i :: 0 <= i < t ==> TierLen(v, i) < fanout
            case None => forall i :: 0 <= i < |v.tiers| ==> TierLen(v, i) < fanout
  {
    FirstFull(v, fanout, 0)
  }

  function FirstFull(v: Version, fanout: nat, from: nat): (r: Option<nat>)
    requires from <= |v.tiers| && forall i :: 0 <= i < from ==> TierLen(v, i) < fanout
    ensures match r
            case Some(t) => t < |v.tiers| && TierLen(v, t) >= fanout && forall i :: 0 <= i < t ==> TierLen(v, i) < fanout
            case None => forall i :: 0 <= i < |v.tiers| ==> TierLen(v, i) < fanout
    decreases |v.tiers| - from
  {
    if from == |v.tiers| then None
    else if TierLen(v, from) >= fanout then Some(from)
    else FirstFull(v, fanout, from + 1)
  }

  /** The counters never go back, and the next table id is above every id given out. */
  lemma CountersGrow(v: Version, table: TableMeta, nextSeq: nat, t: nat)
    ensures var w := Flushed(v, table, nextSeq);
      w.nextSeq >= v.nextSeq && w.nextSeq >= nextSeq && w.nextTableId >= v.nextTableId && w.nextTableId > table.id
    ensures var w := Compacted(v, t, table); w.nextSeq == v.nextSeq && w.nextTableId >= v.nextTableId && w.nextTableId > table.id
    ensures t < |v.tiers| ==> Cleared(v, t).nextSeq == v.nextSeq && Cleared(v, t).nextTableId == v.nextTableId
  {
  }

  // ------------------------------------------------------- newest-first order

  lemma {:induction false} NewestConcat(a: Tiers, b: Tiers)
    ensures NewestFirst(a + b) == NewestFirst(a) + NewestFirst(b)
  {
    if a == [] {
      assert a + b == b;
    } else {
      assert (a + b)[1..] == a[1..] + b;
      NewestConcat(a[1..], b);
    }
  }

  lemma {:induction false} NewestOfEmpty(tiers: Tiers)
    requires forall i :: 0 <= i < |tiers| ==> tiers[i] == []
    ensures NewestFirst(tiers) == []
  {
    if tiers != [] { NewestOfEmpty(tiers[1..]); }
  }

  lemma NewestTrimmed(tiers: Tiers)
    ensures NewestFirst(Trimmed(tiers)) == NewestFirst(tiers)
  {
    var r := Trimmed(tiers);
    assert tiers == r + tiers[|r|..];
    NewestConcat(r, tiers[|r|..]);
    NewestOfEmpty(tiers[|r|..]);
  }

  lemma NewestCons(tier: seq<TableMeta>, rest: Tiers)
    ensures NewestFirst([tier] + rest) == Reversed(tier) + NewestFirst(rest)
  {
    hide Reversed;
    assert ([tier] + rest)[1..] == rest;
  }

  lemma NewestSplit(tiers: Tiers, t: nat)
    requires t < |tiers|
    ensures NewestFirst(tiers) == NewestFirst(tiers[..t]) + Reversed(tiers[t]) + NewestFirst(tiers[t + 1..])
  {
    hide NewestFirst, Reversed;
    var tail := [tiers[t]] + tiers[t + 1..];
    assert tiers == tiers[..t] + tail;
    NewestConcat(tiers[..t], tail);
    NewestCons(tiers[t], tiers[t + 1..]);
    var a, b, c := NewestFirst(tiers[..t]), Reversed(tiers[t]), NewestFirst(tiers[t + 1..]);
    assert a + (b + c) == a + b + c;
  }

  lemma {:induction false} NewestMembers(tiers: Tiers, x: TableMeta)
    ensures x in NewestFirst(tiers) <==> x in Flatten(tiers)
  {
    if tiers != [] {
      ReversedMembers(tiers[0]);
      NewestMembers(tiers[1..], x);
    }
  }

  /** A flushed table is looked at first, before every table that was there. */
  lemma FlushedOrder(v: Version, table: TableMeta, nextSeq: nat)
    ensures NewestFirst(Flushed(v, table, nextSeq).tiers) == [table] + NewestFirst(v.tiers)
  {
    var tiers := if v.tiers == [] then [[]] else v.tiers;
    var w := Flushed(v, table, nextSeq).tiers;
    ReplacedHead(w, tiers, table);
    assert NewestFirst(tiers) == NewestFirst(v.tiers);
  }

  /** Padding with empty tiers does not show in the lookup order. */
  lemma ExtendedOrder(tiers: Tiers, n: nat, from: nat)
    requires from <= |tiers|
    ensures NewestFirst(Extended(tiers, n)[from..]) == NewestFirst(tiers[from..])
  {
    hide NewestFirst;
    var e := Extended(tiers, n);
    assert e[from..] == tiers[from..] + e[|tiers|..];
    NewestConcat(tiers[from..], e[|tiers|..]);
    NewestOfEmpty(e[|tiers|..]);
  }

  /** Where tier `t` is empty, the order is what is above it followed by what is below it. */
  lemma NewestAround(w: Tiers, t: nat)
    requires t < |w| && w[t] == []
    ensures NewestFirst(w) == NewestFirst(w[..t]) + NewestFirst(w[t + 1..])
  {
    hide NewestFirst, Reversed;
    NewestSplit(w, t);
    ReversedNone<TableMeta>();
    assert NewestFirst(w[..t]) + [] == NewestFirst(w[..t]);
  }

  /** The compacted tier's tables form one block of the lookup order; the output takes exactly its place. */
  lemma CompactedOrder(v: Version, t: nat, output: TableMeta)
    requires t < |v.tiers|
    ensures NewestFirst(v.tiers)
         == NewestFirst(v.tiers[..t]) + Reversed(v.tiers[t]) + NewestFirst(v.tiers[t + 1..])
    ensures NewestFirst(Compacted(v, t, output).tiers)
         == NewestFirst(v.tiers[..t]) + [output] + NewestFirst(v.tiers[t + 1..])
  {
    hide NewestFirst, Reversed, Trimmed;
    NewestSplit(v.tiers, t);
    var tiers := Extended(v.tiers, t + 1);
    var w := tiers[t := []][t + 1 := tiers[t + 1] + [output]];
    NewestTrimmed(w);
    NewestAround(w, t);
    assert w[..t] == v.tiers[..t];
    ReplacedHead(w[t + 1..], tiers[t + 1..], output);
    ExtendedOrder(v.tiers, t + 1, t + 1);
    var a, c := NewestFirst(v.tiers[..t]), NewestFirst(v.tiers[t + 1..]);
    assert a + ([output] + c) == a + [output] + c;
  }

  lemma ReversedNone<T>()
    ensures Reversed<T>([]) == []
  {
  }

  /** Adding a table at the end of the first tier puts it first in the lookup order. */
  lemma ReplacedHead(w: Tiers, tiers: Tiers, output: TableMeta)
    requires tiers != [] && w == tiers[0 := tiers[0] + [output]]
    ensures NewestFirst(w) == [output] + NewestFirst(tiers)
  {
    hide NewestFirst, Reversed;
    var rest := tiers[1..];
    assert w == [tiers[0] + [output]] + rest && tiers == [tiers[0]] + rest;
    NewestCons(tiers[0] + [output], rest);
    NewestCons(tiers[0], rest);
    ReversedConcat(tiers[0], [output]);
    ReversedOne(output);
    assert ([output] + Reversed(tiers[0])) + NewestFirst(rest) == [output] + (Reversed(tiers[0]) + NewestFirst(rest));
  }

  lemma ClearedOrder(v: Version, t: nat)
    requires t < |v.tiers|
    ensures NewestFirst(Cleared(v, t).tiers) == NewestFirst(v.tiers[..t]) + NewestFirst(v.tiers[t + 1..])
  {
    hide NewestFirst, Trimmed;
    var w := v.tiers[t := []];
    NewestTrimmed(w);
    NewestAround(w, t);
    assert w[..t] == v.tiers[..t] && w[t + 1..] == v.tiers[t + 1..];
  }

  lemma BottomHasNothingBelow(v: Version, t: nat)
    requires t < |v.tiers| && OutputIsBottom(v, t)
    ensures NewestFirst(v.tiers[t + 1..]) == []
  {
    var below := v.tiers[t + 1..];
    forall i | 0 <= i < |below|
      ensures below[i] == []
    {
      assert TierLen(v, t + 1 + i) == 0;
    }
    NewestOfEmpty(below);
  }

  // ---------------------------------------------------------- tier arithmetic


  /** The number of flushed tables a tier layout stands for: a table of tier `t` counts `f^t`. */
  function Mass(tiers: Tiers, f: nat): nat
    decreases |tiers|
  {
    if tiers == [] then 0
    else Mass(tiers[..|tiers| - 1], f) + Times(|tiers[|tiers| - 1]|, Pow(f, |tiers| - 1))
  }

  function Count(tiers: Tiers): nat
    decreases |tiers|
  {
    if tiers == [] then 0 else Count(tiers[..|tiers| - 1]) + |tiers[|tiers| - 1]|
  }

  /** Every version the engine makes: no trailing empty tier. */
  predicate Compact(v: Version) { v.tiers == [] || v.tiers[|v.tiers| - 1] != [] }

  lemma {:induction false} MassUpdate(tiers: Tiers, f: nat, t: nat, tier: seq<TableMeta>)
    requires t < |tiers|
    ensures Mass(tiers[t := tier], f) == Mass(tiers, f) - Times(|tiers[t]|, Pow(f, t)) + Times(|tier|, Pow(f, t))
    ensures Count(tiers[t := tier]) == Count(tiers) - |tiers[t]| + |tier|
    decreases |tiers|
  {
    var n := |tiers| - 1;
    var w := tiers[t := tier];
    if t == n {
      assert w[..n] == tiers[..n];
    } else {
      assert w[..n] == tiers[..n][t := tier];
      MassUpdate(tiers[..n], f, t, tier);
    }
  }

  lemma {:induction false} MassExtended(tiers: Tiers, f: nat, n: nat)
    ensures Mass(Extended(tiers, n), f) == Mass(tiers, f) && Count(Extended(tiers, n)) == Count(tiers)
    decreases n + 1 - |tiers|
  {
    if |tiers| <= n {
      assert (tiers + [[]])[..|tiers|] == tiers;
      MassExtended(tiers + [[]], f, n);
    }
  }

  lemma {:induction false} MassTrimmed(tiers: Tiers, f: nat)
    ensures Mass(Trimmed(tiers), f) == Mass(tiers, f) && Count(Trimmed(tiers)) == Count(tiers)
    decreases |tiers|
  {
    if tiers != [] && tiers[|tiers| - 1] == [] { MassTrimmed(tiers[..|tiers| - 1], f); }
  }

  lemma FlushedMass(v: Version, table: TableMeta, nextSeq: nat, f: nat)
    requires Compact(v)
    ensures Compact(Flushed(v, table, nextSeq))
    ensures Mass(Flushed(v, table, nextSeq).tiers, f) == Mass(v.tiers, f) + 1
    ensures Count(Flushed(v, table, nextSeq).tiers) == Count(v.tiers) + 1
  {
    var tiers: Tiers := if v.tiers == [] then [[]] else v.tiers;
    MassUpdate(tiers, f, 0, tiers[0] + [table]);
    if v.tiers == [] { assert tiers[..0] == []; }
  }

  /** A compaction of a full tier loses tables, and never gains mass. */
  lemma CompactedMass(v: Version, t: nat, output: TableMeta, f: nat)
    requires t < |v.tiers| && |v.tiers[t]| >= f >= 2
    ensures Compact(Compacted(v, t, output))
    ensures Mass(Compacted(v, t, output).tiers, f) <= Mass(v.tiers, f)
    ensures Count(Compacted(v, t, output).tiers) < Count(v.tiers)
  {
    var tiers := Extended(v.tiers, t + 1);
    var moved := Moved(tiers, t, output);
    MassExtended(v.tiers, f, t + 1);
    assert tiers[t] == v.tiers[t];
    hide Pow, Mass, Count, Extended, Trimmed, Moved;
    MassTrimmed(moved, f);
    MovedMass(tiers, f, t, output);
  }

  lemma MovedMass(tiers: Tiers, f: nat, t: nat, output: TableMeta)
    requires t + 1 < |tiers| && |tiers[t]| >= f >= 2
    ensures Mass(Moved(tiers, t, output), f) <= Mass(tiers, f) && Count(Moved(tiers, t, output)) < Count(tiers)
  {
    hide Pow, Mass, Count, Times;
    var cleared, tier := tiers[t := []], tiers[t + 1] + [output];
    MassUpdate(tiers, f, t, []);
    MassUpdate(cleared, f, t + 1, tier);
    PowNext(f, t);
    MassMoved(|tiers[t]|, |tiers[t + 1]|, f, Pow(f, t), Pow(f, t + 1), Mass(tiers, f), Mass(cleared, f), Mass(cleared[t + 1 := tier], f));
  }

  lemma PowNext(f: nat, n: nat)
    ensures Pow(f, n + 1) == Times(f, Pow(f, n))
  {
  }

  /** `n` tables of weight `p` go and one of weight `q`, `f` times as much, comes. */
  lemma MassMoved(n: nat, m: nat, f: nat, p: nat, q: nat, before: nat, between: nat, after: nat)
    requires n >= f && q == Times(f, p)
    requires between == before - Times(n, p) + Times(0, p) && after == between - Times(m, q) + Times(m + 1, q)
    ensures after <= before
  {
    assert (m + 1) * q == m * q + q;
    AtLeastTimes(n, f, p);
  }

  lemma AtLeastTimes(n: nat, m: nat, p: nat)
    requires n >= m
    ensures n * p >= m * p
  {
  }

  lemma ClearedMass(v: Version, t: nat, f: nat)
    requires t < |v.tiers| && v.tiers[t] != []
    ensures Compact(Cleared(v, t))
    ensures Mass(Cleared(v, t).tiers, f) <= Mass(v.tiers, f)
    ensures Count(Cleared(v, t).tiers) < Count(v.tiers)
  {
    MassUpdate(v.tiers, f, t, []);
    MassTrimmed(v.tiers[t := []], f);
  }

  /** One step of a version's history. */
  datatype Change = Flush(table: TableMeta, nextSeq: nat) | Compaction(t: nat, output: Option<TableMeta>)

  predicate Allowed(v: Version, c: Change, f: nat) {
    c.Compaction? ==> FullTier(v, f) == Some(c.t)
  }

  function Changed(v: Version, c: Change, f: nat): Version
    requires Allowed(v, c, f)
  {
    match c
    case Flush(table, nextSeq) => Flushed(v, table, nextSeq)
    case Compaction(t, Some(output)) => Compacted(v, t, output)
    case Compaction(t, None) => Cleared(v, t)
  }

  predicate AllowedHistory(v: Version, cs: seq<Change>, f: nat)
    decreases |cs|
  {
    cs == [] || (Allowed(v, cs[0], f) && AllowedHistory(Changed(v, cs[0], f), cs[1..], f))
  }

  function After(v: Version, cs: seq<Change>, f: nat): Version
    requires AllowedHistory(v, cs, f)
    decreases |cs|
  {
    if cs == [] then v else After(Changed(v, cs[0], f), cs[1..], f)
  }

  function FlushCount(cs: seq<Change>): nat {
    if cs == [] then 0 else FlushCount(cs[1..]) + if cs[0].Flush? then 1 else 0
  }

  lemma {:induction false} HistoryMass(v: Version, cs: seq<Change>, f: nat)
    requires f >= 2 && AllowedHistory(v, cs, f) && Compact(v)
    ensures Compact(After(v, cs, f)) && Mass(After(v, cs, f).tiers, f) <= Mass(v.tiers, f) + FlushCount(cs)
    decreases |cs|
  {
    if cs != [] {
      match cs[0] {
        case Flush(table, nextSeq) => FlushedMass(v, table, nextSeq, f);
        case Compaction(t, Some(output)) => CompactedMass(v, t, output, f);
        case Compaction(t, None) => ClearedMass(v, t, f);
      }
      HistoryMass(Changed(v, cs[0], f), cs[1..], f);
    }
  }

  /** However flushes and compactions alternate, the tiers never stand for more tables than were
      flushed, so the number of tiers grows at most logarithmically. */
  lemma TierDepth(cs: seq<Change>, f: nat)
    requires f >= 2 && AllowedHistory(EMPTY_VERSION, cs, f)
    ensures var v := After(EMPTY_VERSION, cs, f);
      Mass(v.tiers, f) <= FlushCount(cs) && (v.tiers != [] ==> Pow(f, |v.tiers| - 1) <= FlushCount(cs))
  {
    HistoryMass(EMPTY_VERSION, cs, f);
    var v := After(EMPTY_VERSION, cs, f);
    if v.tiers != [] {
      var n, p := |v.tiers[|v.tiers| - 1]|, Pow(f, |v.tiers| - 1);
      AtLeastTimes(n, 1, p);
      assert v.tiers == v.tiers[..|v.tiers| - 1] + [v.tiers[|v.tiers| - 1]];
    }
  }

  /** The cascade ends: each compaction of a full tier leaves fewer tables, and when no tier is
      full every tier is below the fanout. A fanout below 2 breaks this: see `FanoutOneLoops`. */
  lemma CascadeStepShrinks(v: Version, c: Change, f: nat)
    requires f >= 2 && c.Compaction? && Allowed(v, c, f)
    ensures Count(Changed(v, c, f).tiers) < Count(v.tiers)
  {
    match c.output
    case Some(output) => CompactedMass(v, c.t, output, f);
    case None => ClearedMass(v, c.t, f);
  }

  /** With fanout 1 a lone table is compacted into a lone table one tier down, for ever. */
  lemma FanoutOneLoops(v: Version, output: TableMeta)
    requires Count(v.tiers) == 1 && Compact(v)
    ensures var t := |v.tiers| - 1;
      && FullTier(v, 1) == Some(t)
      && Count(Compacted(v, t, output).tiers) == 1 && Compact(Compacted(v, t, output))
  {
    hide Pow, Extended, Trimmed;
    var t := |v.tiers| - 1;
    forall i | 0 <= i < t
      ensures TierLen(v, i) == 0
    {
      CountAt(v.tiers[..t], i);
    }
    assert TierLen(v, t) >= 1;
    var tiers := Extended(v.tiers, t + 1);
    MassExtended(v.tiers, 1, t + 1);
    MassUpdate(tiers, 1, t, []);
    var cleared := tiers[t := []];
    MassUpdate(cleared, 1, t + 1, cleared[t + 1] + [output]);
    MassTrimmed(cleared[t + 1 := cleared[t + 1] + [output]], 1);
  }

  lemma {:induction false} CountAt(tiers: Tiers, i: nat)
    requires i < |tiers|
    ensures Count(tiers) >= |tiers[i]|
    decreases |tiers|
  {
    if i < |tiers| - 1 { CountAt(tiers[..|tiers| - 1], i); }
  }
}
