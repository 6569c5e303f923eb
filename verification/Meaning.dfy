// What a stack of in-memory tables, table files and log means as a key-value map,
// and why logging, freezing, flushing, releasing the log, compacting and recovering
// keep that meaning.

module Meaning {
  import opened Wrappers
  import opened ByteStrings
  import opened Versions
  import opened Sources

  /** The map a client believes it has. */
  type KV = map<Bytes, Bytes>

  function ValueIn(kv: KV, k: Bytes): Option<Bytes> { if k in kv then Some(kv[k]) else None }

  function Applied(kv: KV, k: Bytes, kind: ValueKind): KV {
    match kind
    case Value(b) => kv[k := b]
    case Tombstone => kv - {k}
  }

  ghost predicate Means(sources: seq<Source>, kv: KV) {
    forall k :: Visible(Lookup(sources, k)) == ValueIn(kv, k)
  }

  /** Every stored sequence number is below `n`. */
  ghost predicate Below(sources: seq<Source>, n: nat) {
    forall i :: 0 <= i < |sources| ==> AllBelow(sources[i], n)
  }

  ghost predicate AllBelow(m: Source, n: nat) { forall k :: k in m ==> m[k].stamp < n }

  /** `memory` newest first, `tables` newest first, and what replaying the log would give. */
  datatype Stack = Stack(memory: seq<Source>, tables: seq<Source>, logged: Source)

  /** Recency; the meaning; what the log replays is what a reader sees; and whatever is only in memory is in the log. */
  ghost predicate Sound(s: Stack, kv: KV) {
    && Recent(s.memory + s.tables)
    && Means(s.memory + s.tables, kv)
    && LogShows(s)
    && MemoryLogged(s)
  }

  ghost predicate LogShows(s: Stack) {
    forall k :: k in s.logged ==> Lookup(s.memory + s.tables, k) == Some(s.logged[k])
  }

  ghost predicate MemoryLogged(s: Stack) {
    forall i :: 0 <= i < |s.memory| ==> s.memory[i].Keys <= s.logged.Keys
  }

  lemma LookupInFirst(m: Source, rest: seq<Source>, k: Bytes)
    ensures Lookup([m] + rest, k) == if k in m then Some(m[k]) else Lookup(rest, k)
  {
    assert ([m] + rest)[1..] == rest;
  }

  /** The hit of a lookup supersedes every older version. */
  lemma HitSupersedes(sources: seq<Source>, k: Bytes, j: nat)
    requires Recent(sources) && j < |sources| && k in sources[j]
    ensures Lookup(sources, k).Some? && Supersedes(Lookup(sources, k).value, sources[j][k])
  {
    LookupMiss(sources, k);
    var i := LookupHit(sources, k);
    if i < j { assert Over(sources[i], sources[j]); }
  }

  /** Recovery: with memory lost, replaying the log over the same tables means the same. */
  lemma MemoryLost(s: Stack, kv: KV)
    requires Sound(s, kv)
    ensures Sound(Stack([s.logged], s.tables, s.logged), kv)
  {
    var all, again := s.memory + s.tables, [s.logged] + s.tables;
    forall k
      ensures Lookup(again, k) == Lookup(all, k)
    {
      LookupInFirst(s.logged, s.tables, k);
      LookupConcat(s.memory, s.tables, k);
      LookupMiss(s.memory, k);
    }
    forall k
      ensures Visible(Lookup(again, k)) == ValueIn(kv, k)
    {
      assert Visible(Lookup(all, k)) == ValueIn(kv, k);
    }
    forall j | 0 <= j < |s.tables|
      ensures Over(s.logged, s.tables[j])
    {
      forall k | k in s.logged && k in s.tables[j]
        ensures Supersedes(s.logged[k], s.tables[j][k])
      {
        assert all[|s.memory| + j] == s.tables[j];
        HitSupersedes(all, k, |s.memory| + j);
      }
    }
    BlockRecent(s.memory, s.tables, []);
    assert s.memory + s.tables + [] == all;
    assert Recent([s.logged]);
    RecentConcat([s.logged], s.tables);
  }

  function WrittenTo(s: Stack, k: Bytes, v: InternalValue): Stack
    requires s.memory != []
  {
    Stack([InsertIfNewer(s.memory[0], k, v)] + s.memory[1..], s.tables, InsertIfNewer(s.logged, k, v))
  }

  /** A write with a fresh sequence number: logged and applied, it is what readers see from now on. */
  lemma Written(s: Stack, kv: KV, k: Bytes, v: InternalValue)
    requires Sound(s, kv) && s.memory != []
    requires Below(s.memory + s.tables, v.stamp) && AllBelow(s.logged, v.stamp)
    ensures Sound(WrittenTo(s, k, v), Applied(kv, k, v.kind))
    ensures Below(WrittenTo(s, k, v).memory + s.tables, v.stamp + 1)
    ensures AllBelow(WrittenTo(s, k, v).logged, v.stamp + 1)
  {
    var s' := WrittenTo(s, k, v);
    var rest := s.memory[1..] + s.tables;
    assert s.memory + s.tables == [s.memory[0]] + rest && s'.memory + s'.tables == [s'.memory[0]] + rest;
    assert ([s.memory[0]] + rest)[0] == s.memory[0];
    assert AllBelow(s.memory[0], v.stamp);
    assert s'.memory[0] == s.memory[0][k := v];
    assert s'.logged == s.logged[k := v];
    hide WrittenTo, AllBelow, Applied, Recent, Lookup, Below;
    OnTopSeen(s.memory[0], rest, kv, k, v);
    OnTopRecent(s.memory[0], rest, k, v);
    forall i | 0 <= i < |s'.memory|
      ensures s'.memory[i].Keys <= s'.logged.Keys
    {
      assert s.memory[i].Keys <= s.logged.Keys;
    }
    AllBelowMore(s.logged, k, v);
  }

  lemma AllBelowMore(m: Source, k: Bytes, v: InternalValue)
    requires AllBelow(m, v.stamp)
    ensures AllBelow(m[k := v], v.stamp + 1)
  {
  }

  lemma OnTopSeen(m: Source, rest: seq<Source>, kv: KV, k: Bytes, v: InternalValue)
    requires Means([m] + rest, kv)
    ensures Means([m[k := v]] + rest, Applied(kv, k, v.kind))
    ensures forall j :: Lookup([m[k := v]] + rest, j) == if j == k then Some(v) else Lookup([m] + rest, j)
  {
    hide Lookup;
    var all, all' := [m] + rest, [m[k := v]] + rest;
    forall j
      ensures Lookup(all', j) == if j == k then Some(v) else Lookup(all, j)
      ensures Visible(Lookup(all', j)) == ValueIn(Applied(kv, k, v.kind), j)
    {
      LookupInFirst(m, rest, j);
      LookupInFirst(m[k := v], rest, j);
      assert Visible(Lookup(all, j)) == ValueIn(kv, j);
    }
  }

  lemma OnTopRecent(m: Source, rest: seq<Source>, k: Bytes, v: InternalValue)
    requires Recent([m] + rest) && Below([m] + rest, v.stamp)
    ensures Recent([m[k := v]] + rest) && Below([m[k := v]] + rest, v.stamp + 1)
  {
    var all, all' := [m] + rest, [m[k := v]] + rest;
    forall i, j | 0 <= i < j < |all'|
      ensures Over(all'[i], all'[j])
    {
      assert Over(all[i], all[j]);
      assert AllBelow(all[j], v.stamp) && all'[j] == all[j];
    }
    forall i | 0 <= i < |all'|
      ensures AllBelow(all'[i], v.stamp + 1)
    {
      assert AllBelow(all[i], v.stamp);
    }
  }

  /** Freezing: a new empty table on top changes nothing. */
  lemma EmptyOnTop(s: Stack, kv: KV)
    requires Sound(s, kv)
    ensures Sound(Stack([map[]] + s.memory, s.tables, s.logged), kv)
  {
    var all := s.memory + s.tables;
    var top := Stack([map[]] + s.memory, s.tables, s.logged);
    assert top.memory + top.tables == [map[]] + all;
    forall k
      ensures Lookup([map[]] + all, k) == Lookup(all, k)
    {
      LookupInFirst(map[], all, k);
    }
    forall k
      ensures Visible(Lookup([map[]] + all, k)) == ValueIn(kv, k)
    {
      assert Visible(Lookup(all, k)) == ValueIn(kv, k);
    }
    RecentConcat([map[]], all);
  }

  /** Flushing: the oldest in-memory table becomes the newest table file. */
  lemma OldestFlushed(s: Stack, kv: KV)
    requires Sound(s, kv) && s.memory != []
    ensures var n := |s.memory| - 1; Sound(Stack(s.memory[..n], [s.memory[n]] + s.tables, s.logged), kv)
  {
    var n := |s.memory| - 1;
    assert s.memory[..n] + ([s.memory[n]] + s.tables) == s.memory + s.tables;
  }

  /** Releasing the log, when nothing is left in memory that it would be needed for. */
  lemma LogReleased(s: Stack, kv: KV)
    requires Sound(s, kv) && s.memory == [map[]]
    ensures Sound(Stack([map[]], s.tables, map[]), kv)
  {
  }

  /** Compaction: a block of neighbouring tables is replaced by its merge, at a time when memory and log are empty. */
  lemma BlockMerged(above: seq<Source>, block: seq<Source>, below: seq<Source>, merged: seq<Source>, dropDeletes: bool, kv: KV)
    requires Sound(Stack([map[]], above + block + below, map[]), kv)
    requires |merged| <= 1
    requires MergeOf(block, if merged == [] then map[] else merged[0], dropDeletes)
    requires dropDeletes ==> below == []
    ensures Sound(Stack([map[]], above + merged + below, map[]), kv)
  {
    var m := if merged == [] then map[] else merged[0];
    var was := above + block + below;
    LowerRecent(was);
    MergeKeepsRecent(above, block, below, m, dropDeletes);
    if merged == [] {
      RecentSkip(above, [m], below);
      assert above + merged + below == above + below;
    } else {
      assert merged == [m];
    }
    var now := above + merged + below;
    forall k
      ensures Visible(Lookup(now, k)) == Visible(Lookup(was, k))
    {
      MergePreservesVisible(above, block, below, m, dropDeletes, k);
      if merged == [] { EmptyInvisible(above, below, k); }
    }
    RecentConcat([map[]], now);
    forall k
      ensures Visible(Lookup([map[]] + now, k)) == ValueIn(kv, k)
    {
      LookupInFirst(map[], now, k);
      LookupInFirst(map[], was, k);
      assert Visible(Lookup([map[]] + was, k)) == ValueIn(kv, k);
    }
  }

  lemma LowerRecent(tables: seq<Source>)
    requires Recent([map[]] + tables)
    ensures Recent(tables)
  {
    BlockRecent([map[]], tables, []);
    assert [map[]] + tables + [] == [map[]] + tables;
  }

  lemma EmptyInvisible(above: seq<Source>, below: seq<Source>, k: Bytes)
    ensures Lookup(above + [map[]] + below, k) == Lookup(above + [] + below, k)
  {
    LookupConcat(above + [map[]], below, k);
    LookupConcat(above, [map[]], k);
    LookupConcat(above, below, k);
    assert above + [] + below == above + below;
    LookupInFirst(map[], [], k);
    var none: Source := map[];
    assert [none] + [] == [none];
  }

  /** A merge brings no sequence number of its own. */
  lemma MergeBelow(block: seq<Source>, merged: Source, drop: bool, n: nat)
    requires MergeOf(block, merged, drop) && Below(block, n)
    ensures AllBelow(merged, n)
  {
    forall k | k in merged
      ensures merged[k].stamp < n
    {
      assert Newest(block, k) == Some(merged[k]);
      NewestOccurs(block, k);
      var i :| 0 <= i < |block| && k in block[i] && block[i][k] == merged[k];
      assert AllBelow(block[i], n);
    }
  }
}
