// Versioned values, the newest-wins insert, and the weight of a table.

module Versions {
  import opened ByteStrings

  datatype ValueKind = Value(bytes: Bytes) | Tombstone

  /** A value and the sequence number of the write that produced it. */
  datatype InternalValue = InternalValue(stamp: nat, kind: ValueKind)

  /** One logical mutation, as the log carries it and as a sorted table stores it. */
  datatype Record = Record(key: Bytes, value: InternalValue)

  /** What one source (a memtable or a table file) holds: at most one version per key. */
  type Source = map<Bytes, InternalValue>

  function InsertIfNewer(m: Source, key: Bytes, v: InternalValue): Source {
    if key in m && m[key].stamp >= v.stamp then m else m[key := v]
  }

  /** Replay of log records, in log order. */
  function Replay(m: Source, records: seq<Record>): Source
    decreases |records|
  {
    if records == [] then m
    else Replay(InsertIfNewer(m, records[0].key, records[0].value), records[1..])
  }

  lemma {:induction false} ReplayAppend(m: Source, r1: seq<Record>, r2: seq<Record>)
    ensures Replay(m, r1 + r2) == Replay(Replay(m, r1), r2)
    decreases |r1|
  {
    if r1 == [] {
      assert r1 + r2 == r2;
    } else {
      assert (r1 + r2)[1..] == r1[1..] + r2;
      ReplayAppend(InsertIfNewer(m, r1[0].key, r1[0].value), r1[1..], r2);
    }
  }

  lemma ReplaySnoc(records: seq<Record>, r: Record)
    ensures Replay(map[], records + [r]) == InsertIfNewer(Replay(map[], records), r.key, r.value)
  {
    ReplayAppend(map[], records, [r]);
    assert [r][1..] == [];
  }

  // ------------------------------------------------- order-independent replay

  /** Equal sequence numbers mean equal records. */
  ghost predicate Consistent(records: set<Record>) {
    forall a, b :: a in records && b in records && a.value.stamp == b.value.stamp ==> a == b
  }

  /** `m` holds exactly the newest version of every key the records mention. */
  ghost predicate NewestOf(m: Source, records: set<Record>) {
    && (forall r :: r in records ==> r.key in m && r.value.stamp <= m[r.key].stamp)
    && (forall k :: k in m ==> Record(k, m[k]) in records)
  }

  function Elements<T>(s: seq<T>): set<T> { set x | x in s }

  lemma {:induction false} ReplayKeepsNewest(m: Source, seen: set<Record>, records: seq<Record>)
    requires NewestOf(m, seen)
    ensures NewestOf(Replay(m, records), seen + Elements(records))
    decreases |records|
  {
    if records == [] {
      assert seen + Elements(records) == seen;
    } else {
      var r := records[0];
      ReplayKeepsNewest(InsertIfNewer(m, r.key, r.value), seen + {r}, records[1..]);
      assert seen + {r} + Elements(records[1..]) == seen + Elements(records);
    }
  }

  lemma NewestUnique(m1: Source, m2: Source, records: set<Record>)
    requires Consistent(records) && NewestOf(m1, records) && NewestOf(m2, records)
    ensures m1 == m2
  {
    forall k | k in m1
      ensures k in m2 && m1[k] == m2[k]
    {
      assert Record(k, m1[k]) in records;
      assert Record(k, m2[k]) in records;
    }
    forall k | k in m2
      ensures k in m1
    {
      assert Record(k, m2[k]) in records;
    }
  }

  /** Replaying the same records in any order, any number of times each, gives the same table:
      the newest version of every key. */
  lemma ReplayOrderIrrelevant(r1: seq<Record>, r2: seq<Record>)
    requires Elements(r1) == Elements(r2) && Consistent(Elements(r1))
    ensures Replay(map[], r1) == Replay(map[], r2) && NewestOf(Replay(map[], r1), Elements(r1))
  {
    ReplayKeepsNewest(map[], {}, r1);
    ReplayKeepsNewest(map[], {}, r2);
    assert {} + Elements(r1) == Elements(r1);
    assert {} + Elements(r2) == Elements(r2);
    NewestUnique(Replay(map[], r1), Replay(map[], r2), Elements(r1));
  }

  // ------------------------------------------------------------- byte account

  const ENTRY_OVERHEAD: nat := 32

  function PayloadBytes(v: InternalValue): nat {
    match v.kind
    case Value(b) => |b|
    case Tombstone => 0
  }

  function EntryBytes(key: Bytes, v: InternalValue): nat {
    |key| + PayloadBytes(v) + ENTRY_OVERHEAD
  }

  /** The exact sum of key, payload and overhead over all entries. */
  ghost function Weight(m: Source): nat
    decreases |m|
  {
    if m == map[] then 0
    else
      var k :| k in m;
      EntryBytes(k, m[k]) + Weight(m - {k})
  }

  /** The sum does not depend on the order in which entries are taken out. */
  lemma {:induction false} WeightTake(m: Source, k: Bytes)
    requires k in m
    ensures Weight(m) == EntryBytes(k, m[k]) + Weight(m - {k})
    decreases |m|
  {
    var j :| j in m && Weight(m) == EntryBytes(j, m[j]) + Weight(m - {j});
    if j != k {
      WeightTake(m - {j}, k);
      WeightTake(m - {k}, j);
      assert m - {j} - {k} == m - {k} - {j};
    }
  }

  /** How inserting changes the sum; the subtraction the account performs never underflows. */
  lemma WeightInsert(m: Source, k: Bytes, v: InternalValue)
    ensures k in m ==> EntryBytes(k, m[k]) <= Weight(m)
    ensures Weight(m[k := v]) == Weight(m) - (if k in m then EntryBytes(k, m[k]) else 0) + EntryBytes(k, v)
  {
    var m' := m[k := v];
    WeightTake(m', k);
    assert m' - {k} == m - {k};
    if k in m { WeightTake(m, k); } else { assert m - {k} == m; }
  }

  /** What a write adds to the sum: its key, its value and 32 bytes for a new key, and else just the difference of the values. */
  lemma WeightOfWrite(m: Source, k: Bytes, v: InternalValue)
    ensures var size := if v.kind.Value? then |v.kind.bytes| else 0;
      if k !in m then Weight(m[k := v]) == Weight(m) + |k| + size + 32
      else Weight(m[k := v]) + (if m[k].kind.Value? then |m[k].kind.bytes| else 0) == Weight(m) + size
  {
    WeightInsert(m, k, v);
  }

  lemma WeightZero(m: Source)
    ensures Weight(m) == 0 <==> m == map[]
  {
    if m != map[] {
      var k :| k in m;
      WeightTake(m, k);
    }
  }
}
