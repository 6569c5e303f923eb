// The in-memory tables: one that is written, and the frozen ones behind it.

module Memtables {
  import opened Wrappers
  import opened ByteStrings
  import opened Seqs
  import opened Versions
  import opened Sources

  class Memtable {
    var entries: Source
    var approxBytes: nat

    ghost predicate Valid()
      reads this
    {
      approxBytes == Weight(entries)
    }

    constructor ()
      ensures Valid() && entries == map[] && approxBytes == 0
    {
      entries := map[];
      approxBytes := 0;
    }

    method Insert(key: Bytes, val: InternalValue)
      requires Valid()
      modifies this
      ensures Valid() && entries == old(entries)[key := val]
    {
      WeightInsert(entries, key, val);
      var incoming := EntryBytes(key, val);
      if key in entries {
        var outgoing := EntryBytes(key, entries[key]);
        approxBytes := approxBytes - outgoing + incoming;
      } else {
        approxBytes := approxBytes + incoming;
      }
      entries := entries[key := val];
    }

    /** A stale write is dropped, and then nothing changes. */
    method InsertIfNewer(key: Bytes, val: InternalValue)
      requires Valid()
      modifies this
      ensures Valid() && entries == Versions.InsertIfNewer(old(entries), key, val)
    {
      WeightInsert(entries, key, val);
      var incoming := EntryBytes(key, val);
      if key in entries {
        if entries[key].stamp >= val.stamp { return; }
        var outgoing := EntryBytes(key, entries[key]);
        approxBytes := approxBytes - outgoing + incoming;
      } else {
        approxBytes := approxBytes + incoming;
      }
      entries := entries[key := val];
    }

    function Get(key: Bytes): (r: Option<InternalValue>)
      reads this
      ensures r.Some? <==> key in entries
      ensures r.Some? ==> r.value == entries[key]
    {
      if key in entries then Some(entries[key]) else None
    }
  }

  /** The active table and the frozen tables awaiting flush, oldest first. */
  class MemtableSet {
    var active: Memtable
    var frozen: seq<Memtable>
    const maxBytes: nat

    ghost function Tables(): set<Memtable>
      reads this
    {
      {active} + set t | t in frozen
    }

    ghost predicate Valid()
      reads this, Tables()
    {
      && active !in frozen
      && Distinct(frozen)
      && (forall t :: t in Tables() ==> t.Valid())
    }

    /** The contents of the frozen tables, oldest first. */
    ghost function FrozenContents(): (s: seq<Source>)
      reads this, frozen
      ensures |s| == |frozen|
    {
      seq(|frozen|, i requires 0 <= i < |frozen| reads this, frozen => frozen[i].entries)
    }

    constructor (maxBytes: nat)
      ensures Valid() && fresh(Tables()) && this.maxBytes == maxBytes
      ensures active.entries == map[] && frozen == []
    {
      this.maxBytes := maxBytes;
      active := new Memtable();
      frozen := [];
    }

    method InsertIfNewer(key: Bytes, val: InternalValue)
      requires Valid()
      modifies active
      ensures Valid() && active.entries == Versions.InsertIfNewer(old(active.entries), key, val)
      ensures FrozenContents() == old(FrozenContents())
    {
      active.InsertIfNewer(key, val);
    }

    /** Newest first: the active table, then the frozen tables from the back. */
    method Get(key: Bytes) returns (r: Option<InternalValue>)
      requires Valid()
      ensures r == Lookup([active.entries] + Reversed(FrozenContents()), key)
    {
      r := active.Get(key);
      if r.Some? { return; }
      var i := |frozen|;
      ghost var rest := Reversed(FrozenContents());
      assert ([active.entries] + rest)[1..] == rest;
      assert Lookup([active.entries] + rest, key) == Lookup(rest, key);
      assert rest[0..] == rest;
      while i > 0
        invariant 0 <= i <= |frozen|
        invariant |rest| == |frozen| && rest == Reversed(FrozenContents())
        invariant Lookup(rest, key) == Lookup(rest[|frozen| - i..], key) && r.None?
      {
        i := i - 1;
        ReversedAt(FrozenContents(), |frozen| - 1 - i);
        assert rest[|frozen| - 1 - i] == frozen[i].entries;
        assert rest[|frozen| - 1 - i..][1..] == rest[|frozen| - i..];
        r := frozen[i].Get(key);
        if r.Some? { return; }
      }
      assert rest[|frozen|..] == [];
    }

    function ActiveBytes(): (n: nat)
      requires Valid()
      reads this, Tables()
      ensures n == 0 <==> active.entries == map[]
    {
      WeightZero(active.entries);
      active.approxBytes
    }

    predicate IsFull()
      requires Valid()
      reads this, Tables()
    {
      ActiveBytes() >= maxBytes
    }

    /** Move the active table to the back of the frozen list and install an empty one. */
    method Freeze()
      requires Valid()
      modifies this
      ensures Valid() && fresh(active) && active.entries == map[]
      ensures frozen == old(frozen) + [old(active)]
      ensures FrozenContents() == old(FrozenContents()) + [old(active.entries)]
    {
      frozen := frozen + [active];
      active := new Memtable();
    }

    /** Remove a table from the frozen list, by identity. */
    method DiscardFrozen(table: Memtable)
      requires Valid()
      modifies this
      ensures Valid() && active == old(active)
      ensures frozen == Without(old(frozen), table)
      ensures old(frozen) != [] && table == old(frozen[0]) ==>
                frozen == old(frozen)[1..] && FrozenContents() == old(FrozenContents())[1..]
    {
      frozen := Without(frozen, table);
      WithoutKeepsDistinct(old(frozen), table);
      if old(frozen) != [] && table == old(frozen[0]) { WithoutFirst(old(frozen)); }
      assert forall t :: t in frozen ==> t in old(frozen);
    }
  }

  function Without<T(==)>(s: seq<T>, x: T): (r: seq<T>)
    ensures x !in r && forall i :: 0 <= i < |r| ==> r[i] in s
  {
    if s == [] then [] else if s[0] == x then Without(s[1..], x) else [s[0]] + Without(s[1..], x)
  }

  predicate Distinct<T(==)>(s: seq<T>) {
    forall i, j :: 0 <= i < j < |s| ==> s[i] != s[j]
  }

  lemma {:induction false} WithoutKeepsDistinct<T>(s: seq<T>, x: T)
    requires Distinct(s)
    ensures Distinct(Without(s, x))
  {
    if s != [] {
      var r, t := Without(s, x), Without(s[1..], x);
      WithoutKeepsDistinct(s[1..], x);
      if s[0] != x {
        assert forall m :: 0 <= m < |s[1..]| ==> s[1..][m] == s[m + 1];
        assert s[0] !in s[1..];
        forall i, j | 0 <= i < j < |r|
          ensures r[i] != r[j]
        {
          assert r[j] == t[j - 1] && t[j - 1] in s[1..];
          if i > 0 { assert r[i] == t[i - 1]; }
        }
      }
    }
  }

  lemma WithoutFirst<T>(s: seq<T>)
    requires s != [] && Distinct(s)
    ensures Without(s, s[0]) == s[1..]
  {
    WithoutAbsent(s[1..], s[0]);
  }

  lemma {:induction false} WithoutAbsent<T>(s: seq<T>, x: T)
    requires x !in s
    ensures Without(s, x) == s
  {
    if s != [] { WithoutAbsent(s[1..], x); }
  }
}
