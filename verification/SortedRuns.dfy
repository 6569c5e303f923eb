// Key-sorted runs of records, and the maps they stand for.

module SortedRuns {
  import opened ByteStrings
  import opened Versions

  /** Strictly ascending keys. */
  ghost predicate Sorted(run: seq<Record>) {
    forall i, j :: 0 <= i < j < |run| ==> Less(run[i].key, run[j].key)
  }

  function MapOf(run: seq<Record>): Source {
    if run == [] then map[] else MapOf(run[1..])[run[0].key := run[0].value]
  }

  lemma {:induction false} MapOfKeys(run: seq<Record>, k: Bytes)
    ensures k in MapOf(run) <==> exists i :: 0 <= i < |run| && run[i].key == k
  {
    if run != [] {
      MapOfKeys(run[1..], k);
      if run[0].key == k {
      } else if k in MapOf(run) {
        var i :| 0 <= i < |run[1..]| && run[1..][i].key == k;
        assert run[i + 1].key == k;
      } else {
        forall i | 0 <= i < |run|
          ensures run[i].key != k
        {
          if i > 0 { assert run[i] == run[1..][i - 1]; }
        }
      }
    }
  }

  lemma SortedTail(run: seq<Record>)
    requires Sorted(run) && run != []
    ensures Sorted(run[1..])
    ensures forall i :: 0 <= i < |run[1..]| ==> Less(run[0].key, run[1..][i].key)
  {
    assert forall i :: 0 <= i < |run[1..]| ==> run[1..][i] == run[i + 1];
  }

  lemma {:induction false} MapOfAt(run: seq<Record>, i: nat)
    requires Sorted(run) && i < |run|
    ensures run[i].key in MapOf(run) && MapOf(run)[run[i].key] == run[i].value
  {
    if i > 0 {
      SortedTail(run);
      MapOfAt(run[1..], i - 1);
      LessIrreflexive(run[0].key);
      assert run[i] == run[1..][i - 1];
    }
  }

  /** The head of a sorted run is its smallest key, and occurs nowhere else. */
  lemma HeadOfSorted(run: seq<Record>, k: Bytes)
    requires Sorted(run) && run != []
    ensures k in MapOf(run[1..]) ==> Less(run[0].key, k)
    ensures run[0].key !in MapOf(run[1..])
  {
    SortedTail(run);
    MapOfKeys(run[1..], k);
    MapOfKeys(run[1..], run[0].key);
    LessIrreflexive(run[0].key);
  }

  lemma SortedCons(r: Record, run: seq<Record>)
    requires Sorted(run) && forall k :: k in MapOf(run) ==> Less(r.key, k)
    ensures Sorted([r] + run)
  {
    forall i, j | 0 <= i < j < |[r] + run|
      ensures Less(([r] + run)[i].key, ([r] + run)[j].key)
    {
      MapOfKeys(run, run[j - 1].key);
      assert run[j - 1].key in MapOf(run);
    }
  }

  ghost predicate IsLeastKey(m: Source, k: Bytes) { k in m && forall j :: j in m ==> AtMost(k, j) }

  lemma {:induction false} LeastKeyExists(m: Source)
    requires m != map[]
    ensures exists k :: IsLeastKey(m, k)
    decreases |m|
  {
    var x :| x in m;
    var rest := m - {x};
    if rest == map[] {
      assert forall j :: j in m ==> j == x || j in rest;
      assert IsLeastKey(m, x);
    } else {
      LeastKeyExists(rest);
      var k :| IsLeastKey(rest, k);
      LessTotal(k, x);
      forall j | j in m
        ensures AtMost(if Less(x, k) then x else k, j)
      {
        if j != x {
          assert j in rest;
          if Less(x, k) && k != j { LessTransitive(x, k, j); }
        }
      }
      assert IsLeastKey(m, if Less(x, k) then x else k);
    }
  }

  ghost function LeastKey(m: Source): (k: Bytes)
    requires m != map[]
    ensures IsLeastKey(m, k)
  {
    LeastKeyExists(m);
    var k :| IsLeastKey(m, k);
    k
  }

  /** The entries of an in-memory table, in key order. */
  ghost function Snapshot(m: Source): seq<Record>
    decreases |m|
  {
    if m == map[] then []
    else [Record(LeastKey(m), m[LeastKey(m)])] + Snapshot(m - {LeastKey(m)})
  }

  lemma {:induction false} SnapshotSorted(m: Source)
    ensures Sorted(Snapshot(m)) && MapOf(Snapshot(m)) == m
    ensures Snapshot(m) == [] <==> m == map[]
    decreases |m|
  {
    if m != map[] {
      var k := LeastKey(m);
      SnapshotSorted(m - {k});
      SortedCons(Record(k, m[k]), Snapshot(m - {k}));
      assert Snapshot(m)[1..] == Snapshot(m - {k});
    }
  }

  /** A sorted run is determined by its contents. */
  lemma {:induction false} SortedUnique(a: seq<Record>, b: seq<Record>)
    requires Sorted(a) && Sorted(b) && MapOf(a) == MapOf(b)
    ensures a == b
  {
    if a == [] {
      if b != [] { MapOfAt(b, 0); }
    } else if b == [] {
      MapOfAt(a, 0);
    } else {
      MapOfAt(a, 0);
      MapOfAt(b, 0);
      HeadOfSorted(a, b[0].key);
      HeadOfSorted(b, a[0].key);
      if a[0].key != b[0].key {
        LessAsymmetric(a[0].key, b[0].key);
      }
      assert MapOf(a[1..]) == MapOf(a) - {a[0].key};
      assert MapOf(b[1..]) == MapOf(b) - {b[0].key};
      SortedTail(a);
      SortedTail(b);
      SortedUnique(a[1..], b[1..]);
    }
  }
}
