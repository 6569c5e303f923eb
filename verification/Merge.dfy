// The k-way merge: many key-sorted sources folded into one ascending stream that
// carries, for every key, its newest version.

module Merge {
  import opened Wrappers
  import opened ByteStrings
  import opened Versions
  import opened Sources
  import opened SortedRuns

  // ------------------------------------------------------------ specification

  type Runs = seq<seq<Record>>

  ghost predicate AllSorted(runs: Runs) { forall i :: 0 <= i < |runs| ==> Sorted(runs[i]) }

  function Total(runs: Runs): nat { if runs == [] then 0 else |runs[0]| + Total(runs[1..]) }

  /** The smallest key at the head of any run. */
  function MinKey(runs: Runs): Option<Bytes> {
    if runs == [] then None
    else
      var rest := MinKey(runs[1..]);
      if runs[0] == [] then rest
      else if rest.Some? && Less(rest.value, runs[0][0].key) then rest
      else Some(runs[0][0].key)
  }

  function DropHead(run: seq<Record>, k: Bytes): seq<Record> {
    if run != [] && run[0].key == k then run[1..] else run
  }

  function DropKey(runs: Runs, k: Bytes): (r: Runs)
    ensures |r| == |runs|
    ensures forall i :: 0 <= i < |runs| ==> r[i] == DropHead(runs[i], k)
  {
    if runs == [] then [] else [DropHead(runs[0], k)] + DropKey(runs[1..], k)
  }

  /** The newest version of `k` among the heads; of equal sequence numbers, the earliest run's. */
  function Winner(runs: Runs, k: Bytes): Option<InternalValue> {
    if runs == [] then None
    else
      var rest := Winner(runs[1..], k);
      if runs[0] != [] && runs[0][0].key == k && (rest.None? || runs[0][0].value.stamp >= rest.value.stamp)
      then Some(runs[0][0].value) else rest
  }

  lemma {:induction false} DropKeyShrinks(runs: Runs, k: Bytes)
    ensures Total(DropKey(runs, k)) <= Total(runs)
    ensures MinKey(runs) == Some(k) ==> Total(DropKey(runs, k)) < Total(runs) && Winner(runs, k).Some?
  {
    if runs != [] {
      DropKeyShrinks(runs[1..], k);
      assert DropKey(runs, k)[1..] == DropKey(runs[1..], k);
    }
  }

  /** The whole output of the merge. */
  function Merged(runs: Runs): seq<Record>
    decreases Total(runs)
  {
    var k := MinKey(runs);
    if k.None? then []
    else
      DropKeyShrinks(runs, k.value);
      [Record(k.value, Winner(runs, k.value).value)] + Merged(DropKey(runs, k.value))
  }

  function Contents(runs: Runs): (s: seq<Source>)
    ensures |s| == |runs|
    ensures forall i :: 0 <= i < |runs| ==> s[i] == MapOf(runs[i])
  {
    if runs == [] then [] else [MapOf(runs[0])] + Contents(runs[1..])
  }

  /** The entries a reader gets: deletions removed. */
  function LiveOf(run: seq<Record>): seq<(Bytes, Bytes)> {
    if run == [] then []
    else if run[0].value.kind.Value? then [(run[0].key, run[0].value.kind.bytes)] + LiveOf(run[1..])
    else LiveOf(run[1..])
  }

  // ------------------------------------------------------------- correctness

  lemma AllSortedTail(runs: Runs)
    requires AllSorted(runs) && runs != []
    ensures AllSorted(runs[1..]) && Sorted(runs[0])
  {
    assert forall i :: 0 <= i < |runs[1..]| ==> runs[1..][i] == runs[i + 1];
  }

  /** No run holds a key below the smallest head. */
  lemma {:induction false} MinKeyIsMin(runs: Runs, i: nat, k: Bytes)
    requires AllSorted(runs) && i < |runs| && k in MapOf(runs[i])
    ensures MinKey(runs).Some? && AtMost(MinKey(runs).value, k)
  {
    AllSortedTail(runs);
    if i == 0 {
      HeadOfSorted(runs[0], k);
      assert AtMost(runs[0][0].key, k);
      var rest := MinKey(runs[1..]);
      if rest.Some? && Less(rest.value, runs[0][0].key) && k != runs[0][0].key {
        LessTransitive(rest.value, runs[0][0].key, k);
      }
    } else {
      MinKeyIsMin(runs[1..], i - 1, k);
      var rest := MinKey(runs[1..]);
      if runs[0] != [] && !Less(rest.value, runs[0][0].key) {
        LessTotal(rest.value, runs[0][0].key);
        if rest.value != runs[0][0].key && rest.value != k { LessTransitive(runs[0][0].key, rest.value, k); }
      }
    }
  }

  lemma {:induction false} MinKeyNone(runs: Runs)
    ensures MinKey(runs).None? <==> forall i :: 0 <= i < |runs| ==> runs[i] == []
  {
    if runs != [] {
      MinKeyNone(runs[1..]);
      assert forall i :: 1 <= i < |runs| ==> runs[i] == runs[1..][i - 1];
      assert forall i :: 0 <= i < |runs[1..]| ==> runs[1..][i] == runs[i + 1];
    }
  }

  lemma DropHeadSorted(run: seq<Record>, k: Bytes)
    requires Sorted(run)
    ensures Sorted(DropHead(run, k))
    ensures forall j :: j != k ==> (j in MapOf(DropHead(run, k)) <==> j in MapOf(run))
    ensures forall j :: j != k && j in MapOf(run) ==> MapOf(DropHead(run, k))[j] == MapOf(run)[j]
  {
    if run != [] { SortedTail(run); }
  }

  /** At the smallest key, the heads say all there is to say. */
  lemma {:induction false} WinnerIsNewest(runs: Runs, k: Bytes)
    requires AllSorted(runs)
    requires forall i :: 0 <= i < |runs| && k in MapOf(runs[i]) ==> runs[i] != [] && runs[i][0].key == k
    ensures Winner(runs, k) == Newest(Contents(runs), k)
  {
    if runs != [] {
      AllSortedTail(runs);
      assert Contents(runs)[1..] == Contents(runs[1..]);
      forall i | 0 <= i < |runs[1..]| && k in MapOf(runs[1..][i])
        ensures runs[1..][i] != [] && runs[1..][i][0].key == k
      {
        assert runs[1..][i] == runs[i + 1];
      }
      WinnerIsNewest(runs[1..], k);
      if runs[0] != [] { MapOfAt(runs[0], 0); }
    }
  }

  lemma {:induction false} NewestAfterDrop(runs: Runs, k: Bytes, j: Bytes)
    requires AllSorted(runs) && j != k
    ensures Newest(Contents(DropKey(runs, k)), j) == Newest(Contents(runs), j)
  {
    if runs != [] {
      AllSortedTail(runs);
      DropHeadSorted(runs[0], k);
      assert DropKey(runs, k)[1..] == DropKey(runs[1..], k);
      assert Contents(runs)[1..] == Contents(runs[1..]);
      assert Contents(DropKey(runs, k))[1..] == Contents(DropKey(runs[1..], k));
      NewestAfterDrop(runs[1..], k, j);
    }
  }

  /** K-way merge correctness: from strictly sorted runs the output is strictly sorted, mentions exactly
      the keys of the runs, and carries for each the version with the largest sequence number. */
  lemma {:induction false} MergedCorrect(runs: Runs)
    requires AllSorted(runs)
    ensures Sorted(Merged(runs))
    ensures forall k :: k in MapOf(Merged(runs)) <==> Newest(Contents(runs), k).Some?
    ensures forall k :: k in MapOf(Merged(runs)) ==> Newest(Contents(runs), k) == Some(MapOf(Merged(runs))[k])
    decreases Total(runs)
  {
    var m := MinKey(runs);
    MinKeyNone(runs);
    if m.None? {
      forall k
        ensures Newest(Contents(runs), k).None?
      {
        NewestOccurs(Contents(runs), k);
        assert forall i :: 0 <= i < |runs| ==> Contents(runs)[i] == MapOf(runs[i]);
      }
    } else {
      var k0 := m.value;
      var rest := DropKey(runs, k0);
      DropKeyShrinks(runs, k0);
      forall i | 0 <= i < |rest|
        ensures Sorted(rest[i])
      {
        DropHeadSorted(runs[i], k0);
      }
      MergedCorrect(rest);
      SmallestOnlyAtHeads(runs, k0);
      WinnerIsNewest(runs, k0);
      forall k | k in MapOf(Merged(rest))
        ensures Less(k0, k)
      {
        RestAboveMin(runs, k0, k);
      }
      LessIrreflexive(k0);
      SortedCons(Record(k0, Winner(runs, k0).value), Merged(rest));
      assert Merged(runs)[1..] == Merged(rest);
      forall k | k != k0
        ensures Newest(Contents(rest), k) == Newest(Contents(runs), k)
      {
        NewestAfterDrop(runs, k0, k);
      }
    }
  }

  lemma SmallestOnlyAtHeads(runs: Runs, k0: Bytes)
    requires AllSorted(runs) && MinKey(runs) == Some(k0)
    ensures forall i :: 0 <= i < |runs| && k0 in MapOf(runs[i]) ==> runs[i] != [] && runs[i][0].key == k0
  {
    forall i | 0 <= i < |runs| && k0 in MapOf(runs[i])
      ensures runs[i] != [] && runs[i][0].key == k0
    {
      MapOfAt(runs[i], 0);
      MinKeyIsMin(runs, i, runs[i][0].key);
      HeadOfSorted(runs[i], k0);
      if runs[i][0].key != k0 { LessAsymmetric(k0, runs[i][0].key); }
    }
  }

  lemma RestAboveMin(runs: Runs, k0: Bytes, k: Bytes)
    requires AllSorted(runs) && MinKey(runs) == Some(k0)
    requires Newest(Contents(DropKey(runs, k0)), k).Some?
    ensures Less(k0, k)
  {
    var rest := DropKey(runs, k0);
    NewestOccurs(Contents(rest), k);
    var i :| 0 <= i < |rest| && k in Contents(rest)[i];
    assert k in MapOf(DropHead(runs[i], k0));
    if runs[i] != [] && runs[i][0].key == k0 {
      HeadOfSorted(runs[i], k);
    } else {
      MinKeyIsMin(runs, i, k);
      SmallestOnlyAtHeads(runs, k0);
    }
  }

  /** The live view of the merge: ascending keys, each bound to the bytes of its newest version,
      with deleted keys absent. */
  lemma {:induction false} LiveOfSorted(run: seq<Record>)
    requires Sorted(run)
    ensures forall i, j :: 0 <= i < j < |LiveOf(run)| ==> Less(LiveOf(run)[i].0, LiveOf(run)[j].0)
    ensures forall k, b :: (k, b) in LiveOf(run) <==> k in MapOf(run) && MapOf(run)[k].kind == Value(b)
  {
    if run != [] {
      SortedTail(run);
      LiveOfSorted(run[1..]);
      HeadOfSorted(run, run[0].key);
      var t := LiveOf(run[1..]);
      forall i | 0 <= i < |t|
        ensures Less(run[0].key, t[i].0)
      {
        assert (t[i].0, t[i].1) in t;
        HeadOfSorted(run, t[i].0);
      }
    }
  }

  lemma ScanCorrect(runs: Runs, k: Bytes, b: Bytes)
    requires AllSorted(runs)
    ensures (k, b) in LiveOf(Merged(runs)) <==> Visible(Newest(Contents(runs), k)) == Some(b)
  {
    MergedCorrect(runs);
    LiveOfSorted(Merged(runs));
  }

  // ------------------------------------------------------------- the iterator

  datatype HeapHead = HeapHead(key: Bytes, value: InternalValue, source: nat)

  /** `a` compares greater than `b`, so it leaves the max-heap first: smaller key, then larger
      sequence number, then smaller source index. */
  predicate PopsBefore(a: HeapHead, b: HeapHead) {
    || Less(a.key, b.key)
    || (a.key == b.key && (a.value.stamp > b.value.stamp || (a.value.stamp == b.value.stamp && a.source < b.source)))
  }

  predicate IsTop(heap: set<HeapHead>, h: HeapHead) {
    h in heap && forall x :: x in heap ==> x == h || PopsBefore(h, x)
  }

  predicate OnePerSource(heap: set<HeapHead>) {
    forall x, y :: x in heap && y in heap && x.source == y.source ==> x == y
  }

  lemma PopsBeforeTransitive(a: HeapHead, b: HeapHead, c: HeapHead)
    requires PopsBefore(a, b) && PopsBefore(b, c)
    ensures PopsBefore(a, c)
  {
    if Less(a.key, b.key) && Less(b.key, c.key) { LessTransitive(a.key, b.key, c.key); }
  }

  lemma {:induction false} TopExists(heap: set<HeapHead>)
    requires heap != {} && OnePerSource(heap)
    ensures exists h :: IsTop(heap, h)
    decreases |heap|
  {
    var x :| x in heap;
    if heap == {x} {
      assert IsTop(heap, x);
    } else {
      var rest := heap - {x};
      assert rest != {};
      TopExists(rest);
      var h :| IsTop(rest, h);
      LessTotal(h.key, x.key);
      if PopsBefore(h, x) {
        assert IsTop(heap, h);
      } else {
        forall y | y in heap
          ensures y == x || PopsBefore(x, y)
        {
          if y != x && y != h { PopsBeforeTransitive(x, h, y); }
        }
        assert IsTop(heap, x);
      }
    }
  }

  class MergeIterator {
    /** What each source has yet to yield, its buffered head excluded. */
    var sources: Runs
    var heap: set<HeapHead>

    /** What each source has yet to yield, its buffered head included. */
    ghost var rest: Runs

    ghost predicate Valid()
      reads this
    {
      && |rest| == |sources| && AllSorted(rest) && OnePerSource(heap)
      && (forall h :: h in heap ==> h.source < |rest| && Buffered(rest, sources, h))
      && (forall i :: 0 <= i < |rest| && rest[i] != [] ==> HeapHead(rest[i][0].key, rest[i][0].value, i) in heap)
      && (forall i :: 0 <= i < |rest| && rest[i] == [] ==> sources[i] == [])
    }

    static ghost predicate Buffered(rest: Runs, sources: Runs, h: HeapHead)
      requires |rest| == |sources| && h.source < |rest|
    {
      rest[h.source] == [Record(h.key, h.value)] + sources[h.source]
    }

    constructor (runs: Runs)
      requires AllSorted(runs)
      ensures Valid() && rest == runs
    {
      sources := runs;
      heap := {};
      rest := runs;
      new;
      var i := 0;
      while i < |sources|
        invariant 0 <= i <= |sources| == |runs| && rest == runs && OnePerSource(heap)
        invariant forall h :: h in heap ==> h.source < i && Buffered(rest, sources, h)
        invariant forall j :: 0 <= j < i && rest[j] != [] ==> HeapHead(rest[j][0].key, rest[j][0].value, j) in heap
        invariant forall j :: 0 <= j < i && rest[j] == [] ==> sources[j] == []
        invariant forall j :: i <= j < |sources| ==> sources[j] == runs[j]
      {
        if sources[i] != [] {
          var r := sources[i][0];
          heap := heap + {HeapHead(r.key, r.value, i)};
          sources := sources[i := sources[i][1..]];
          assert rest[i] == [r] + sources[i];
        }
        i := i + 1;
      }
    }

    /** Take the top head off the heap and buffer its source's next entry. */
    method PopAndRefill(h: HeapHead)
      requires Valid() && h in heap
      modifies this
      ensures Valid() && |rest| == |old(rest)|
      ensures rest == old(rest)[h.source := old(rest)[h.source][1..]]
      ensures old(rest)[h.source] != [] && old(rest)[h.source][0] == Record(h.key, h.value)
    {
      heap := heap - {h};
      assert Buffered(rest, sources, h);
      ghost var was := rest;
      rest := rest[h.source := rest[h.source][1..]];
      assert rest[h.source] == sources[h.source];
      SortedTail(was[h.source]);
      var idx := h.source;
      if sources[idx] != [] {
        var r := sources[idx][0];
        assert sources[idx] == [r] + sources[idx][1..];
        heap := heap + {HeapHead(r.key, r.value, idx)};
        sources := sources[idx := sources[idx][1..]];
      }
      forall x | x in heap
        ensures Buffered(rest, sources, x)
      {
      }
    }

    method Next() returns (r: Option<Record>)
      requires Valid()
      modifies this
      ensures Valid() && |rest| == |old(rest)|
      ensures r.None? <==> MinKey(old(rest)).None?
      ensures r.None? ==> rest == old(rest) && Merged(old(rest)) == []
      ensures r.Some? ==> rest == DropKey(old(rest), r.value.key)
      ensures r.Some? ==> Merged(old(rest)) == [r.value] + Merged(rest) && Total(rest) < Total(old(rest))
    {
      ghost var was := rest;
      MinKeyNone(was);
      if heap == {} { return None; }
      TopExists(heap);
      var top :| IsTop(heap, top);
      var key, value := top.key, top.value;
      TopIsMin(top);
      assert Winner(was, key) == Some(value);
      PopAndRefill(top);
      DropKeyShrinks(was, key);
      DiscardOlder(key, was);
      return Some(Record(key, value));
    }

    /** Every other head equal to the key is an older version: pop it and advance its source. */
    method DiscardOlder(key: Bytes, ghost was: Runs)
      requires Valid() && PartlyDropped(was, rest, key)
      requires AllSorted(was) && MinKey(was) == Some(key)
      modifies this
      ensures Valid() && rest == DropKey(was, key)
    {
      var going := true;
      while going && heap != {}
        invariant Valid() && PartlyDropped(was, rest, key)
        invariant !going ==> forall h :: h in heap ==> h.key != key
        decreases going, Total(rest)
      {
        TopExists(heap);
        var peek :| IsTop(heap, peek);
        assert Buffered(rest, sources, peek);
        if peek.key == key {
          ghost var prev := rest;
          PopAndRefill(peek);
          TotalUpdate(prev, peek.source, prev[peek.source][1..]);
          HeadGone(was[peek.source], prev[peek.source], key);
        } else {
          AboveMin(was, rest, key, peek);
          forall h | h in heap
            ensures h.key != key
          {
            if h != peek && h.key == key { LessAsymmetric(key, peek.key); }
          }
          going := false;
        }
      }
      NoHeadLeft(key);
      forall i | 0 <= i < |was|
        ensures rest[i] == DropHead(was[i], key)
      {
        assert rest[i] == was[i] || rest[i] == DropHead(was[i], key);
      }
      assert rest == DropKey(was, key);
    }

    static ghost predicate PartlyDropped(was: Runs, now: Runs, key: Bytes) {
      |now| == |was| && forall i :: 0 <= i < |was| ==> now[i] == was[i] || now[i] == DropHead(was[i], key)
    }

    lemma NoHeadLeft(key: Bytes)
      requires Valid() && forall h :: h in heap ==> h.key != key
      ensures forall i :: 0 <= i < |rest| && rest[i] != [] ==> rest[i][0].key != key
    {
      forall i | 0 <= i < |rest| && rest[i] != []
        ensures rest[i][0].key != key
      {
        assert HeapHead(rest[i][0].key, rest[i][0].value, i) in heap;
      }
    }

    /** The heap's top carries the smallest key and that key's winner. */
    lemma TopIsMin(top: HeapHead)
      requires Valid() && IsTop(heap, top)
      ensures MinKey(rest) == Some(top.key) && Winner(rest, top.key) == Some(top.value)
    {
      assert Buffered(rest, sources, top);
      HeadsAreHeap(0, top);
      assert rest[0..] == rest;
    }

    lemma {:induction false} HeadsAreHeap(i: nat, top: HeapHead)
      requires Valid() && IsTop(heap, top) && i <= |rest|
      ensures MinKey(rest[i..]).Some? ==> AtMost(top.key, MinKey(rest[i..]).value)
      ensures i <= top.source ==> MinKey(rest[i..]) == Some(top.key) && Winner(rest[i..], top.key) == Some(top.value)
      ensures i > top.source && Winner(rest[i..], top.key).Some? ==> Winner(rest[i..], top.key).value.stamp <= top.value.stamp
      decreases |rest| - i
    {
      assert Buffered(rest, sources, top);
      if i < |rest| {
        HeadsAreHeap(i + 1, top);
        assert rest[i..][1..] == rest[i + 1..];
        if rest[i] != [] {
          var h := HeapHead(rest[i][0].key, rest[i][0].value, i);
          assert h in heap;
          assert h == top || PopsBefore(top, h);
          if i == top.source { assert h == top; }
          LessIrreflexive(top.key);
          if Less(top.key, h.key) { LessAsymmetric(top.key, h.key); }
          var m := MinKey(rest[i + 1..]);
          if m.Some? && Less(m.value, h.key) && m.value != top.key { LessAsymmetric(top.key, m.value); }
          if m.Some? && m.value != top.key && Less(top.key, m.value) { LessAsymmetric(top.key, m.value); }
        }
      }
    }
  }

  lemma {:induction false} TotalUpdate(runs: Runs, i: nat, run: seq<Record>)
    requires i < |runs|
    ensures Total(runs[i := run]) == Total(runs) - |runs[i]| + |run|
  {
    if i > 0 {
      assert runs[i := run][1..] == runs[1..][i - 1 := run];
      TotalUpdate(runs[1..], i - 1, run);
    }
  }

  lemma HeadGone(was: seq<Record>, now: seq<Record>, key: Bytes)
    requires Sorted(was) && (now == was || now == DropHead(was, key)) && now != [] && now[0].key == key
    ensures now == was && now[1..] == DropHead(was, key)
  {
    if now != was {
      SortedTail(was);
      LessIrreflexive(key);
    }
  }

  lemma AboveMin(was: Runs, now: Runs, key: Bytes, h: HeapHead)
    requires AllSorted(was) && MinKey(was) == Some(key) && MergeIterator.PartlyDropped(was, now, key)
    requires h.source < |now| && now[h.source] != [] && now[h.source][0].key == h.key
    ensures AtMost(key, h.key)
  {
    var i := h.source;
    var j := if now[i] == was[i] then 0 else 1;
    assert now[i][0] == was[i][j];
    MapOfAt(was[i], j);
    MinKeyIsMin(was, i, h.key);
  }

  /** `live()`: the merge with deletions filtered out. */
  class LiveIter {
    const inner: MergeIterator

    constructor (inner: MergeIterator)
      ensures this.inner == inner
    {
      this.inner := inner;
    }

    method Next() returns (r: Option<(Bytes, Bytes)>)
      requires inner.Valid()
      modifies inner
      ensures inner.Valid()
      ensures LiveOf(Merged(old(inner.rest)))
           == (if r.None? then [] else [r.value]) + LiveOf(Merged(inner.rest))
      ensures r.None? ==> Merged(inner.rest) == []
    {
      while true
        invariant inner.Valid()
        invariant LiveOf(Merged(inner.rest)) == LiveOf(Merged(old(inner.rest)))
        decreases Total(inner.rest)
      {
        ghost var was := inner.rest;
        var e := inner.Next();
        if e.None? { return None; }
        assert Merged(was)[0] == e.value && Merged(was)[1..] == Merged(inner.rest);
        match e.value.value.kind
        case Value(b) => return Some((e.value.key, b));
        case Tombstone =>
      }
    }
  }
}
