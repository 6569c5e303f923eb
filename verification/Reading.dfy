// Point lookups and range scans of a running engine return what the client's map holds.

module Reading {
  import opened Wrappers
  import opened ByteStrings
  import opened Seqs
  import opened Versions
  import opened Sources
  import opened SortedRuns
  import opened Merge
  import opened Sim
  import opened FsView
  import opened Protocols
  import opened TableFormat
  import opened LsmVersion
  import opened Meaning
  import opened EngineModel
  import opened EngineState
  import opened CompactionSafety

  // ------------------------------------------------------------ point lookups

  /** A key outside a table's range is not in the table. */
  lemma OutOfRangeAbsent(es: seq<Record>, id: nat, key: Bytes)
    requires Sorted(es) && es != [] && key in MapOf(es)
    ensures KeyInRange(MetaOf(id, es), key)
  {
    MapOfKeys(es, key);
    var i :| 0 <= i < |es| && es[i].key == key;
    assert i > 0 ==> Less(es[0].key, es[i].key);
    assert i < |es| - 1 ==> Less(es[i].key, es[|es| - 1].key);
  }

  /** Looking a key up in the table files, newest first, is looking it up in their contents. */
  lemma {:induction false} TablesAgree(cfg: Config, img: Image, tabs: Tabs, ts: seq<TableMeta>, key: Bytes)
    requires AllHeld(cfg.codec, img, tabs, ts)
    ensures GetFromTables(cfg, SettledFs(img), ts, key) == Some(Visible(Lookup(SourcesOf(tabs, ts), key)))
  {
    hide File, TableFits, Sorted, MapOf, Open, Get, SettledFs;
    if ts != [] {
      var t, rest := ts[0], ts[1..];
      assert TableHeld(cfg.codec, img, tabs, t);
      var data := tabs[t.id];
      assert forall i :: 0 <= i < |rest| ==> rest[i] == ts[i + 1];
      TablesAgree(cfg, img, tabs, rest, key);
      assert SourcesOf(tabs, ts)[1..] == SourcesOf(tabs, rest);
      SettledBytes(img, Table(t.id));
      if key in MapOf(data.entries) { OutOfRangeAbsent(data.entries, t.id, key); }
      OpenBuilt(cfg.codec, data.expected, data.entries);
      GetBuilt(cfg.codec, data.expected, data.entries, key);
    }
  }

  /** `get` returns what the map holds. */
  lemma GetCorrect(cfg: Config, e: Engine, img: Image, d: OnDisk, kv: KV, key: Bytes)
    requires Running(cfg, e, img, d, kv)
    ensures GetOf(cfg, e, key) == Some(ValueIn(kv, key))
  {
    hide GetFromTables, AllHeld, SettledFs, LogOpen, SeqsNew, NewestFirst, SourcesOf, MemorySources, FreshIds;
    TablesAgree(cfg, img, d.tabs, TableOrder(d), key);
    LookupConcat(MemorySources(e), TablesOf(d), key);
    assert Visible(Lookup(MemorySources(e) + TablesOf(d), key)) == ValueIn(kv, key);
  }

  // -------------------------------------------------------------------- scans

  lemma {:induction false} ClipSorted(run: seq<Record>, lo: Bound, hi: Bound)
    requires Sorted(run)
    ensures Sorted(Clip(run, lo, hi))
    ensures forall k :: k in MapOf(Clip(run, lo, hi)) <==> k in MapOf(run) && InRange(lo, hi, k)
    ensures forall k :: k in MapOf(Clip(run, lo, hi)) ==> MapOf(Clip(run, lo, hi))[k] == MapOf(run)[k]
  {
    hide Sorted, InRange;
    if run != [] {
      var c := Clip(run[1..], lo, hi);
      SortedTail(run);
      ClipSorted(run[1..], lo, hi);
      HeadOfSorted(run, run[0].key);
      forall k | k in MapOf(c)
        ensures Less(run[0].key, k)
      {
        HeadOfSorted(run, k);
      }
      SortedCons(run[0], c);
      assert ([run[0]] + c)[1..] == c;
    }
  }

  lemma ClipAllSorted(runs: Runs, lo: Bound, hi: Bound)
    requires AllSorted(runs)
    ensures AllSorted(ClipAll(runs, lo, hi))
  {
    hide Sorted, Clip;
    forall i | 0 <= i < |runs|
      ensures Sorted(ClipAll(runs, lo, hi)[i])
    {
      ClipSorted(runs[i], lo, hi);
    }
  }

  lemma ContentsTail(runs: Runs)
    requires runs != []
    ensures Contents(runs) == [MapOf(runs[0])] + Contents(runs[1..])
  {
    hide MapOf;
  }

  lemma ClipAllTail(runs: Runs, lo: Bound, hi: Bound)
    requires runs != []
    ensures ClipAll(runs, lo, hi) == [Clip(runs[0], lo, hi)] + ClipAll(runs[1..], lo, hi)
  {
    hide Clip;
  }

  lemma {:induction false} ClipNewest(runs: Runs, lo: Bound, hi: Bound, k: Bytes)
    requires AllSorted(runs)
    ensures AllSorted(ClipAll(runs, lo, hi))
    ensures Newest(Contents(ClipAll(runs, lo, hi)), k) == if InRange(lo, hi, k) then Newest(Contents(runs), k) else None
  {
    hide Sorted, InRange, MapOf, Clip, Contents, ClipAll;
    ClipAllSorted(runs, lo, hi);
    if runs == [] {
      NothingClipped(lo, hi);
    } else {
      AllSortedTail(runs);
      ClipNewest(runs[1..], lo, hi, k);
      ClipSorted(runs[0], lo, hi);
      ContentsTail(runs);
      ClipAllTail(runs, lo, hi);
      ContentsTail(ClipAll(runs, lo, hi));
      var rest := Contents(runs[1..]);
      assert ([MapOf(runs[0])] + rest)[1..] == rest;
      var clipped := Contents(ClipAll(runs[1..], lo, hi));
      assert ([MapOf(Clip(runs[0], lo, hi))] + clipped)[1..] == clipped;
    }
  }

  lemma NothingClipped(lo: Bound, hi: Bound)
    ensures ClipAll([], lo, hi) == [] && Contents([]) == []
  {
  }

  lemma {:induction false} ContentsConcat(a: Runs, b: Runs)
    ensures Contents(a + b) == Contents(a) + Contents(b)
  {
    hide MapOf;
    var s, t := Contents(a + b), Contents(a) + Contents(b);
    assert |s| == |t|;
    forall i | 0 <= i < |s|
      ensures s[i] == t[i]
    {
    }
  }

  lemma SnapshotsSorted(tables: seq<Source>)
    ensures AllSorted(Snapshots(tables)) && Contents(Snapshots(tables)) == tables
  {
    hide Sorted, MapOf, Snapshot;
    forall i | 0 <= i < |tables|
      ensures Sorted(Snapshots(tables)[i]) && Contents(Snapshots(tables))[i] == tables[i]
    {
      SnapshotSorted(tables[i]);
    }
  }

  lemma AllTablesHeld(c: Codec, img: Image, tabs: Tabs, v: Version)
    requires AllHeld(c, img, tabs, NewestFirst(v.tiers))
    ensures AllHeld(c, img, tabs, AllTables(v))
  {
    hide TableHeld, NewestFirst;
    var a, n := AllTables(v), NewestFirst(v.tiers);
    forall i | 0 <= i < |a|
      ensures TableHeld(c, img, tabs, a[i])
    {
      NewestMembers(v.tiers, a[i]);
      var j :| 0 <= j < |n| && n[j] == a[i];
      assert TableHeld(c, img, tabs, n[j]);
    }
  }

  lemma SameTableSources(tabs: Tabs, v: Version)
    ensures forall s :: s in SourcesOf(tabs, AllTables(v)) <==> s in SourcesOf(tabs, NewestFirst(v.tiers))
  {
    hide SourceOf, NewestFirst;
    var a, n := AllTables(v), NewestFirst(v.tiers);
    var p, q := SourcesOf(tabs, a), SourcesOf(tabs, n);
    forall s
      ensures s in p <==> s in q
    {
      if s in p {
        var i :| 0 <= i < |p| && p[i] == s;
        NewestMembers(v.tiers, a[i]);
        var j :| 0 <= j < |n| && n[j] == a[i];
        assert q[j] == s;
      }
      if s in q {
        var j :| 0 <= j < |q| && q[j] == s;
        NewestMembers(v.tiers, n[j]);
        var i :| 0 <= i < |a| && a[i] == n[j];
        assert p[i] == s;
      }
    }
  }

  /** What a scan merges: every source, in an order of its own. */
  function ScanSources(e: Engine, d: OnDisk): seq<Source> {
    [e.active] + e.frozen + SourcesOf(d.tabs, AllTables(d.version))
  }

  lemma ScanSourcesSame(e: Engine, d: OnDisk)
    ensures forall s :: s in MemorySources(e) + TablesOf(d) <==> s in ScanSources(e, d)
  {
    hide NewestFirst, SourcesOf, AllTables;
    ReversedMembers(e.frozen);
    SameTableSources(d.tabs, d.version);
  }

  /** A lookup passes over a table exactly if the key is below its first entry or above its last. */
  lemma PassedOverIff(id: nat, es: seq<Record>, key: Bytes)
    requires es != []
    ensures !KeyInRange(MetaOf(id, es), key) <==> Less(key, es[0].key) || Less(es[|es| - 1].key, key)
  {
    LessTotal(es[0].key, key);
    LessTotal(key, es[|es| - 1].key);
    if Less(key, es[0].key) { LessAsymmetric(key, es[0].key); }
    if Less(es[|es| - 1].key, key) { LessAsymmetric(es[|es| - 1].key, key); }
  }

  /** What the two bounds ask of a key: at an included end the end itself is in, at an excluded one it is out. */
  lemma BoundsMean(lo: Bound, hi: Bound, k: Bytes)
    ensures InRange(lo, hi, k) <==>
      && (lo.Included? ==> k == lo.key || Less(lo.key, k)) && (lo.Excluded? ==> Less(lo.key, k))
      && (hi.Included? ==> k == hi.key || Less(k, hi.key)) && (hi.Excluded? ==> Less(k, hi.key))
  {
  }

  /** `scan` yields, in ascending key order, exactly the map's entries between the bounds; so it agrees with `get`. */
  lemma ScanOfCorrect(cfg: Config, e: Engine, img: Image, d: OnDisk, kv: KV, lo: Bound, hi: Bound)
    requires Running(cfg, e, img, d, kv)
    ensures ScanOf(cfg, e, lo, hi).Some?
    ensures var r := ScanOf(cfg, e, lo, hi).value;
      && (forall i, j :: 0 <= i < j < |r| ==> Less(r[i].0, r[j].0))
      && (forall k, b :: (k, b) in r <==>
            && (lo.Included? ==> k == lo.key || Less(lo.key, k)) && (lo.Excluded? ==> Less(lo.key, k))
            && (hi.Included? ==> k == hi.key || Less(k, hi.key)) && (hi.Excluded? ==> Less(k, hi.key))
            && k in kv && kv[k] == b)
  {
    hide AllHeld, SettledFs, LogOpen, SeqsNew, NewestFirst, SourcesOf, MemorySources, FreshIds, ReadTables, Merged, Sorted, InRange,
      LiveOf, Contents, ClipAll, Snapshots, AllTables, RunsOf, Recent, AllSorted;
    AllTablesHeld(cfg.codec, img, d.tabs, d.version);
    ReadTablesHeld(cfg.codec, img, d.tabs, AllTables(d.version));
    RunsSorted(cfg.codec, img, d.tabs, AllTables(d.version));
    SnapshotsSorted([e.active] + e.frozen);
    var mem, tab := Snapshots([e.active] + e.frozen), RunsOf(d.tabs, AllTables(d.version));
    var runs := mem + tab;
    SortedConcat(mem, tab);
    ContentsConcat(mem, tab);
    assert Contents(runs) == ScanSources(e, d);
    ScanSourcesSame(e, d);
    ClipNewest(runs, lo, hi, []);
    var clipped := ClipAll(runs, lo, hi);
    MergedCorrect(clipped);
    LiveOfSorted(Merged(clipped));
    forall k, b
      ensures (k, b) in LiveOf(Merged(clipped)) <==>
        && (lo.Included? ==> k == lo.key || Less(lo.key, k)) && (lo.Excluded? ==> Less(lo.key, k))
        && (hi.Included? ==> k == hi.key || Less(k, hi.key)) && (hi.Excluded? ==> Less(k, hi.key))
        && k in kv && kv[k] == b
    {
      BoundsMean(lo, hi, k);
      ScanCorrect(clipped, k, b);
      ClipNewest(runs, lo, hi, k);
      NewestAnyOrder(MemorySources(e) + TablesOf(d), ScanSources(e, d), k);
      assert Visible(Lookup(MemorySources(e) + TablesOf(d), k)) == ValueIn(kv, k);
    }
  }

  lemma SortedConcat(a: Runs, b: Runs)
    requires AllSorted(a) && AllSorted(b)
    ensures AllSorted(a + b)
  {
    hide Sorted;
  }
}
