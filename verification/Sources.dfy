// Resolving a key across a stack of sources: by position (the first source that
// has it, as a point lookup does) and by sequence number (as a merge does).

module Sources {
  import opened Wrappers
  import opened ByteStrings
  import opened Versions

  /** The first source that mentions the key decides. */
  function Lookup(sources: seq<Source>, key: Bytes): Option<InternalValue> {
    if sources == [] then None
    else if key in sources[0] then Some(sources[0][key])
    else Lookup(sources[1..], key)
  }

  /** The version with the largest sequence number decides; among equals, the earliest source. */
  function Newest(sources: seq<Source>, key: Bytes): Option<InternalValue> {
    if sources == [] then None
    else
      var rest := Newest(sources[1..], key);
      if key in sources[0] && (rest.None? || sources[0][key].stamp >= rest.value.stamp)
      then Some(sources[0][key]) else rest
  }

  predicate Supersedes(a: InternalValue, b: InternalValue) { a.stamp > b.stamp || a == b }

  /** The recency invariant: of two sources that mention a key, the earlier holds the newer
      version, or both hold the same record. */
  ghost predicate Recent(sources: seq<Source>) {
    forall i, j :: 0 <= i < j < |sources| ==> Over(sources[i], sources[j])
  }

  ghost predicate Over(a: Source, b: Source) {
    forall k :: k in a && k in b ==> Supersedes(a[k], b[k])
  }

  /** What a reader of the key gets to see: its bytes, unless deleted or absent. */
  function Visible(found: Option<InternalValue>): Option<Bytes> {
    if found.Some? && found.value.kind.Value? then Some(found.value.kind.bytes) else None
  }

  // -------------------------------------------------------------- basic facts

  lemma {:induction false} LookupConcat(a: seq<Source>, b: seq<Source>, key: Bytes)
    ensures Lookup(a + b, key) == if Lookup(a, key).Some? then Lookup(a, key) else Lookup(b, key)
  {
    if a == [] {
      assert a + b == b;
    } else {
      assert (a + b)[1..] == a[1..] + b;
      LookupConcat(a[1..], b, key);
    }
  }

  /** Where a position-based lookup hits. */
  lemma {:induction false} LookupHit(sources: seq<Source>, key: Bytes) returns (i: nat)
    requires Lookup(sources, key).Some?
    ensures i < |sources| && key in sources[i] && Lookup(sources, key) == Some(sources[i][key])
    ensures forall j :: 0 <= j < i ==> key !in sources[j]
  {
    if key in sources[0] {
      i := 0;
    } else {
      var j := LookupHit(sources[1..], key);
      i := j + 1;
    }
  }

  lemma {:induction false} LookupMiss(sources: seq<Source>, key: Bytes)
    ensures Lookup(sources, key).None? <==> forall i :: 0 <= i < |sources| ==> key !in sources[i]
  {
    if sources != [] {
      LookupMiss(sources[1..], key);
      if Lookup(sources, key).None? {
        forall i | 0 <= i < |sources|
          ensures key !in sources[i]
        {
          if i > 0 { assert sources[i] == sources[1..][i - 1]; }
        }
      } else if key !in sources[0] {
        var i :| 0 <= i < |sources[1..]| && key in sources[1..][i];
        assert key in sources[i + 1];
      }
    }
  }

  /** A version found somewhere that supersedes every version found anywhere is the merge's winner. */
  lemma {:induction false} NewestIs(sources: seq<Source>, key: Bytes, v: InternalValue)
    requires exists i :: 0 <= i < |sources| && key in sources[i] && sources[i][key] == v
    requires forall i :: 0 <= i < |sources| && key in sources[i] ==> Supersedes(v, sources[i][key])
    ensures Newest(sources, key) == Some(v)
  {
    var rest := sources[1..];
    assert forall i :: 0 <= i < |rest| ==> rest[i] == sources[i + 1];
    assert forall i :: 1 <= i < |sources| ==> sources[i] == rest[i - 1];
    if exists i :: 0 <= i < |rest| && key in rest[i] && rest[i][key] == v {
      NewestIs(rest, key, v);
    } else {
      var i :| 0 <= i < |sources| && key in sources[i] && sources[i][key] == v;
      assert i == 0;
      NewestOccurs(rest, key);
      if Newest(rest, key).Some? {
        var j :| 0 <= j < |rest| && key in rest[j] && rest[j][key] == Newest(rest, key).value;
        assert Supersedes(v, sources[j + 1][key]);
      }
    }
  }

  lemma {:induction false} NewestOccurs(sources: seq<Source>, key: Bytes)
    ensures Newest(sources, key).Some? ==>
              exists i :: 0 <= i < |sources| && key in sources[i] && sources[i][key] == Newest(sources, key).value
    ensures Newest(sources, key).None? <==> forall i :: 0 <= i < |sources| ==> key !in sources[i]
  {
    if sources != [] {
      var rest := sources[1..];
      assert forall i :: 0 <= i < |rest| ==> rest[i] == sources[i + 1];
      NewestOccurs(rest, key);
      if Newest(rest, key).Some? {
        var j :| 0 <= j < |rest| && key in rest[j] && rest[j][key] == Newest(rest, key).value;
        assert key in sources[j + 1];
      }
      if Newest(sources, key).None? {
        forall i | 0 <= i < |sources|
          ensures key !in sources[i]
        {
          if i > 0 { assert sources[i] == rest[i - 1]; }
        }
      }
    }
  }

  /** The largest sequence number found for a key. */
  lemma {:induction false} NewestIsLargest(sources: seq<Source>, key: Bytes, i: nat)
    requires i < |sources| && key in sources[i]
    ensures Newest(sources, key).Some? && Newest(sources, key).value.stamp >= sources[i][key].stamp
  {
    if i > 0 { NewestIsLargest(sources[1..], key, i - 1); }
  }

  // ------------------------------------------------------ the two ways agree

  /** Under the recency invariant a position-based lookup finds the largest sequence number. */
  lemma PositionIsNewest(sources: seq<Source>, key: Bytes)
    requires Recent(sources)
    ensures Lookup(sources, key) == Newest(sources, key)
  {
    LookupMiss(sources, key);
    NewestOccurs(sources, key);
    if Lookup(sources, key).Some? {
      var i := LookupHit(sources, key);
      forall j | 0 <= j < |sources| && key in sources[j]
        ensures Supersedes(sources[i][key], sources[j][key])
      {
        if i < j { assert Over(sources[i], sources[j]); }
      }
      NewestIs(sources, key, sources[i][key]);
    }
  }

  /** A merge that sees the same sources in any other order finds the same version. */
  lemma NewestAnyOrder(sources: seq<Source>, shuffled: seq<Source>, key: Bytes)
    requires Recent(sources)
    requires forall s :: s in sources <==> s in shuffled
    ensures Newest(shuffled, key) == Lookup(sources, key)
  {
    NewestOccurs(shuffled, key);
    LookupMiss(sources, key);
    if Lookup(sources, key).Some? {
      var i := LookupHit(sources, key);
      var v := sources[i][key];
      assert sources[i] in shuffled;
      forall j | 0 <= j < |shuffled| && key in shuffled[j]
        ensures Supersedes(v, shuffled[j][key])
      {
        assert shuffled[j] in sources;
        var m :| 0 <= m < |sources| && sources[m] == shuffled[j];
        if i < m { assert Over(sources[i], sources[m]); }
      }
      NewestIs(shuffled, key, v);
    } else {
      forall i | 0 <= i < |shuffled|
        ensures key !in shuffled[i]
      {
        assert shuffled[i] in sources;
      }
    }
  }

  // ---------------------------------------------- replacing a block of sources

  /** `merged` is what a compaction writes in place of `block`: every key's newest version,
      except that deletions may be left out when nothing lies below. */
  ghost predicate MergeOf(block: seq<Source>, merged: Source, dropDeletes: bool) {
    forall k ::
      (if k in merged then Newest(block, k) == Some(merged[k])
       else Newest(block, k).None? || (dropDeletes && Newest(block, k).value.kind == Tombstone))
  }

  /** Compaction preserves meaning: with the block replaced by its merge, every key stays
      visible as before. */
  lemma MergePreservesVisible(above: seq<Source>, block: seq<Source>, below: seq<Source>, merged: Source,
                              dropDeletes: bool, key: Bytes)
    requires Recent(above + block + below) && MergeOf(block, merged, dropDeletes)
    requires dropDeletes ==> below == []
    ensures Visible(Lookup(above + [merged] + below, key)) == Visible(Lookup(above + block + below, key))
    ensures !dropDeletes ==> Lookup(above + [merged] + below, key) == Lookup(above + block + below, key)
  {
    BlockRecent(above, block, below);
    LookupConcat(above + block, below, key);
    LookupConcat(above, block, key);
    LookupConcat(above + [merged], below, key);
    LookupConcat(above, [merged], key);
    PositionIsNewest(block, key);
    assert [merged][1..] == [];
    if key in merged {
      assert Newest(block, key) == Some(merged[key]);
    } else {
      assert Newest(block, key).None? || (dropDeletes && Newest(block, key).value.kind == Tombstone);
    }
  }

  lemma BlockRecent(above: seq<Source>, block: seq<Source>, below: seq<Source>)
    requires Recent(above + block + below)
    ensures Recent(block) && Recent(above) && Recent(below)
    ensures forall a, b :: a in above && b in block ==> Over(a, b)
    ensures forall b, c :: b in block && c in below ==> Over(b, c)
    ensures forall a, c :: a in above && c in below ==> Over(a, c)
  {
    var all := above + block + below;
    forall i, j | 0 <= i < j < |block|
      ensures Over(block[i], block[j])
    {
      assert all[|above| + i] == block[i] && all[|above| + j] == block[j];
    }
    forall i, j | 0 <= i < j < |above|
      ensures Over(above[i], above[j])
    {
      assert all[i] == above[i] && all[j] == above[j];
    }
    var off := |above| + |block|;
    forall i, j | 0 <= i < j < |below|
      ensures Over(below[i], below[j])
    {
      assert all[off + i] == below[i] && all[off + j] == below[j];
    }
    forall i, j | 0 <= i < |above| && 0 <= j < |block|
      ensures Over(above[i], block[j])
    {
      assert all[i] == above[i] && all[|above| + j] == block[j];
    }
    forall i, j | 0 <= i < |block| && 0 <= j < |below|
      ensures Over(block[i], below[j])
    {
      assert all[|above| + i] == block[i] && all[off + j] == below[j];
    }
    forall i, j | 0 <= i < |above| && 0 <= j < |below|
      ensures Over(above[i], below[j])
    {
      assert all[i] == above[i] && all[off + j] == below[j];
    }
  }

  lemma RecentConcat(a: seq<Source>, b: seq<Source>)
    requires Recent(a) && Recent(b) && forall x, y :: x in a && y in b ==> Over(x, y)
    ensures Recent(a + b)
  {
    forall i, j | 0 <= i < j < |a + b|
      ensures Over((a + b)[i], (a + b)[j])
    {
      if j < |a| {
        assert Over(a[i], a[j]);
      } else if i >= |a| {
        assert Over(b[i - |a|], b[j - |a|]);
      } else {
        assert a[i] in a && b[j - |a|] in b;
      }
    }
  }

  /** Compaction keeps the recency invariant. */
  lemma MergeKeepsRecent(above: seq<Source>, block: seq<Source>, below: seq<Source>, merged: Source, dropDeletes: bool)
    requires Recent(above + block + below) && MergeOf(block, merged, dropDeletes)
    ensures Recent(above + [merged] + below)
  {
    BlockRecent(above, block, below);
    forall a | a in above
      ensures Over(a, merged)
    {
      forall k | k in a && k in merged
        ensures Supersedes(a[k], merged[k])
      {
        assert Newest(block, k) == Some(merged[k]);
        NewestOccurs(block, k);
        var i :| 0 <= i < |block| && k in block[i] && block[i][k] == merged[k];
        assert Over(a, block[i]);
      }
    }
    forall c | c in below
      ensures Over(merged, c)
    {
      forall k | k in merged && k in c
        ensures Supersedes(merged[k], c[k])
      {
        assert Newest(block, k) == Some(merged[k]);
        NewestOccurs(block, k);
        var i :| 0 <= i < |block| && k in block[i] && block[i][k] == merged[k];
        assert Over(block[i], c);
      }
    }
    RecentConcat(above, [merged]);
    RecentConcat(above + [merged], below);
  }

  /** Taking a source away keeps the invariant. */
  lemma RecentSkip(above: seq<Source>, block: seq<Source>, below: seq<Source>)
    requires Recent(above + block + below)
    ensures Recent(above + below)
  {
    BlockRecent(above, block, below);
    RecentConcat(above, below);
  }
}
