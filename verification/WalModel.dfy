// The write-ahead log as recovery sees it: records in frames in numbered segments.

module WalModel {
  import opened Wrappers
  import opened ByteStrings
  import opened Seqs
  import opened Versions
  import opened Sim
  import opened FsView
  import opened Frame
  import opened Scan
  import opened RecordFormat
  import opened Protocols

  // ----------------------------------------------------------- listing by id

  predicate Ascends(s: seq<nat>) { forall i, j :: 0 <= i < j < |s| ==> s[i] < s[j] }

  ghost predicate IsLeast(ids: set<nat>, m: nat) { m in ids && forall i :: i in ids ==> m <= i }

  lemma {:induction false} LeastExists(ids: set<nat>)
    requires ids != {}
    ensures exists m :: IsLeast(ids, m)
    decreases |ids|
  {
    var x :| x in ids;
    var rest := ids - {x};
    assert forall i :: i in ids ==> i == x || i in rest;
    if rest == {} {
      assert IsLeast(ids, x);
    } else {
      LeastExists(rest);
      var m :| IsLeast(rest, m);
      assert IsLeast(ids, if x < m then x else m);
    }
  }

  ghost function Least(ids: set<nat>): (m: nat)
    requires ids != {}
    ensures IsLeast(ids, m)
  {
    LeastExists(ids);
    var m :| IsLeast(ids, m);
    m
  }

  /** The elements of a set of ids, smallest first: what a sorted directory listing yields. */
  ghost function Ascending(ids: set<nat>): seq<nat>
    decreases |ids|
  {
    if ids == {} then [] else [Least(ids)] + Ascending(ids - {Least(ids)})
  }

  lemma {:induction false} AscendingLists(ids: set<nat>)
    ensures Ascends(Ascending(ids))
    ensures forall i :: i in Ascending(ids) <==> i in ids
    decreases |ids|
  {
    if ids != {} {
      var m := Least(ids);
      var s, t := Ascending(ids), Ascending(ids - {m});
      AscendingLists(ids - {m});
      assert s == [m] + t;
      forall i, j | 0 <= i < j < |s|
        ensures s[i] < s[j]
      {
        assert s[j] == t[j - 1] && t[j - 1] in t;
        if i > 0 { assert s[i] == t[i - 1]; }
      }
    }
  }

  lemma {:induction false} AscendingUnique(a: seq<nat>, b: seq<nat>)
    requires Ascends(a) && Ascends(b) && forall i :: i in a <==> i in b
    ensures a == b
  {
    if a != [] && b != [] {
      assert a[0] in b && b[0] in a;
      assert a[0] == b[0];
      forall i
        ensures i in a[1..] <==> i in b[1..]
      {
        TailMembers(a, i);
        TailMembers(b, i);
      }
      AscendingUnique(a[1..], b[1..]);
      assert a == [a[0]] + a[1..] && b == [b[0]] + b[1..];
    } else {
      SameEmptiness(a, b);
    }
  }

  lemma TailMembers(a: seq<nat>, i: nat)
    requires Ascends(a) && a != []
    ensures i in a[1..] <==> i in a && i != a[0]
  {
  }

  lemma SameEmptiness(a: seq<nat>, b: seq<nat>)
    requires forall i :: i in a <==> i in b
    ensures a == [] <==> b == []
  {
    if a != [] { assert a[0] in b; }
    if b != [] { assert b[0] in a; }
  }

  function SegmentIds(names: set<Name>): set<nat> { set n | n in names && n.Segment? :: n.id }

  lemma SegmentIdIn(names: set<Name>, id: nat)
    ensures id in SegmentIds(names) <==> Segment(id) in names
  {
    if Segment(id) in names { assert Segment(id).id == id; }
  }

  // ---------------------------------------------------------------- recovery

  datatype Recovered = Recovered(records: seq<Bytes>, tailSegment: Option<nat>, tailValidLen: nat, reason: StopReason)

  /** `recover` over the listed segments: clean ones in full, then the clean prefix of the first that is not. */
  function RecoverOver(crc: Checksum, img: Image, ids: seq<nat>): Recovered
    requires forall i :: i in ids ==> Segment(i) in img
    decreases |ids|
  {
    if ids == [] then Recovered([], None, 0, Clean)
    else
      var s := ScanOf(crc, img[Segment(ids[0])]);
      if s.reason != Clean || |ids| == 1 then Recovered(s.records, Some(ids[0]), s.validLen, s.reason)
      else
        var rest := RecoverOver(crc, img, ids[1..]);
        rest.(records := s.records + rest.records)
  }

  lemma NoneListed(crc: Checksum, img: Image)
    ensures RecoverOver(crc, img, []) == Recovered([], None, 0, Clean)
  {
  }

  ghost function Recover(crc: Checksum, img: Image): Recovered {
    ListedExist(img);
    RecoverOver(crc, img, Ascending(SegmentIds(img.Keys)))
  }

  lemma ListedExist(img: Image)
    ensures forall i :: i in Ascending(SegmentIds(img.Keys)) ==> Segment(i) in img
  {
    AscendingLists(SegmentIds(img.Keys));
    forall i | i in Ascending(SegmentIds(img.Keys))
      ensures Segment(i) in img
    {
      SegmentIdIn(img.Keys, i);
    }
  }

  // --------------------------------------------------------- what the log holds

  /** The log's segments by id, each with the records it holds. */
  datatype Log = Log(ids: seq<nat>, parts: seq<seq<Record>>)

  function LogRecords(l: Log): seq<Record> { Flatten(l.parts) }

  predicate LogShape(l: Log) { Ascends(l.ids) && |l.ids| == |l.parts| }

  /** Every segment but the last is exactly its frames. */
  ghost predicate FullSegments(crc: Checksum, img: Image, l: Log)
    requires LogShape(l)
  {
    forall i :: 0 <= i < |l.ids| - 1 ==> SegmentIs(crc, img, l.ids[i], l.parts[i])
  }

  predicate SegmentIs(crc: Checksum, img: Image, id: nat, part: seq<Record>) {
    Segment(id) in img && img[Segment(id)] == Frames(crc, EncodeRecords(part))
  }

  /** A segment whose scan yields the part, possibly with a torn tail behind it. */
  predicate SegmentScans(crc: Checksum, img: Image, id: nat, part: seq<Record>) {
    Segment(id) in img && ScanOf(crc, img[Segment(id)]).records == EncodeRecords(part)
  }

  ghost predicate LogIn(crc: Checksum, img: Image, l: Log) {
    && LogShape(l)
    && (forall i :: i in l.ids <==> Segment(i) in img)
    && FullSegments(crc, img, l)
    && (l.ids != [] ==> SegmentScans(crc, img, l.ids[|l.ids| - 1], l.parts[|l.ids| - 1]))
    && RecordsFit(LogRecords(l))
  }

  /** The log ends cleanly: its last segment is exactly its frames. */
  ghost predicate LogClean(crc: Checksum, img: Image, l: Log) {
    LogIn(crc, img, l) && l.ids != [] && SegmentIs(crc, img, l.ids[|l.ids| - 1], l.parts[|l.ids| - 1])
  }

  lemma {:induction false} PartsFit(l: Log, i: nat)
    requires RecordsFit(Flatten(l.parts)) && i < |l.parts|
    ensures RecordsFit(l.parts[i])
    decreases |l.parts|
  {
    var all := Flatten(l.parts);
    if i == 0 {
      assert forall j :: 0 <= j < |l.parts[0]| ==> l.parts[0][j] == all[j];
    } else {
      var l' := Log([], l.parts[1..]);
      assert forall j :: 0 <= j < |Flatten(l'.parts)| ==> Flatten(l'.parts)[j] == all[j + |l.parts[0]|];
      PartsFit(l', i - 1);
    }
  }

  lemma ListingIsLog(img: Image, l: Log)
    requires LogShape(l) && forall i :: i in l.ids <==> Segment(i) in img
    ensures Ascending(SegmentIds(img.Keys)) == l.ids
  {
    AscendingLists(SegmentIds(img.Keys));
    forall i
      ensures i in Ascending(SegmentIds(img.Keys)) <==> i in l.ids
    {
      SegmentIdIn(img.Keys, i);
    }
    AscendingUnique(Ascending(SegmentIds(img.Keys)), l.ids);
  }

  /** The records of the log from segment `k` on, and how its last segment ended. */
  function WholeLog(crc: Checksum, img: Image, l: Log, k: nat): Recovered
    requires k < |l.ids| == |l.parts| && Segment(l.ids[|l.ids| - 1]) in img
  {
    var s := ScanOf(crc, img[Segment(l.ids[|l.ids| - 1])]);
    Recovered(EncodeRecords(Flatten(l.parts[k..])), Some(l.ids[|l.ids| - 1]), s.validLen, s.reason)
  }

  lemma {:induction false} RecoverFrom(crc: Checksum, img: Image, l: Log, k: nat)
    requires LogIn(crc, img, l) && k < |l.ids|
    ensures RecoverOver(crc, img, l.ids[k..]) == WholeLog(crc, img, l, k)
    decreases |l.ids| - k
  {
    hide ScanOf, Frames, RecordFits, EncodeRecord, Encode;
    var last := |l.ids| - 1;
    assert forall i :: i in l.ids[k..] ==> i in l.ids;
    if k == last {
      assert l.parts[k..] == [l.parts[last]];
      FlattenSingle(l.parts[last]);
      assert |l.ids[k..]| == 1;
      assert SegmentScans(crc, img, l.ids[last], l.parts[last]);
    } else {
      PartsFit(l, k);
      RecordsRoundTrip(l.parts[k]);
      ScanClean(crc, EncodeRecords(l.parts[k]));
      assert SegmentIs(crc, img, l.ids[k], l.parts[k]);
      RecoverFrom(crc, img, l, k + 1);
      assert l.ids[k..][1..] == l.ids[k + 1..];
      assert l.parts[k..][1..] == l.parts[k + 1..];
      EncodeConcat(l.parts[k], Flatten(l.parts[k + 1..]));
    }
  }

  /** Recovery yields exactly the log's records, and points at its last segment. */
  lemma RecoverYieldsLog(crc: Checksum, img: Image, l: Log)
    requires LogIn(crc, img, l)
    ensures Recover(crc, img).records == EncodeRecords(LogRecords(l))
    ensures DecodeRecords(Recover(crc, img).records) == Some(LogRecords(l))
    ensures l.ids == [] ==> Recover(crc, img) == Recovered([], None, 0, Clean)
    ensures l.ids != [] ==>
              var s := ScanOf(crc, img[Segment(l.ids[|l.ids| - 1])]);
              Recover(crc, img).tailSegment == Some(l.ids[|l.ids| - 1])
              && Recover(crc, img).tailValidLen == s.validLen && Recover(crc, img).reason == s.reason
  {
    hide ScanOf, Frames, RecordFits, Ascending;
    ListingIsLog(img, l);
    RecordsRoundTrip(LogRecords(l));
    if l.ids != [] {
      RecoverFrom(crc, img, l, 0);
      assert l.ids[0..] == l.ids && l.parts[0..] == l.parts;
    }
  }

  // ----------------------------------------------------- how the log may change

  function SetLast<T>(s: seq<T>, x: T): seq<T>
    requires s != []
  {
    s[|s| - 1 := x]
  }

  lemma FlattenSetLast<T>(parts: seq<seq<T>>, more: seq<T>)
    requires parts != []
    ensures Flatten(SetLast(parts, parts[|parts| - 1] + more)) == Flatten(parts) + more
  {
    var n := |parts| - 1;
    assert parts == parts[..n] + [parts[n]];
    FlattenConcat(parts[..n], [parts[n]]);
    FlattenConcat(parts[..n], [parts[n] + more]);
    FlattenSingle(parts[n]);
    FlattenSingle(parts[n] + more);
    assert SetLast(parts, parts[n] + more) == parts[..n] + [parts[n] + more];
  }

  /** The log with one more record at its end. */
  function Appended(l: Log, r: Record): Log
    requires LogShape(l) && l.ids != []
  {
    l.(parts := SetLast(l.parts, l.parts[|l.parts| - 1] + [r]))
  }

  lemma AppendedRecords(l: Log, r: Record)
    requires LogShape(l) && l.ids != []
    ensures LogRecords(Appended(l, r)) == LogRecords(l) + [r]
  {
    FlattenSetLast(l.parts, [r]);
  }

  /** Replacing the last segment's bytes by bytes that scan to `part`. */
  lemma LastReplaced(crc: Checksum, img: Image, l: Log, bytes: Bytes, part: seq<Record>)
    requires LogIn(crc, img, l) && l.ids != []
    requires ScanOf(crc, bytes).records == EncodeRecords(part)
    requires RecordsFit(Flatten(SetLast(l.parts, part)))
    ensures LogIn(crc, img[Segment(l.ids[|l.ids| - 1]) := bytes], l.(parts := SetLast(l.parts, part)))
  {
    hide ScanOf, Frames, EncodeRecords, Flatten;
    var last := |l.ids| - 1;
    var img' := img[Segment(l.ids[last]) := bytes];
    var l' := l.(parts := SetLast(l.parts, part));
    forall i | 0 <= i < last
      ensures SegmentIs(crc, img', l'.ids[i], l'.parts[i])
    {
      assert SegmentIs(crc, img, l.ids[i], l.parts[i]);
      assert l.ids[i] < l.ids[last];
    }
  }

  lemma KeptLast<T>(parts: seq<T>)
    requires parts != []
    ensures SetLast(parts, parts[|parts| - 1]) == parts
  {
  }

  lemma RecordsFitSnoc(rs: seq<Record>, r: Record)
    requires RecordsFit(rs) && RecordFits(r)
    ensures RecordsFit(rs + [r])
  {
  }

  /** A frame written whole is one more record, in a clean log. */
  lemma FrameAppended(crc: Checksum, img: Image, l: Log, r: Record)
    requires LogClean(crc, img, l) && RecordFits(r)
    ensures var seg := Segment(l.ids[|l.ids| - 1]);
            LogClean(crc, img[seg := img[seg] + Encode(crc, EncodeRecord(r))], Appended(l, r))
  {
    hide ScanOf, RecordFits, Flatten, Encode, Frames, EncodeRecords, EncodeRecord;
    var last := |l.ids| - 1;
    var seg := Segment(l.ids[last]);
    var part := l.parts[last];
    var bytes := img[seg] + Encode(crc, EncodeRecord(r));
    PartsFit(l, last);
    RecordsFitSnoc(part, r);
    EncodeOne(part, r);
    FramesAppend(crc, EncodeRecords(part), [EncodeRecord(r)]);
    FramesOne(crc, EncodeRecord(r));
    PayloadFits(r);
    assert SegmentIs(crc, img, l.ids[last], part);
    RecordsRoundTrip(part + [r]);
    ScanClean(crc, EncodeRecords(part + [r]));
    AppendedRecords(l, r);
    RecordsFitSnoc(LogRecords(l), r);
    LastReplaced(crc, img, l, bytes, part + [r]);
  }

  lemma EncodeOne(part: seq<Record>, r: Record)
    ensures EncodeRecords(part + [r]) == EncodeRecords(part) + [EncodeRecord(r)]
  {
    EncodeConcat(part, [r]);
    assert EncodeRecords([r][1..]) == [];
    assert EncodeRecords([r]) == [EncodeRecord(r)];
  }

  /** A frame of this payload torn like this is not taken for another frame. Losing part of it never is; a
      flipped bit escapes in exactly the case `Frame.FlipDetected` describes. */
  predicate TearNoticed(crc: Checksum, payload: Bytes, tear: Tear) {
    tear.BitFlip? && tear.bit < 8 * |Encode(crc, payload)| ==>
      Decode(crc, FlipAt(Encode(crc, payload), tear.bit), 0).Err?
  }

  /** A torn frame leaves the log as it was, or completes the record. */
  lemma FrameTorn(crc: Checksum, img: Image, l: Log, r: Record, tear: Tear)
    requires LogClean(crc, img, l) && RecordFits(r) && TearNoticed(crc, EncodeRecord(r), tear)
    requires TearFits(|Encode(crc, EncodeRecord(r))|, tear)
    ensures var seg := Segment(l.ids[|l.ids| - 1]);
            var img' := img[seg := img[seg] + Sim.TornTail(Encode(crc, EncodeRecord(r)), tear)];
            LogIn(crc, img', l) || LogIn(crc, img', Appended(l, r))
  {
    hide ScanOf, RecordFits, RecordsFit, Flatten, Encode, Frames, EncodeRecords, EncodeRecord, Sim.TornTail, FlipAt,
      TearNoticed, FullSegments;
    var last := |l.ids| - 1;
    var seg := Segment(l.ids[last]);
    var part := l.parts[last];
    var frame := Encode(crc, EncodeRecord(r));
    PartsFit(l, last);
    RecordsFitSnoc(part, r);
    RecordsRoundTrip(part);
    EncodeOne(part, r);
    AppendedRecords(l, r);
    RecordsFitSnoc(LogRecords(l), r);
    KeptLast(l.parts);
    PayloadFits(r);
    TearScan(crc, EncodeRecords(part), EncodeRecord(r), tear);
    var torn := Sim.TornTail(frame, tear);
    var s := ScanOf(crc, img[seg] + torn);
    if s.records == EncodeRecords(part) {
      LastReplaced(crc, img, l, img[seg] + torn, part);
    } else {
      LastReplaced(crc, img, l, img[seg] + torn, part + [r]);
    }
  }

  lemma PayloadFits(r: Record)
    requires RecordFits(r)
    ensures Frame.Fits(EncodeRecord(r))
  {
  }

  lemma TearScan(crc: Checksum, ps: seq<Bytes>, p: Bytes, tear: Tear)
    requires AllFit(ps) && Frame.Fits(p) && TearNoticed(crc, p, tear) && TearFits(|Encode(crc, p)|, tear)
    ensures ScanOf(crc, Frames(crc, ps) + Sim.TornTail(Encode(crc, p), tear)).records in {ps, ps + [p]}
  {
    hide ScanOf, Frames, Encode, FlipAt, Decode;
    match tear
    case Drop =>
      ScanClean(crc, ps);
      assert Frames(crc, ps) + [] == Frames(crc, ps);
    case Truncate(keep) => TornAppend(crc, ps, p, keep);
    case BitFlip(bit) => FlippedAppend(crc, ps, p, bit);
  }

  lemma EmptySegment(crc: Checksum)
    ensures EncodeRecords([]) == [] && Frames(crc, []) == [] && ScanOf(crc, []) == Scanned([], 0, Clean)
  {
  }

  /** A fresh, empty segment with a larger id. */
  lemma SegmentAdded(crc: Checksum, img: Image, l: Log, id: nat)
    requires LogClean(crc, img, l) || (LogIn(crc, img, l) && l.ids == [])
    requires forall i :: i in l.ids ==> i < id
    ensures LogClean(crc, img[Segment(id) := []], Log(l.ids + [id], l.parts + [[]]))
    ensures LogRecords(Log(l.ids + [id], l.parts + [[]])) == LogRecords(l)
  {
    hide RecordFits, ScanOf, Frames, EncodeRecords, Flatten, RecordsFit;
    var l' := Log(l.ids + [id], l.parts + [[]]);
    var img' := img[Segment(id) := []];
    FlattenConcat(l.parts, [[]]);
    FlattenSingle<Record>([]);
    assert LogRecords(l) + [] == LogRecords(l);
    EmptySegment(crc);
    LargerAscends(l.ids, id);
    assert SegmentIs(crc, img', id, []);
    var last := |l.ids| - 1;
    assert last >= 0 ==> SegmentIs(crc, img, l.ids[last], l.parts[last]);
    forall i | 0 <= i < |l.ids|
      ensures SegmentIs(crc, img', l'.ids[i], l'.parts[i])
    {
      assert SegmentIs(crc, img, l.ids[i], l.parts[i]);
      assert l.ids[i] in l.ids;
    }
    assert FullSegments(crc, img', l');
  }

  lemma LargerAscends(ids: seq<nat>, id: nat)
    requires Ascends(ids) && forall i :: i in ids ==> i < id
    ensures Ascends(ids + [id]) && forall i :: i in ids + [id] <==> i in ids || i == id
  {
    var s := ids + [id];
    forall i, j | 0 <= i < j < |s|
      ensures s[i] < s[j]
    {
      assert s[i] == ids[i] && ids[i] in ids;
    }
  }

  /** Other files do not matter to the log. */
  lemma LogElsewhere(crc: Checksum, img: Image, img': Image, l: Log)
    requires LogIn(crc, img, l)
    requires forall i :: Segment(i) in img <==> Segment(i) in img'
    requires forall i :: Segment(i) in img ==> img'[Segment(i)] == img[Segment(i)]
    ensures LogIn(crc, img', l)
    ensures LogClean(crc, img, l) ==> LogClean(crc, img', l)
  {
    hide ScanOf, Frames, EncodeRecords, RecordFits;
    forall i | 0 <= i < |l.ids| - 1
      ensures SegmentIs(crc, img', l.ids[i], l.parts[i])
    {
      assert SegmentIs(crc, img, l.ids[i], l.parts[i]);
    }
  }

  /** Only the newest segment is left, empty. */
  lemma OldSegmentsGone(crc: Checksum, img: Image, l: Log)
    requires LogClean(crc, img, l) && l.parts[|l.parts| - 1] == []
    ensures var id := l.ids[|l.ids| - 1];
            LogClean(crc, Remove(img, SegmentNames(l.ids[..|l.ids| - 1])), Log([id], [[]]))
  {
    hide RecordFits, ScanOf, Frames, EncodeRecords;
    var last := |l.ids| - 1;
    var id := l.ids[last];
    var img' := Remove(img, SegmentNames(l.ids[..last]));
    forall i
      ensures Segment(i) in img' <==> i == id
    {
      SegmentNamed(l.ids[..last], i);
      if Segment(i) in img && i != id {
        var j :| 0 <= j < |l.ids| && l.ids[j] == i;
        assert l.ids[..last][j] == i;
      }
    }
    assert SegmentIs(crc, img, id, []);
    EmptySegment(crc);
    FlattenSingle<Record>([]);
  }

  function SegmentNames(ids: seq<nat>): (names: seq<Name>)
    ensures |names| == |ids|
    ensures forall i :: 0 <= i < |ids| ==> names[i] == Segment(ids[i])
  {
    if ids == [] then [] else [Segment(ids[0])] + SegmentNames(ids[1..])
  }

  lemma SegmentNamed(ids: seq<nat>, i: nat)
    ensures Segment(i) in SegmentNames(ids) <==> i in ids
  {
    var names := SegmentNames(ids);
    if i in ids {
      var j :| 0 <= j < |ids| && ids[j] == i;
      assert names[j] == Segment(i);
    }
    if Segment(i) in names {
      var j :| 0 <= j < |names| && names[j] == Segment(i);
      assert ids[j] == i;
    }
  }

  /** Cutting the last segment back to its valid prefix leaves the same records, in a clean log. */
  lemma TailTruncated(crc: Checksum, img: Image, l: Log)
    requires LogIn(crc, img, l) && l.ids != []
    ensures var seg := Segment(l.ids[|l.ids| - 1]);
            var valid := ScanOf(crc, img[seg]).validLen;
            LogClean(crc, img[seg := img[seg][..valid]], l)
  {
    hide RecordFits, Flatten, ScanOf, Frames, EncodeRecords;
    var last := |l.ids| - 1;
    var seg := Segment(l.ids[last]);
    RepairedScansClean(crc, img[seg]);
    ValidPrefixReencodes(crc, img[seg]);
    KeptLast(l.parts);
    LastReplaced(crc, img, l, img[seg][..ScanOf(crc, img[seg]).validLen], l.parts[last]);
  }

  /** A scan that ended cleanly consumed every byte. */
  lemma {:induction false} CleanConsumesAll(crc: Checksum, buf: Bytes)
    ensures ScanOf(crc, buf).reason == Clean ==> ScanOf(crc, buf).validLen == |buf|
    decreases |buf|
  {
    if buf != [] && Decode(crc, buf, 0).Ok? {
      CleanConsumesAll(crc, buf[Decode(crc, buf, 0).value.totalLen..]);
    }
  }

  lemma CleanScanIsClean(crc: Checksum, img: Image, l: Log)
    requires LogIn(crc, img, l) && l.ids != []
    requires ScanOf(crc, img[Segment(l.ids[|l.ids| - 1])]).validLen == |img[Segment(l.ids[|l.ids| - 1])]|
    ensures LogClean(crc, img, l)
  {
    hide RecordFits, Flatten, ScanOf, Frames, EncodeRecords;
    var seg := Segment(l.ids[|l.ids| - 1]);
    TailTruncated(crc, img, l);
    assert img[seg][..|img[seg]|] == img[seg];
    assert img[seg := img[seg]] == img;
  }
}
