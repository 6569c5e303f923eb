// Group commit down to the segment files: what a power loss at any moment of any run of
// concurrent appends leaves of the log, and what recovery makes of it.

module GroupRecovery {
  import opened Wrappers
  import opened ByteStrings
  import opened Seqs
  import opened Frame
  import opened Scan
  import opened Sim
  import opened FsView
  import opened Protocols
  import opened WalModel
  import opened WalRepair
  import G = GroupCommit

  // ------------------------------------------------------------------- frames

  function FramesOf(crc: Checksum, ps: seq<Bytes>): (fs: seq<Bytes>)
    ensures |fs| == |ps| && forall i :: 0 <= i < |ps| ==> fs[i] == Encode(crc, ps[i])
  {
    seq(|ps|, i requires 0 <= i < |ps| => Encode(crc, ps[i]))
  }

  /** The payload of a frame. */
  function PayloadOf(f: Bytes): Bytes { if HEADER_SZ <= |f| then f[HEADER_SZ..] else [] }

  function PayloadsOf(fs: seq<Bytes>): (ps: seq<Bytes>)
    ensures |ps| == |fs| && forall i :: 0 <= i < |fs| ==> ps[i] == PayloadOf(fs[i])
  {
    seq(|fs|, i requires 0 <= i < |fs| => PayloadOf(fs[i]))
  }

  predicate Genuine(crc: Checksum, fs: seq<Bytes>) {
    forall i :: 0 <= i < |fs| ==> Frame.Fits(PayloadOf(fs[i])) && fs[i] == Encode(crc, PayloadOf(fs[i]))
  }

  lemma {:induction false} JoinedIsFrames(crc: Checksum, fs: seq<Bytes>)
    requires Genuine(crc, fs)
    ensures Joined(fs) == Frames(crc, PayloadsOf(fs)) && AllFit(PayloadsOf(fs))
  {
    hide Encode;
    if fs != [] {
      assert PayloadsOf(fs)[1..] == PayloadsOf(fs[1..]);
      JoinedIsFrames(crc, fs[1..]);
    }
  }

  // ----------------------------------------------------------------- segments

  /** The frames of the log, segment by segment. */
  function Parts(log: seq<Bytes>, cuts: seq<nat>): (parts: seq<seq<Bytes>>)
    requires forall i :: 0 <= i < |cuts| ==> cuts[i] <= |log|
    requires forall i, j :: 0 <= i < j < |cuts| ==> cuts[i] <= cuts[j]
    ensures |parts| == |cuts| + 1 && Flatten(parts) == log
    decreases |cuts|
  {
    if cuts == [] then
      assert Flatten([log]) == log by { FlattenSingle(log); }
      [log]
    else
      var n := cuts[|cuts| - 1];
      var parts := Parts(log[..n], cuts[..|cuts| - 1]) + [log[n..]];
      assert Flatten(parts) == log by {
        FlattenConcat(Parts(log[..n], cuts[..|cuts| - 1]), [log[n..]]);
        FlattenSingle(log[n..]);
      }
      parts
  }

  /** The segment files `ids` hold the parts in order, and behind the last one's frames there is `tail`. */
  ghost predicate FilesHold(img: Image, ids: seq<nat>, parts: seq<seq<Bytes>>, tail: Bytes) {
    && |ids| == |parts| > 0 && Listed(img, ids)
    && (forall i :: 0 <= i < |ids| - 1 ==> Segment(ids[i]) in img && img[Segment(ids[i])] == Joined(parts[i]))
    && img[Segment(ids[|ids| - 1])] == Joined(parts[|ids| - 1]) + tail
  }

  lemma FilesHoldTail(img: Image, ids: seq<nat>, parts: seq<seq<Bytes>>, tail: Bytes)
    requires FilesHold(img, ids, parts, tail) && |ids| > 1
    ensures FilesHold(img, ids[1..], parts[1..], tail)
  {
    ListedTail(img, ids);
    forall i | 0 <= i < |ids[1..]| - 1
      ensures Segment(ids[1..][i]) in img && img[Segment(ids[1..][i])] == Joined(parts[1..][i])
    {
      assert ids[1..][i] == ids[i + 1] && parts[1..][i] == parts[i + 1];
    }
  }

  predicate AllGenuine(crc: Checksum, parts: seq<seq<Bytes>>) { forall i :: 0 <= i < |parts| ==> Genuine(crc, parts[i]) }

  lemma {:induction false} RecoverParts(crc: Checksum, img: Image, ids: seq<nat>, parts: seq<seq<Bytes>>, tail: Bytes)
    requires FilesHold(img, ids, parts, tail) && AllGenuine(crc, parts)
    ensures RecoverOver(crc, img, ids).records == PayloadsOf(Flatten(parts)) + ScanOf(crc, tail).records
    decreases |parts|
  {
    hide ScanOf, Genuine, Joined, Frames;
    var ps := PayloadsOf(parts[0]);
    JoinedIsFrames(crc, parts[0]);
    PayloadsConcat(parts[0], Flatten(parts[1..]));
    if |ids| == 1 {
      ScanFrames(crc, ps, tail);
      assert Flatten(parts[1..]) == [] && parts[0] + [] == parts[0];
    } else {
      ScanClean(crc, ps);
      FilesHoldTail(img, ids, parts, tail);
      RecoverParts(crc, img, ids[1..], parts[1..], tail);
      Assoc(ps, PayloadsOf(Flatten(parts[1..])), ScanOf(crc, tail).records);
    }
  }

  lemma PayloadsConcat(a: seq<Bytes>, b: seq<Bytes>)
    ensures PayloadsOf(a + b) == PayloadsOf(a) + PayloadsOf(b)
  {
  }

  lemma {:induction false} PartsGenuine(crc: Checksum, parts: seq<seq<Bytes>>)
    requires Genuine(crc, Flatten(parts))
    ensures AllGenuine(crc, parts)
  {
    if parts != [] {
      GenuineParts(crc, parts[0], Flatten(parts[1..]));
      PartsGenuine(crc, parts[1..]);
      forall i | 0 <= i < |parts|
        ensures Genuine(crc, parts[i])
      {
        if i > 0 { assert parts[i] == parts[1..][i - 1]; }
      }
    }
  }

  lemma GenuineParts(crc: Checksum, a: seq<Bytes>, b: seq<Bytes>)
    requires Genuine(crc, a + b)
    ensures Genuine(crc, a) && Genuine(crc, b)
  {
    hide PayloadOf, Encode;
    var all := a + b;
    assert forall i :: 0 <= i < |a| ==> a[i] == all[i];
    assert forall i :: 0 <= i < |b| ==> b[i] == all[|a| + i];
  }

  // ------------------------------------------------------------------ the theorem

  /** The image is what a power loss with this tear leaves of the log: whole segments, and the last one with part of
      the unsynced frames. */
  ghost predicate Left(s: G.State, img: Image, ids: seq<nat>, tear: Tear) {
    && G.LogShape(s) && TearFits(|Joined(s.buffered)|, tear)
    && FilesHold(img, ids, Parts(s.durable, s.cuts), Sim.TornTail(Joined(s.buffered), tear))
    && forall i :: Segment(i) in img ==> i in ids
  }

  /** The log on the storage: every segment durably named and synced up to its last frame, and behind the last one's
      the unsynced frames in the buffer. */
  ghost predicate OnStorage(s: G.State, fs: Fs, ids: seq<nat>) {
    && G.LogShape(s) && |ids| == |s.cuts| + 1 && Ascends(ids)
    && (forall i :: Segment(i) in fs.durable <==> i in ids)
    && (forall i :: 0 <= i < |ids| ==>
          fs.durable[Segment(ids[i])] == Content(Joined(Parts(s.durable, s.cuts)[i]), if i < |ids| - 1 then [] else Joined(s.buffered)))
  }

  /** Whatever a power loss does to that storage, it leaves the log with its unsynced frames torn in some way: as the
      tear says, if it hits them, and else gone. */
  lemma PowerLossLeaves(s: G.State, fs: Fs, ids: seq<nat>, torn: Option<Name>, tear: Tear)
    requires OnStorage(s, fs, ids) && TearAllowed(fs, torn, tear)
    ensures Left(s, CrashImage(fs, torn, tear), ids, if torn == Some(Segment(ids[|ids| - 1])) then tear else Drop)
  {
    hide Joined, Parts;
    var img, last, parts := CrashImage(fs, torn, tear), |ids| - 1, Parts(s.durable, s.cuts);
    var t := if torn == Some(Segment(ids[last])) then tear else Drop;
    assert fs.durable[Segment(ids[last])] == Content(Joined(parts[last]), Joined(s.buffered));
    forall i | 0 <= i < |ids| - 1
      ensures img[Segment(ids[i])] == Joined(parts[i])
    {
      assert fs.durable[Segment(ids[i])] == Content(Joined(parts[i]), []);
      if torn == Some(Segment(ids[i])) { NothingTorn(tear); }
      assert ids[i] != ids[last];
    }
    assert Joined(parts[last]) + [] == Joined(parts[last]);
  }

  lemma NothingTorn(tear: Tear)
    requires TearFits(0, tear)
    ensures Sim.TornTail([], tear) == [] && forall b: Bytes :: b + [] == b
  {
  }

  /** The tear does not turn one of the unsynced frames into another. */
  predicate Noticed(crc: Checksum, s: G.State, tear: Tear) {
    var ps := PayloadsOf(s.buffered);
    tear.BitFlip? ==> AllFit(ps) && tear.bit < 8 * |Frames(crc, ps)| && FlipNoticed(crc, ps, tear.bit)
  }

  lemma LogIsGenuine(crc: Checksum, payloads: seq<Bytes>, steps: seq<G.Step>)
    requires AllFit(payloads) && G.Runs(G.Init(FramesOf(crc, payloads)), steps)
    ensures var s := G.After(G.Init(FramesOf(crc, payloads)), steps);
      G.LogShape(s) && Genuine(crc, s.durable) && Genuine(crc, s.buffered)
  {
    hide G.Runs, G.After, G.Inv, Encode;
    var frames := FramesOf(crc, payloads);
    var s := G.After(G.Init(frames), steps);
    G.InitInv(frames);
    G.RunsLogShape(G.Init(frames), steps);
    G.FramesFixed(G.Init(frames), steps);
    forall f | f in s.durable || f in s.buffered
      ensures Frame.Fits(PayloadOf(f)) && f == Encode(crc, PayloadOf(f))
    {
      assert G.HasFrame(s, f);
      var w :| 0 <= w < |s.writers| && s.writers[w].frame == f;
      assert f == Encode(crc, payloads[w]);
      EncodedPayload(crc, payloads[w]);
    }
  }

  lemma EncodedPayload(crc: Checksum, p: Bytes)
    ensures PayloadOf(Encode(crc, p)) == p
  {
  }

  /** Group commit survives power loss: whenever it strikes during any run of any number of concurrent appends, with
      batches failing and retried and segments rolled along the way, recovery yields the synced records in order and
      then a prefix of the unsynced ones, and among them the record of every append that returned success. */
  lemma AppendsSurvive(crc: Checksum, payloads: seq<Bytes>, steps: seq<G.Step>, img: Image, ids: seq<nat>, tear: Tear)
    returns (k: nat)
    requires AllFit(payloads) && G.Runs(G.Init(FramesOf(crc, payloads)), steps)
    requires Left(G.After(G.Init(FramesOf(crc, payloads)), steps), img, ids, tear)
    requires Noticed(crc, G.After(G.Init(FramesOf(crc, payloads)), steps), tear)
    ensures var s, records := G.After(G.Init(FramesOf(crc, payloads)), steps), Recover(crc, img).records;
      && k <= |s.buffered| && records == PayloadsOf(s.durable) + PayloadsOf(s.buffered)[..k]
      && |s.writers| == |payloads|
      && forall w :: 0 <= w < |payloads| && s.writers[w].at.Returned? && s.writers[w].at.ok ==> payloads[w] in records
  {
    hide G.Runs, G.After, G.Contiguous, Encode, Frames, Joined, FlipNoticed, Genuine, RecoverOver, ScanOf, Ascending, Parts, FilesHold;
    var frames := FramesOf(crc, payloads);
    var s := G.After(G.Init(frames), steps);
    LogIsGenuine(crc, payloads, steps);
    G.Safety(frames, steps);
    G.FramesFixed(G.Init(frames), steps);
    var parts := Parts(s.durable, s.cuts);
    var tail := Sim.TornTail(Joined(s.buffered), tear);
    PartsGenuine(crc, parts);
    FilesListed(img, ids, parts, tail);
    RecoverParts(crc, img, ids, parts, tail);
    JoinedIsFrames(crc, s.buffered);
    k := TornBatch(crc, [], PayloadsOf(s.buffered), tear);
    NoFrames(crc, tail);
    forall w | 0 <= w < |payloads| && s.writers[w].at.Returned? && s.writers[w].at.ok
      ensures payloads[w] in PayloadsOf(s.durable)
    {
      EncodedPayload(crc, payloads[w]);
      assert frames[w] in s.durable;
      var i :| 0 <= i < |s.durable| && s.durable[i] == frames[w];
      assert PayloadsOf(s.durable)[i] == payloads[w];
    }
  }

  /** The listing of these files is their ids in order. */
  lemma FilesListed(img: Image, ids: seq<nat>, parts: seq<seq<Bytes>>, tail: Bytes)
    requires FilesHold(img, ids, parts, tail) && forall i :: Segment(i) in img ==> i in ids
    ensures Ascending(SegmentIds(img.Keys)) == ids
  {
    hide Ascending;
    forall i: nat
      ensures i in SegmentIds(img.Keys) <==> i in ids
    {
      SegmentIdIn(img.Keys, i);
    }
    AscendingLists(SegmentIds(img.Keys));
    AscendingUnique(Ascending(SegmentIds(img.Keys)), ids);
  }

  lemma NoFrames(crc: Checksum, tail: Bytes)
    ensures Frames(crc, []) + tail == tail
    ensures forall ps: seq<Bytes> :: [] + ps == ps
  {
  }
}
