// The objects that write and read table files: the builder fills a block in place and
// appends it when it is full; the reader opens a file, looks keys up and iterates.

module TableFiles {
  import opened Wrappers
  import opened ByteStrings
  import opened Parse
  import opened Versions
  import opened SortedRuns
  import opened Sim
  import opened FsView
  import opened Protocols
  import opened Simulator
  import opened TableFormat
  import opened LsmVersion
  import opened EngineModel
  import Bloom

  datatype TableError = Storage(error: StorageError) | CorruptTable | Unsorted

  datatype Summary = Summary(numEntries: nat, firstKey: Option<Bytes>, lastKey: Option<Bytes>, fileLen: nat)

  // ------------------------------------------------------------------ builder

  function FirstKeyOf(es: seq<Record>): Option<Bytes> { if es == [] then None else Some(es[0].key) }

  function LastKeyOf(es: seq<Record>): Option<Bytes> { if es == [] then None else Some(es[|es| - 1].key) }

  lemma {:induction false} BlockChunksSnoc(crc: Checksum, blocks: seq<seq<Record>>, block: seq<Record>)
    ensures BlockChunks(crc, blocks + [block]) == BlockChunks(crc, blocks) + [Sealed(crc, Body(block))]
  {
    if blocks == [] {
      assert blocks + [block] == [block] && [block][1..] == [];
    } else {
      assert (blocks + [block])[1..] == blocks[1..] + [block];
      BlockChunksSnoc(crc, blocks[1..], block);
    }
  }

  lemma HandlesSnoc(crc: Checksum, blocks: seq<seq<Record>>, block: seq<Record>)
    requires forall i :: 0 <= i < |blocks| ==> blocks[i] != []
    requires block != []
    ensures Handles(crc, blocks + [block]) == Handles(crc, blocks) + [Handle(block[0].key, |Data(crc, blocks)|, |Body(block)| + 4)]
  {
    hide Data, Body;
    var all := blocks + [block];
    forall i | 0 <= i < |all|
      ensures Handles(crc, all)[i] == (Handles(crc, blocks) + [Handle(block[0].key, |Data(crc, blocks)|, |Body(block)| + 4)])[i]
    {
      assert all[..i] == blocks[..i];
      if i == |blocks| { assert blocks[..i] == blocks; }
    }
  }

  ghost predicate DoneFull(b: Blocks) { forall i :: 0 <= i < |b.done| ==> b.done[i] != [] }

  /** The operations a builder has issued when these blocks are sealed. */
  function BuilderOps(crc: Checksum, name: Name, done: seq<seq<Record>>): seq<Op> {
    [Op.Create(name)] + AppendAll(name, BlockChunks(crc, done))
  }

  /** What sealing one more block adds to the operations, the data part and the index. */
  lemma SealStep(crc: Checksum, name: Name, blocks: Blocks)
    requires DoneFull(blocks) && blocks.cur != []
    ensures var chunk, done := Sealed(crc, Body(blocks.cur)), blocks.done + [blocks.cur];
      && BuilderOps(crc, name, done) == BuilderOps(crc, name, blocks.done) + [Op.Append(name, chunk)]
      && |Data(crc, done)| == |Data(crc, blocks.done)| + |chunk|
      && DoneFull(Blocks(done, []))
      && Handles(crc, done) == Handles(crc, blocks.done) + [Handle(blocks.cur[0].key, |Data(crc, blocks.done)|, |chunk|)]
  {
    hide Body, Data, BlockChunks, AppendAll, Sealed, Handles;
    BlockChunksSnoc(crc, blocks.done, blocks.cur);
    AppendAllSnoc(name, BlockChunks(crc, blocks.done), Sealed(crc, Body(blocks.cur)));
    HandlesSnoc(crc, blocks.done, blocks.cur);
    DataConcat(crc, blocks.done, [blocks.cur]);
    DataOne(crc, blocks.cur);
  }

  class TableBuilder {
    const fs: SimFs
    const name: Name
    const codec: Codec
    const bloom: Bloom.BloomFilter
    /** The current, not yet sealed block, without its checksum. */
    var block: Bytes
    var blockFirstKey: Option<Bytes>
    var index: seq<Handle>
    var offset: nat
    var numEntries: nat
    var firstKey: Option<Bytes>
    var lastKey: Option<Bytes>

    ghost const expected: nat
    ghost var blocks: Blocks
    ghost var entries: seq<Record>
    /** The storage when the builder was made. */
    ghost const start: Fs
    ghost const before: seq<Op>

    /** The block under construction and the sealed ones. */
    ghost predicate Blocked()
      reads `block, `blockFirstKey, `index, `offset, `blocks
    {
      && DoneFull(blocks) && block == Body(blocks.cur) && blockFirstKey == FirstKeyOf(blocks.cur)
      && index == Handles(codec.crc, blocks.done) && offset == |Data(codec.crc, blocks.done)|
    }

    ghost function Issued(): seq<Op>
      reads `blocks
    {
      BuilderOps(codec.crc, name, blocks.done)
    }

    ghost predicate OnFs()
      reads `blocks, fs
    {
      && fs.Valid() && fs.Calm() && name in fs.View().live
      && fs.issued == before + Issued() && fs.View() == FsRun(start, Issued())
    }

    ghost predicate Valid()
      reads this, fs, bloom.bits
    {
      && OnFs() && Blocked() && blocks == Filled(entries) && Sorted(entries)
      && numEntries == |entries| && firstKey == FirstKeyOf(entries) && lastKey == LastKeyOf(entries)
      && bloom.Valid() && bloom.hash == codec.hash && bloom.Model() == FilterOf(codec, expected, entries)
    }

    /** The object, once the file has been created. */
    constructor (fs: SimFs, name: Name, codec: Codec, expected: nat, ghost start: Fs, ghost before: seq<Op>)
      requires fs.Valid() && fs.Calm() && name in fs.View().live
      requires fs.issued == before + [Op.Create(name)] && fs.View() == FsRun(start, [Op.Create(name)])
      ensures Valid() && entries == [] && fresh(bloom) && fresh(bloom.bits)
      ensures this.fs == fs && this.name == name && this.codec == codec && this.expected == expected
      ensures this.start == start && this.before == before
    {
      this.fs, this.name, this.codec, this.expected := fs, name, codec, expected;
      this.start, this.before := start, before;
      bloom := new Bloom.BloomFilter(codec.hash, codec.probes, expected, BITS_PER_KEY);
      block, blockFirstKey, index, offset, numEntries, firstKey, lastKey := [], None, [], 0, 0, None, None;
      blocks, entries := Blocks([], []), [];
      new;
      assert KeysOf([]) == [];
      assert [Op.Create(name)] + AppendAll(name, []) == [Op.Create(name)];
    }

    /** One append to the file; the file is there, so it is not refused. */
    method Emit(data: Bytes)
      requires fs.Valid() && fs.Calm() && name in fs.View().live
      modifies fs
      ensures fs.Valid() && fs.Calm() && name in fs.View().live
      ensures fs.issued == old(fs.issued) + [Op.Append(name, data)]
      ensures fs.View() == FsStep(old(fs.View()), Op.Append(name, data))
    {
      hide FsStep, Abstract, Disciplined;
      fs.SameFault(Op.Append(name, data));
      AppendKeeps(fs.View(), name, data);
      var at := fs.Append(name, data);
      assert at.Ok?;
    }

    /** Append the current block and its checksum, and index it. */
    method SealBlock()
      requires OnFs() && Blocked()
      modifies this`block, this`blockFirstKey, this`index, this`offset, this`blocks, fs
      ensures OnFs()
      ensures Blocked() && blocks == Blocks(SealCurrent(old(blocks)), [])
    {
      hide Body, Data, Sealed, FsRun, FsStep, Handles, BuilderOps, Abstract, Disciplined, PutU32;
      BodyEmpty(blocks.cur);
      BodyEmpty([]);
      if block == [] { return; }
      SealStep(codec.crc, name, blocks);
      ghost var issued, chunk := Issued(), Sealed(codec.crc, Body(blocks.cur));
      RunSnoc(start, issued, Op.Append(name, chunk));
      var crc := codec.crc(block);
      block := block + PutU32(crc);
      assert block == chunk by { SealedIs(codec.crc, Body(blocks.cur)); }
      var blockLen := |block|;
      Emit(block);
      index := index + [Handle(blockFirstKey.value, offset, blockLen)];
      offset := offset + blockLen;
      blockFirstKey, block := None, [];
      blocks := Blocks(blocks.done + [blocks.cur], []);
    }

    /** Write one entry into the current block, sealing the block before it first if it would overflow. */
    method EncodeEntry(rec: Record)
      requires OnFs() && Blocked()
      modifies this`block, this`blockFirstKey, this`index, this`offset, this`blocks, fs
      ensures OnFs() && Blocked() && blocks == AddEntry(old(blocks), rec)
    {
      hide Body, Data, Sealed, FsRun, FsStep, Handles, BuilderOps, Abstract, Disciplined, TableFormat.EntryBytes;
      BodyEmpty(blocks.cur);
      AddCases(blocks, rec);
      var entryLen := EntryLen(rec);
      if block != [] && |block| + entryLen > BLOCK_SIZE { SealBlock(); }
      AddTail(blocks.cur, rec);
      if blockFirstKey.None? { blockFirstKey := Some(rec.key); }
      block := block + TableFormat.EntryBytes(rec);
      blocks := Blocks(blocks.done, blocks.cur + [rec]);
    }

    /** Add one entry; a key not above the last one is refused. */
    method Add(rec: Record) returns (r: Result<(), TableError>)
      requires Valid()
      modifies this, fs, bloom.bits
      ensures Valid()
      ensures var last := LastKeyOf(old(entries));
        if last.Some? && AtMost(rec.key, last.value)
        then r == Err(Unsorted) && entries == old(entries) && fs.State() == old(fs.State()) && fs.issued == old(fs.issued)
        else r == Ok(()) && entries == old(entries) + [rec]
    {
      hide Body, Data, Sealed, FsRun, FsStep, Handles, BuilderOps, Abstract, Disciplined, FilterOf, TableFormat.EntryBytes, AddEntry,
        Filled, Less, Blocked, OnFs, EntryLen;
      if lastKey.Some? && AtMost(rec.key, lastKey.value) { return Err(Unsorted); }
      AddFacts(codec, expected, entries, rec);
      EncodeEntry(rec);
      bloom.Insert(rec.key);
      if firstKey.None? { firstKey := Some(rec.key); }
      lastKey := Some(rec.key);
      numEntries := numEntries + 1;
      entries := entries + [rec];
      return Ok(());
    }

    /** Seal the last block, then append index, filter and footer, and sync the file once. */
    method Finish() returns (summary: Summary)
      requires Valid()
      modifies this, fs
      ensures fs.Valid() && fs.Calm() && entries == old(entries)
      ensures var ops := WriteFileOps(name, TableChunks(codec, expected, entries));
              fs.issued == before + ops && fs.View() == FsRun(start, ops)
      ensures summary == Summary(|entries|, FirstKeyOf(entries), LastKeyOf(entries), |File(codec, expected, entries)|)
    {
      hide Body, Data, Sealed, FsRun, FsStep, Handles, BuilderOps, Abstract, Disciplined, FilterOf, Filled, Bloom.Encode, IndexBody,
        IndexPart, BloomPart, FooterPart, FooterBody, WriteFileOps, TableChunks, File, Less, IndexOf, FooterOf;
      ghost var es := entries;
      SealBlock();
      assert blocks.done == BlocksOf(es);
      FinishedIndex(codec, es);
      FinishOps(codec, name, expected, es, start);
      EmitTail(es);
      summary := Summary(numEntries, firstKey, lastKey, offset);
    }

    /** Index, filter and footer behind the data, and the one sync. */
    method EmitTail(ghost es: seq<Record>)
      requires fs.Valid() && fs.Calm() && name in fs.View().live
      requires index == IndexOf(codec, es) && offset == |Data(codec.crc, BlocksOf(es))| && numEntries == |es|
      requires bloom.Valid() && bloom.Model() == FilterOf(codec, expected, es)
      modifies this`offset, fs
      ensures fs.Valid() && fs.Calm() && offset == |File(codec, expected, es)|
      ensures var i, b, f := IndexPart(codec, es), BloomPart(codec, expected, es), FooterPart(codec, expected, es);
        && fs.issued == old(fs.issued) + [Op.Append(name, i)] + [Op.Append(name, b)] + [Op.Append(name, f)] + [Op.SyncFile(name)]
        && fs.View() == FsStep(FsStep(FsStep(FsStep(old(fs.View()), Op.Append(name, i)), Op.Append(name, b)),
                                      Op.Append(name, f)), Op.SyncFile(name))
    {
      hide Data, Sealed, FsStep, Abstract, Disciplined, FilterOf, Bloom.Encode, IndexBody, IndexPart, BloomPart, FooterPart,
        FooterBody, File, IndexOf, FooterOf, BlocksOf, WellFormed;
      FinishedPart(codec, expected, es);
      var indexOffset := offset;
      var indexBody := EncodeIndex(index);
      var indexLen := EmitSealed(indexBody);
      var bloomOffset := offset;
      var bloomBody := bloom.EncodeFilter();
      var bloomLen := EmitSealed(bloomBody);
      var footerLen := EmitSealed(FooterBody(Footer(indexOffset, indexLen, bloomOffset, bloomLen, numEntries)));
      SyncNow();
    }

    /** Append a region followed by its checksum. */
    method EmitSealed(body: Bytes) returns (len: nat)
      requires fs.Valid() && fs.Calm() && name in fs.View().live
      modifies this`offset, fs
      ensures fs.Valid() && fs.Calm() && name in fs.View().live
      ensures len == |Sealed(codec.crc, body)| && offset == old(offset) + len
      ensures fs.issued == old(fs.issued) + [Op.Append(name, Sealed(codec.crc, body))]
      ensures fs.View() == FsStep(old(fs.View()), Op.Append(name, Sealed(codec.crc, body)))
    {
      hide FsStep, Abstract, Disciplined, PutU32;
      var buf := body + PutU32(codec.crc(body));
      Emit(buf);
      len := |buf|;
      offset := offset + len;
    }

    /** The one durability barrier. */
    method SyncNow()
      requires fs.Valid() && fs.Calm() && name in fs.View().live
      modifies fs
      ensures fs.Valid() && fs.Calm()
      ensures fs.issued == old(fs.issued) + [Op.SyncFile(name)]
      ensures fs.View() == FsStep(old(fs.View()), Op.SyncFile(name))
    {
      hide FsStep, Abstract, Disciplined;
      fs.SameFault(Op.SyncFile(name));
      var synced := fs.SyncFile(name);
      assert synced.Ok?;
    }
  }

  lemma AddFacts(c: Codec, expected: nat, es: seq<Record>, rec: Record)
    requires Sorted(es) && (es != [] ==> !AtMost(rec.key, es[|es| - 1].key))
    ensures Sorted(es + [rec]) && Filled(es + [rec]) == AddEntry(Filled(es), rec)
    ensures FilterOf(c, expected, es + [rec]) == Bloom.Inserted(c.hash, FilterOf(c, expected, es), rec.key)
  {
    hide Sorted, AddEntry, Bloom.InsertAll, Bloom.Inserted, Bloom.New, Less, KeysOf;
    var all := es + [rec];
    assert all[..|all| - 1] == es;
    KeysSnoc(es, rec);
    Bloom.InsertAllSnoc(c.hash, Bloom.New(c.probes, expected, BITS_PER_KEY), KeysOf(es), rec.key);
    SortedSnoc(es, rec);
  }

  lemma KeysSnoc(es: seq<Record>, rec: Record)
    ensures KeysOf(es + [rec]) == KeysOf(es) + [rec.key]
  {
  }

  lemma SortedSnoc(es: seq<Record>, rec: Record)
    requires Sorted(es) && (es != [] ==> !AtMost(rec.key, es[|es| - 1].key))
    ensures Sorted(es + [rec])
  {
    var all := es + [rec];
    forall i, j | 0 <= i < j < |all|
      ensures Less(all[i].key, all[j].key)
    {
      if j == |es| {
        LessTotal(es[|es| - 1].key, rec.key);
        if i < |es| - 1 { LessTransitive(es[i].key, es[|es| - 1].key, rec.key); }
      }
    }
  }

  lemma AddCases(b: Blocks, rec: Record)
    ensures AddEntry(b, rec)
         == if b.cur != [] && |Body(b.cur)| + EntryLen(rec) > BLOCK_SIZE then Blocks(b.done + [b.cur], [] + [rec])
            else Blocks(b.done, b.cur + [rec])
  {
    hide Body, EntryLen;
    assert [] + [rec] == [rec];
  }

  lemma AddTail(cur: seq<Record>, rec: Record)
    ensures Body(cur + [rec]) == Body(cur) + TableFormat.EntryBytes(rec)
    ensures FirstKeyOf(cur + [rec]) == if cur == [] then Some(rec.key) else FirstKeyOf(cur)
  {
    hide TableFormat.EntryBytes;
    BodySnoc(cur, rec);
  }

  /** The index block, entry by entry. */
  method EncodeIndex(index: seq<Handle>) returns (buf: Bytes)
    ensures buf == IndexBody(index)
  {
    hide HandleBytes, PutU32;
    buf := PutU32(|index|);
    for i := 0 to |index|
      invariant buf == PutU32(|index|) + HandlesBytes(index[..i])
    {
      var e := index[i];
      HandlesSnocBytes(index[..i], e);
      assert index[..i + 1] == index[..i] + [e];
      buf := buf + HandleBytes(e);
    }
    assert index[..|index|] == index;
  }

  lemma {:induction false} HandlesSnocBytes(hs: seq<Handle>, h: Handle)
    ensures HandlesBytes(hs + [h]) == HandlesBytes(hs) + HandleBytes(h)
  {
    hide HandleBytes;
    if hs == [] {
      assert hs + [h] == [h] && [h][1..] == [];
    } else {
      assert (hs + [h])[1..] == hs[1..] + [h];
      HandlesSnocBytes(hs[1..], h);
    }
  }

  lemma FinishedIndex(c: Codec, es: seq<Record>)
    ensures forall i :: 0 <= i < |BlocksOf(es)| ==> BlocksOf(es)[i] != []
    ensures IndexOf(c, es) == Handles(c.crc, BlocksOf(es))
  {
    hide BlocksOf;
    BlocksNonEmpty(es);
  }

  /** The parts of the file and where they lie. */
  lemma FinishedPart(c: Codec, expected: nat, es: seq<Record>)
    ensures IndexPart(c, es) == Sealed(c.crc, IndexBody(IndexOf(c, es)))
    ensures BloomPart(c, expected, es) == Sealed(c.crc, Bloom.Encode(FilterOf(c, expected, es)))
    ensures FooterPart(c, expected, es) == Sealed(c.crc, FooterBody(FooterOf(c, expected, es)))
    ensures var d, i, b := |Data(c.crc, BlocksOf(es))|, |IndexPart(c, es)|, |BloomPart(c, expected, es)|;
      && FooterOf(c, expected, es) == Footer(d, i, d + i, b, |es|)
      && |File(c, expected, es)| == d + i + b + |FooterPart(c, expected, es)|
  {
    hide Sealed, IndexBody, BlocksOf, Data, FooterBody, FilterOf, IndexOf, Bloom.Encode;
  }

  lemma FinishOps(c: Codec, name: Name, expected: nat, es: seq<Record>, start: Fs)
    ensures var i, b, f := IndexPart(c, es), BloomPart(c, expected, es), FooterPart(c, expected, es);
            var ops, built := WriteFileOps(name, TableChunks(c, expected, es)), BuilderOps(c.crc, name, BlocksOf(es));
      && ops == built + [Op.Append(name, i)] + [Op.Append(name, b)] + [Op.Append(name, f)] + [Op.SyncFile(name)]
      && FsRun(start, ops) == FsStep(FsStep(FsStep(FsStep(FsRun(start, built), Op.Append(name, i)), Op.Append(name, b)),
                                     Op.Append(name, f)), Op.SyncFile(name))
  {
    hide IndexPart, BloomPart, FooterPart, BlocksOf, FsStep, BlockChunks, FsRun;
    var i, b, f := IndexPart(c, es), BloomPart(c, expected, es), FooterPart(c, expected, es);
    var chunks := BlockChunks(c.crc, BlocksOf(es));
    AppendAllSnoc(name, chunks, i);
    AppendAllSnoc(name, chunks + [i], b);
    AppendAllSnoc(name, chunks + [i] + [b], f);
    assert chunks + [i, b, f] == chunks + [i] + [b] + [f];
    var built := BuilderOps(c.crc, name, BlocksOf(es));
    RunSnoc(start, built, Op.Append(name, i));
    RunSnoc(start, built + [Op.Append(name, i)], Op.Append(name, b));
    RunSnoc(start, built + [Op.Append(name, i)] + [Op.Append(name, b)], Op.Append(name, f));
    RunSnoc(start, built + [Op.Append(name, i)] + [Op.Append(name, b)] + [Op.Append(name, f)], Op.SyncFile(name));
  }

  lemma AppendKeeps(fs: Fs, n: Name, data: Bytes)
    requires n in fs.live
    ensures FsFault(fs, Op.Append(n, data)).None? && n in FsStep(fs, Op.Append(n, data)).live
  {
  }

  lemma SealedIs(crc: Checksum, body: Bytes)
    ensures Sealed(crc, body) == body + PutU32(crc(body))
  {
  }

  lemma BodyEmpty(block: seq<Record>)
    ensures Body(block) == [] <==> block == []
  {
    if block != [] { assert |TableFormat.EntryBytes(block[0])| > 0; }
  }

  // ----------------------------------------------------------------- decoding

  /** One index entry off the cursor. */
  method ReadHandle(cur: Cursor) returns (r: Option<Handle>)
    requires cur.Valid()
    modifies cur
    ensures cur.Valid()
    ensures match TakeHandle(old(cur.Rest()))
            case Corrupt => r == None
            case Got(h, rest) => r == Some(h) && cur.Rest() == rest
  {
    hide TakeU32, TakeU64, TakeBytes;
    var firstKey := cur.LengthPrefixed();
    if firstKey.None? { return None; }
    var offset := cur.U64();
    if offset.None? { return None; }
    var len := cur.U32();
    if len.None? { return None; }
    return Some(Handle(firstKey.value, offset.value, len.value));
  }

  /** What is left to take, put behind what has been taken, is the whole. */
  ghost predicate SoFar<T>(all: Parsed<seq<T>>, out: seq<T>, left: Parsed<seq<T>>) {
    match left
    case Corrupt => all.Corrupt?
    case Got(ts, end) => all == Got(out + ts, end)
  }

  lemma SoFarBegins<T>(all: Parsed<seq<T>>)
    ensures SoFar(all, [], all)
  {
    if all.Got? { assert [] + all.value == all.value; }
  }

  lemma SoFarStep<T>(all: Parsed<seq<T>>, out: seq<T>, x: T, rest: Parsed<seq<T>>)
    requires SoFar(all, out, match rest case Corrupt => Corrupt case Got(ts, end) => Got([x] + ts, end))
    ensures SoFar(all, out + [x], rest)
  {
    match rest
    case Corrupt =>
    case Got(ts, end) => assert out + ([x] + ts) == (out + [x]) + ts;
  }

  lemma SoFarEnds<T>(all: Parsed<seq<T>>, out: seq<T>, end: Bytes)
    requires SoFar(all, out, Got([], end))
    ensures all == Got(out, end)
  {
    assert out + [] == out;
  }

  lemma SoFarBroken<T>(all: Parsed<seq<T>>, out: seq<T>)
    requires SoFar(all, out, Corrupt)
    ensures all.Corrupt?
  {
  }

  /** `decode_index`: a count, then that many handles. */
  method DecodeIndex(body: Bytes) returns (r: Option<seq<Handle>>)
    ensures r == TakeIndex(body)
  {
    hide TakeU32, TakeHandle, SoFar;
    var cur := new Cursor(body);
    var count := cur.U32();
    if count.None? { return None; }
    r := ReadHandles(cur, count.value);
  }

  method ReadHandles(cur: Cursor, count: nat) returns (r: Option<seq<Handle>>)
    requires cur.Valid()
    modifies cur
    ensures cur.Valid()
    ensures match TakeHandles(old(cur.Rest()), count)
            case Corrupt => r == None
            case Got(hs, rest) => r == Some(hs) && cur.Rest() == rest
  {
    hide TakeHandle, SoFar;
    var out: seq<Handle> := [];
    ghost var rest, left := cur.Rest(), count;
    ghost var all := TakeHandles(rest, left);
    SoFarBegins(all);
    var i := 0;
    while i < count
      invariant 0 <= i <= count && cur.Valid()
      invariant left == count - i && rest == cur.Rest()
      invariant SoFar(all, out, TakeHandles(rest, left))
    {
      var h := ReadHandle(cur);
      if h.None? {
        SoFarBroken(all, out);
        return None;
      }
      SoFarStep(all, out, h.value, TakeHandles(cur.Rest(), left - 1));
      out := out + [h.value];
      i := i + 1;
      rest, left := cur.Rest(), left - 1;
    }
    SoFarEnds(all, out, rest);
    return Some(out);
  }

  /** One entry off the cursor. */
  method ReadEntry(cur: Cursor) returns (r: Option<Record>)
    requires cur.Valid()
    modifies cur
    ensures cur.Valid()
    ensures match TakeEntry(old(cur.Rest()))
            case Corrupt => r == None
            case Got(e, rest) => r == Some(e) && cur.Rest() == rest
  {
    hide TakeU32, TakeU64, TakeBytes, TakeU8;
    var key := cur.LengthPrefixed();
    if key.None? { return None; }
    var stamp := cur.U64();
    if stamp.None? { return None; }
    var tag := cur.U8();
    if tag.None? { return None; }
    if tag.value == TAG_PUT {
      var v := cur.LengthPrefixed();
      if v.None? { return None; }
      return Some(Record(key.value, InternalValue(stamp.value, Value(v.value))));
    } else if tag.value == TAG_DELETE {
      return Some(Record(key.value, InternalValue(stamp.value, Tombstone)));
    }
    return None;
  }

  /** `decode_block`: entries until the bytes run out. */
  method DecodeBlock(body: Bytes) returns (r: Option<seq<Record>>)
    ensures r == TakeEntries(body)
  {
    hide TakeEntry, TakeEntries;
    var cur := new Cursor(body);
    var out: seq<Record> := [];
    ghost var all := TakeEntries(body);
    NothingSoFar(all, body);
    while cur.Remaining() > 0
      invariant cur.Valid() && fresh(cur)
      invariant EntriesSoFar(all, out, cur.Rest())
      decreases cur.Remaining()
    {
      ghost var rest := cur.Rest();
      EntriesUnfold(rest);
      var e := ReadEntry(cur);
      if e.None? { return None; }
      EntriesStep(all, out, rest, e.value, cur.Rest());
      out := out + [e.value];
    }
    EntriesUnfold([]);
    assert out + [] == out;
    return Some(out);
  }

  lemma NothingSoFar(all: Option<seq<Record>>, body: Bytes)
    requires all == TakeEntries(body)
    ensures EntriesSoFar(all, [], body)
  {
    hide TakeEntries;
    if all.Some? { assert [] + all.value == all.value; }
  }

  ghost predicate EntriesSoFar(all: Option<seq<Record>>, out: seq<Record>, rest: Bytes) {
    match TakeEntries(rest)
    case None => all.None?
    case Some(es) => all == Some(out + es)
  }

  lemma EntriesUnfold(rest: Bytes)
    ensures rest == [] ==> TakeEntries(rest) == Some([])
    ensures rest != [] && TakeEntry(rest).Corrupt? ==> TakeEntries(rest) == None
  {
    hide TakeEntry;
  }

  lemma EntriesStep(all: Option<seq<Record>>, out: seq<Record>, rest: Bytes, e: Record, rest': Bytes)
    requires rest != [] && EntriesSoFar(all, out, rest) && TakeEntry(rest) == Got(e, rest')
    ensures EntriesSoFar(all, out + [e], rest')
  {
    hide TakeEntry;
    match TakeEntries(rest')
    case None =>
    case Some(es) => assert out + ([e] + es) == (out + [e]) + es;
  }

  // ------------------------------------------------------------------- reader

  /** The bytes of a file as a reader sees them. */
  function FileBytes(fs: SimFs, name: Name): Bytes
    requires fs.Valid()
    reads fs
  {
    match fs.Read(name)
    case Err(_) => []
    case Ok(bytes) => bytes
  }

  /** `read_exact`: a short read is an error. */
  method ReadExactly(fs: SimFs, name: Name, offset: nat, len: nat) returns (r: Option<Bytes>)
    requires fs.Valid() && fs.Exists(name)
    ensures r == ReadExact(FileBytes(fs, name), offset, len)
  {
    var n := fs.ReadAt(name, offset, len);
    if n.Err? || |n.value| != len { return None; }
    return Some(n.value);
  }

  class TableReader {
    const fs: SimFs
    const name: Name
    const codec: Codec
    const index: seq<Handle>
    const bloom: Bloom.BloomFilter
    const numEntries: nat

    ghost predicate Valid()
      reads fs
    {
      fs.Valid() && fs.Exists(name) && bloom.Valid() && bloom.hash == codec.hash
    }

    ghost function File(): Bytes
      requires fs.Valid()
      reads fs
    {
      FileBytes(fs, name)
    }

    ghost function Parsed(): (o: Opened)
      requires bloom.Valid()
      reads bloom.bits
    {
      Opened(index, bloom.Model(), numEntries)
    }

    constructor (fs: SimFs, name: Name, codec: Codec, o: Opened)
      requires fs.Valid() && fs.Exists(name) && Bloom.Sound(o.filter)
      ensures Valid() && Parsed() == o && fresh(bloom) && fresh(bloom.bits)
      ensures this.fs == fs && this.name == name && this.codec == codec
    {
      this.fs, this.name, this.codec := fs, name, codec;
      index, numEntries := o.index, o.numEntries;
      bloom := new Bloom.BloomFilter.Decoded(codec.hash, o.filter);
    }

    /** Fetch, verify and decode one data block. */
    method LoadBlock(i: nat) returns (r: Option<seq<Record>>)
      requires Valid() && i < |index|
      ensures r == Load(codec, File(), index[i])
    {
      var raw := ReadExactly(fs, name, index[i].offset, index[i].len);
      if raw.None? { return None; }
      var body := Unseal(codec.crc, raw.value);
      if body.None? { return None; }
      r := DecodeBlock(body.value);
    }

    /** Filter first, then the one candidate block. */
    method Get(key: Bytes) returns (r: Option<Option<Record>>)
      requires Valid()
      ensures r == TableFormat.Get(codec, File(), Parsed(), key)
    {
      hide Load, FileBytes, Bloom.Admits, FindBlock, SearchBlock;
      var present := bloom.Contains(key);
      if !present { return Some(None); }
      var block := FindBlock(index, key);
      if block.None? { return Some(None); }
      var entries := LoadBlock(block.value);
      if entries.None? { return None; }
      return Some(SearchBlock(entries.value, key));
    }
  }

  /** `check_region`, the read, and `verify_crc`. */
  method ReadChecked(fs: SimFs, name: Name, crc: Checksum, offset: nat, len: nat, limit: nat) returns (r: Option<Bytes>)
    requires fs.Valid() && fs.Exists(name)
    ensures r == ReadRegion(crc, FileBytes(fs, name), offset, len, limit)
  {
    hide Unseal, FileBytes, Abstract, WellFormed;
    if offset + len > limit { return None; }
    var buf := ReadExactly(fs, name, offset, len);
    if buf.None? { return None; }
    r := Unseal(crc, buf.value);
  }

  /** `SsTableReader::open`. */
  method OpenTable(fs: SimFs, name: Name, codec: Codec) returns (r: Result<TableReader, TableError>)
    requires fs.Valid()
    ensures r.Ok? <==> fs.Exists(name) && Open(codec, FileBytes(fs, name)).Some?
    ensures r.Ok? ==> r.value.Valid() && fresh(r.value) && fresh(r.value.bloom.bits) && r.value.fs == fs && r.value.name == name
    ensures r.Ok? ==> r.value.codec == codec && Open(codec, FileBytes(fs, name)) == Some(r.value.Parsed())
  {
    hide Unseal, TakeFooter, TakeIndex, Bloom.Decode, ReadRegion, Abstract, WellFormed;
    var whole := fs.Read(name);
    if whole.Err? { return Err(Storage(whole.error)); }
    var fileLen := |whole.value|;
    if fileLen < FOOTER_SIZE { return Err(CorruptTable); }
    var footerStart := fileLen - FOOTER_SIZE;
    var raw := ReadExactly(fs, name, footerStart, FOOTER_SIZE);
    if raw.None? { return Err(CorruptTable); }
    assert raw.value == FileBytes(fs, name)[footerStart..];
    var body := Unseal(codec.crc, raw.value);
    if body.None? { return Err(CorruptTable); }
    var footer := TakeFooter(body.value);
    if footer.None? { return Err(CorruptTable); }
    var f := footer.value;
    if f.bloomOff + f.bloomLen > footerStart { return Err(CorruptTable); }
    var indexBody := ReadChecked(fs, name, codec.crc, f.indexOff, f.indexLen, footerStart);
    if indexBody.None? { return Err(CorruptTable); }
    var index := DecodeIndex(indexBody.value);
    if index.None? { return Err(CorruptTable); }
    var bloomBody := ReadChecked(fs, name, codec.crc, f.bloomOff, f.bloomLen, footerStart);
    if bloomBody.None? { return Err(CorruptTable); }
    match Bloom.Decode(bloomBody.value)
    case Corrupt => return Err(CorruptTable);
    case Got(filter, _) =>
      var reader := new TableReader(fs, name, codec, Opened(index.value, filter, f.numEntries));
      return Ok(reader);
  }

  /** What an iterator has yet to yield: the rest of its block, then the blocks from `blockIdx` on. */
  ghost function Pending(c: Codec, file: Bytes, index: seq<Handle>, blockIdx: nat, block: seq<Record>): Option<seq<Record>>
    requires blockIdx <= |index|
  {
    match LoadAll(c, file, index[blockIdx..])
    case None => None
    case Some(es) => Some(block + es)
  }

  lemma PendingAll(c: Codec, file: Bytes, index: seq<Handle>)
    ensures Pending(c, file, index, 0, []) == LoadAll(c, file, index)
  {
    hide LoadAll;
    assert index[0..] == index;
    var all := LoadAll(c, file, index);
    if all.Some? { assert [] + all.value == all.value; }
  }

  lemma PendingYield(c: Codec, file: Bytes, index: seq<Handle>, blockIdx: nat, block: seq<Record>)
    requires blockIdx <= |index| && block != []
    ensures var was, now := Pending(c, file, index, blockIdx, block), Pending(c, file, index, blockIdx, block[1..]);
      was.Some? == now.Some? && (was.Some? ==> was.value != [] && was.value[0] == block[0] && was.value[1..] == now.value)
  {
    hide LoadAll;
  }

  ghost function Fetched(c: Codec, file: Bytes, index: seq<Handle>, blockIdx: nat): Option<seq<Record>>
    requires blockIdx < |index|
  {
    match Load(c, file, index[blockIdx])
    case None => None
    case Some(block) => Pending(c, file, index, blockIdx + 1, block)
  }

  lemma PendingLoad(c: Codec, file: Bytes, index: seq<Handle>, blockIdx: nat)
    requires blockIdx <= |index|
    ensures blockIdx == |index| ==> Pending(c, file, index, blockIdx, []) == Some([])
    ensures blockIdx < |index| ==> Pending(c, file, index, blockIdx, []) == Fetched(c, file, index, blockIdx)
  {
    hide Load;
    if blockIdx == |index| {
      assert index[blockIdx..] == [];
      var none: seq<Record> := [];
      assert none + none == none && LoadAll(c, file, []) == Some(none);
    }
    if blockIdx < |index| {
      assert index[blockIdx..][1..] == index[blockIdx + 1..];
      var all := LoadAll(c, file, index[blockIdx..]);
      if all.Some? { assert [] + all.value == all.value; }
    }
  }

  /** Forward iteration over a table, block by block. */
  class TableIter {
    const reader: TableReader
    var blockIdx: nat
    var block: seq<Record>
    var within: nat
    var loaded: bool

    ghost predicate Valid()
      reads this, reader.fs
    {
      reader.Valid() && blockIdx <= |reader.index| && within <= |block|
    }

    ghost function InBlock(): seq<Record>
      requires within <= |block|
      reads this
    {
      if loaded then block[within..] else []
    }

    /** The entries still to come; `None` if a block ahead does not decode. */
    ghost function Ahead(): Option<seq<Record>>
      requires Valid()
      reads this, reader.fs
    {
      Pending(reader.codec, reader.File(), reader.index, blockIdx, InBlock())
    }

    constructor (reader: TableReader)
      requires reader.Valid()
      ensures Valid() && this.reader == reader
      ensures Ahead() == LoadAll(reader.codec, reader.File(), reader.index)
    {
      hide LoadAll, Pending, FileBytes;
      this.reader := reader;
      blockIdx, block, within, loaded := 0, [], 0, false;
      new;
      PendingAll(reader.codec, reader.File(), reader.index);
    }

    /** Yields the entries ahead one by one, in order; an undecodable block is reported once and ends the iteration. */
    method Next() returns (r: Option<Result<Record, TableError>>)
      requires Valid()
      modifies this
      ensures Valid()
      ensures old(Ahead()).Some? ==>
        if old(Ahead()).value == [] then r == None else r == Some(Ok(old(Ahead()).value[0])) && Ahead() == Some(old(Ahead()).value[1..])
      ensures old(Ahead()).None? ==> r.Some? && (r.value.Ok? ==> Ahead().None?)
      ensures r.Some? && r.value.Ok? ==>
        (|reader.index| - blockIdx < old(|reader.index| - blockIdx) || (blockIdx == old(blockIdx) && |block| - within < old(|block| - within)))
    {
      hide Load, FileBytes, Pending, LoadAll, Abstract, WellFormed;
      ghost var c, file, index := reader.codec, reader.File(), reader.index;
      while true
        invariant Valid() && Ahead() == old(Ahead())
        invariant blockIdx == old(blockIdx) ==> block == old(block) && within == old(within) && loaded == old(loaded)
        invariant blockIdx >= old(blockIdx)
        decreases |reader.index| - blockIdx
      {
        if loaded && within < |block| {
          PendingYield(c, file, index, blockIdx, block[within..]);
          assert block[within..][1..] == block[within + 1..];
          var e := block[within];
          within := within + 1;
          return Some(Ok(e));
        }
        assert InBlock() == [];
        PendingLoad(c, file, index, blockIdx);
        if blockIdx >= |reader.index| { return None; }
        var entries := reader.LoadBlock(blockIdx);
        if entries.None? {
          blockIdx, loaded, block, within := |reader.index|, false, [], 0;
          return Some(Err(CorruptTable));
        }
        block, within, loaded := entries.value, 0, true;
        assert block[0..] == block;
        blockIdx := blockIdx + 1;
      }
    }
  }

  /** With the entries already read in front. */
  function Prefixed(out: seq<Record>, ahead: Option<seq<Record>>): Option<seq<Record>> {
    match ahead
    case None => None
    case Some(es) => Some(out + es)
  }

  lemma PrefixedNothing(ahead: Option<seq<Record>>)
    ensures Prefixed([], ahead) == ahead
  {
    if ahead.Some? { assert [] + ahead.value == ahead.value; }
  }

  lemma PrefixedStep(out: seq<Record>, ahead: seq<Record>)
    ensures ahead == [] ==> Prefixed(out, Some(ahead)) == Some(out)
    ensures ahead != [] ==> Prefixed(out, Some(ahead)) == Prefixed(out + [ahead[0]], Some(ahead[1..]))
  {
    if ahead == [] {
      assert out + ahead == out;
    } else {
      assert out + ahead == (out + [ahead[0]]) + ahead[1..];
    }
  }

  /** `read_all_entries`. */
  method ReadAllEntries(reader: TableReader) returns (r: Option<seq<Record>>)
    requires reader.Valid()
    ensures r == LoadAll(reader.codec, reader.File(), reader.index)
  {
    hide LoadAll, FileBytes, Pending, Prefixed, Abstract, WellFormed;
    var iter := new TableIter(reader);
    var out: seq<Record> := [];
    ghost var ahead := iter.Ahead();
    ghost var all := ahead;
    PrefixedNothing(all);
    while true
      invariant fresh(iter) && iter.Valid() && iter.reader == reader && ahead == iter.Ahead()
      invariant all == Prefixed(out, ahead)
      decreases |reader.index| - iter.blockIdx, |iter.block| - iter.within
    {
      var e := iter.Next();
      ghost var next := if e.Some? && e.value.Ok? then Some(e.value.value) else None;
      PrefixedNext(out, ahead, next, iter.Ahead());
      if e.None? { return Some(out); }
      if e.value.Err? { return None; }
      out, ahead := out + [e.value.value], iter.Ahead();
    }
  }

  /** One more entry moves from ahead to the front; at the end nothing is left to move. */
  lemma PrefixedNext(out: seq<Record>, was: Option<seq<Record>>, next: Option<Record>, now: Option<seq<Record>>)
    requires was.Some? && was.value != [] ==> next == Some(was.value[0]) && now == Some(was.value[1..])
    requires was.None? && next.Some? ==> now.None?
    ensures was == Some([]) ==> Prefixed(out, was) == Some(out)
    ensures was.None? ==> Prefixed(out, was).None?
    ensures next.Some? && was != Some([]) ==> Prefixed(out + [next.value], now) == Prefixed(out, was)
  {
    if was.Some? { PrefixedStep(out, was.value); }
  }

  // -------------------------------------------------------------- write_table

  /** How many entries the builder takes before one is not above the last. */
  function Accepted(es: seq<Record>): (n: nat)
    ensures n <= |es|
  {
    if es == [] then 0
    else
      var n := Accepted(es[..|es| - 1]);
      if n == |es| - 1 && (n == 0 || !AtMost(es[n].key, es[n - 1].key)) then |es| else n
  }

  lemma {:induction false} AcceptedSorted(es: seq<Record>)
    ensures Sorted(es[..Accepted(es)]) && (Accepted(es) == |es| <==> Sorted(es))
  {
    hide Sorted;
    if es == [] {
      NothingSorted();
    } else {
      var n, init := |es| - 1, es[..|es| - 1];
      AcceptedSorted(init);
      if Accepted(es) == |es| {
        assert init[..n] == init && es[..|es|] == es && es == init + [es[n]];
        SortedSnoc(init, es[n]);
      } else {
        assert init[..Accepted(init)] == es[..Accepted(es)];
        NotSorted(es, n);
      }
    }
  }

  lemma NothingSorted()
    ensures Sorted([])
  {
  }

  lemma NotSorted(es: seq<Record>, n: nat)
    requires n < |es|
    ensures Sorted(es) ==> Sorted(es[..n]) && (n > 0 ==> !AtMost(es[n].key, es[n - 1].key))
  {
    if n > 0 && Less(es[n - 1].key, es[n].key) {
      LessAsymmetric(es[n - 1].key, es[n].key);
      LessIrreflexive(es[n].key);
    }
  }

  /** The prefixes the loop has been through. */
  lemma {:induction false} AcceptedPrefix(es: seq<Record>, i: nat)
    requires i < |es| && Accepted(es[..i]) == i
    ensures Accepted(es[..i + 1]) == (if i == 0 || !AtMost(es[i].key, es[i - 1].key) then i + 1 else i)
    ensures Accepted(es[..i + 1]) == i ==> Accepted(es) == i
    decreases |es|
  {
    assert es[..i + 1][..i] == es[..i];
    if |es| > i + 1 {
      var init := es[..|es| - 1];
      assert init[..i] == es[..i] && init[..i + 1] == es[..i + 1];
      AcceptedPrefix(init, i);
    } else {
      assert es[..i + 1] == es;
    }
  }

  datatype Fed = Fed(firstKey: Option<Bytes>, lastKey: Bytes, numEntries: nat)

  /** The loop of `write_table`: feed the builder, noting the first and the last key. */
  method Feed(builder: TableBuilder, entries: seq<Record>) returns (r: Result<Fed, TableError>)
    requires builder.Valid() && builder.entries == []
    modifies builder, builder.fs, builder.bloom.bits
    ensures builder.Valid() && builder.entries == entries[..Accepted(entries)]
    ensures if Accepted(entries) == |entries|
            then r.Ok? && r.value.firstKey == FirstKeyOf(entries) && r.value.numEntries == |entries|
                 && (entries != [] ==> r.value.lastKey == entries[|entries| - 1].key)
            else r == Err(Unsorted)
  {
    hide Abstract, Disciplined, Sorted, FilterOf, Filled, FsRun, Handles, Body, Data, BuilderOps, AtMost, Accepted;
    var firstKey, lastKey, numEntries := None, [], 0;
    NoneAccepted();
    assert entries[..0] == [];
    for i := 0 to |entries|
      invariant builder.Valid() && builder.entries == entries[..i] && numEntries == i && Accepted(entries[..i]) == i
      invariant firstKey == FirstKeyOf(entries[..i]) && (i > 0 ==> lastKey == entries[i - 1].key)
    {
      AcceptedPrefix(entries, i);
      assert entries[..i + 1] == entries[..i] + [entries[i]];
      var added := builder.Add(entries[i]);
      if added.Err? { return Err(added.error); }
      if firstKey.None? { firstKey := Some(entries[i].key); }
      lastKey := entries[i].key;
      numEntries := numEntries + 1;
    }
    assert entries[..|entries|] == entries;
    r := Ok(Fed(firstKey, lastKey, numEntries));
  }

  lemma NoneAccepted()
    ensures Accepted([]) == 0
  {
  }

  /** `write_table`. A stream that turns out empty leaves an empty file and no table; one that is not ascending is
      refused, with what came before already in the file. */
  method WriteTable(fs: SimFs, id: nat, codec: Codec, expectedKeys: nat, entries: seq<Record>)
    returns (r: Result<Option<TableMeta>, TableError>)
    requires fs.Valid() && fs.Calm()
    modifies fs
    ensures fs.Valid() && fs.Calm()
    ensures Table(id) in old(fs.View()).live ==>
              r == Err(Storage(AlreadyExists)) && fs.issued == old(fs.issued) + [Op.Create(Table(id))]
              && fs.View() == FsRun(old(fs.View()), [Op.Create(Table(id))])
    ensures Table(id) !in old(fs.View()).live && Sorted(entries) ==>
              var ops := TableOps(codec, id, AtLeastOne(expectedKeys), entries);
              && r == Ok(if entries == [] then None else Some(MetaOf(id, entries)))
              && fs.issued == old(fs.issued) + ops && fs.View() == FsRun(old(fs.View()), ops)
    ensures Table(id) !in old(fs.View()).live && !Sorted(entries) ==>
              var ops := BuilderOps(codec.crc, Table(id), Filled(entries[..Accepted(entries)]).done);
              r == Err(Unsorted) && fs.issued == old(fs.issued) + ops && fs.View() == FsRun(old(fs.View()), ops)
  {
    hide FsRun, Abstract, Disciplined, TableChunks, Sorted, WriteFileOps, Filled, Accepted, BuilderOps;
    ghost var start, before := fs.View(), fs.issued;
    fs.SameFault(Op.Create(Table(id)));
    OneStep(start, Op.Create(Table(id)));
    var created := fs.Create(Table(id));
    if created.Err? { return Err(Storage(created.error)); }
    r := BuildTable(fs, id, codec, AtLeastOne(expectedKeys), entries, start, before);
  }

  /** The table, once its file has been created. */
  method BuildTable(fs: SimFs, id: nat, codec: Codec, expected: nat, entries: seq<Record>, ghost start: Fs, ghost before: seq<Op>)
    returns (r: Result<Option<TableMeta>, TableError>)
    requires fs.Valid() && fs.Calm() && Table(id) in fs.View().live
    requires fs.issued == before + [Op.Create(Table(id))] && fs.View() == FsRun(start, [Op.Create(Table(id))])
    modifies fs
    ensures fs.Valid() && fs.Calm()
    ensures Sorted(entries) ==>
              var ops := TableOps(codec, id, expected, entries);
              && r == Ok(if entries == [] then None else Some(MetaOf(id, entries)))
              && fs.issued == before + ops && fs.View() == FsRun(start, ops)
    ensures !Sorted(entries) ==>
              var ops := BuilderOps(codec.crc, Table(id), Filled(entries[..Accepted(entries)]).done);
              r == Err(Unsorted) && fs.issued == before + ops && fs.View() == FsRun(start, ops)
  {
    hide FsRun, Abstract, Disciplined, TableChunks, Sorted, WriteFileOps, FilterOf, Filled, Handles, Body, Data, Accepted, BuilderOps;
    var builder := new TableBuilder(fs, Table(id), codec, expected, start, before);
    r := FillTable(builder, id, entries);
  }

  method FillTable(builder: TableBuilder, id: nat, entries: seq<Record>) returns (r: Result<Option<TableMeta>, TableError>)
    requires builder.Valid() && builder.entries == [] && builder.name == Table(id)
    modifies builder, builder.fs, builder.bloom.bits
    ensures builder.fs.Valid() && builder.fs.Calm()
    ensures Sorted(entries) ==>
              var ops := TableOps(builder.codec, id, builder.expected, entries);
              && r == Ok(if entries == [] then None else Some(MetaOf(id, entries)))
              && builder.fs.issued == builder.before + ops && builder.fs.View() == FsRun(builder.start, ops)
    ensures !Sorted(entries) ==>
              var ops := BuilderOps(builder.codec.crc, Table(id), Filled(entries[..Accepted(entries)]).done);
              r == Err(Unsorted) && builder.fs.issued == builder.before + ops && builder.fs.View() == FsRun(builder.start, ops)
  {
    hide FsRun, Abstract, Disciplined, TableChunks, Sorted, WriteFileOps, FilterOf, Filled, Handles, Body, Data, Accepted, BuilderOps;
    AcceptedSorted(entries);
    JustCreated(builder.codec, Table(id));
    var fed := Feed(builder, entries);
    if fed.Err? { return Err(fed.error); }
    assert entries[..|entries|] == entries;
    if fed.value.firstKey.None? { return Ok(None); }
    var summary := builder.Finish();
    assert summary.numEntries == fed.value.numEntries;
    return Ok(Some(TableMeta(id, fed.value.numEntries, fed.value.firstKey.value, fed.value.lastKey)));
  }

  function TableOps(c: Codec, id: nat, expected: nat, es: seq<Record>): seq<Op> {
    if es == [] then [Op.Create(Table(id))] else WriteFileOps(Table(id), TableChunks(c, expected, es))
  }

  lemma JustCreated(c: Codec, name: Name)
    ensures BuilderOps(c.crc, name, Filled([]).done) == [Op.Create(name)]
  {
  }
}
