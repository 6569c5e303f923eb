// The SSTable file: data blocks, sparse index, Bloom block, footer. `File` is what
// the builder writes, `Open`, `Load`, `ReadAll` and `Get` are what the reader computes
// from raw bytes; the theorems say the two agree with a sorted list.

module TableFormat {
  import opened Wrappers
  import opened ByteStrings
  import opened Parse
  import opened Seqs
  import opened Versions
  import opened SortedRuns
  import Bloom

  /** The parameters of the format: any checksum, any key hash, any choice of probe count. */
  datatype Codec = Codec(crc: Checksum, hash: Bloom.KeyHash, probes: Bloom.ProbeChoice)

  const BLOCK_SIZE: nat := 4096
  const FOOTER_SIZE: nat := 48
  const FOOTER_MAGIC: nat := 0x4143_4352_5F53_5354
  const FORMAT_VERSION: nat := 1
  const BITS_PER_KEY: nat := 10
  const TAG_DELETE: byte := 0
  const TAG_PUT: byte := 1

  // ----------------------------------------------------------------- entries

  function KindBytes(kind: ValueKind): Bytes {
    match kind
    case Value(v) => [TAG_PUT] + PutBytes(v)
    case Tombstone => [TAG_DELETE]
  }

  function EntryBytes(r: Record): (b: Bytes)
    ensures |b| > 0
  {
    PutBytes(r.key) + (PutU64(r.value.stamp) + KindBytes(r.value.kind))
  }

  predicate EntryFits(r: Record) {
    && |r.key| < POW32 && r.value.stamp < POW64
    && (r.value.kind.Value? ==> |r.value.kind.bytes| < POW32)
  }

  /** `encoded_entry_len`: the size is known before the entry is written. */
  function EntryLen(r: Record): (n: nat)
    ensures n == |EntryBytes(r)|
  {
    4 + |r.key| + 8 + 1 + match r.value.kind case Value(v) => 4 + |v| case Tombstone => 0
  }

  function TakeKind(buf: Bytes): (r: Parsed<ValueKind>)
    ensures r.Got? ==> |r.rest| < |buf|
  {
    match TakeU8(buf)
    case Corrupt => Corrupt
    case Got(tag, rest) =>
      if tag == TAG_PUT then
        match TakeBytes(rest)
        case Corrupt => Corrupt
        case Got(v, rest') => Got(Value(v), rest')
      else if tag == TAG_DELETE then Got(Tombstone, rest)
      else Corrupt
  }

  function TakeEntry(buf: Bytes): (r: Parsed<Record>)
    ensures r.Got? ==> |r.rest| < |buf|
  {
    match TakeBytes(buf)
    case Corrupt => Corrupt
    case Got(key, buf1) =>
      match TakeU64(buf1)
      case Corrupt => Corrupt
      case Got(stamp, buf2) =>
        match TakeKind(buf2)
        case Corrupt => Corrupt
        case Got(kind, rest) => Got(Record(key, InternalValue(stamp, kind)), rest)
  }

  lemma TakeKindWritten(kind: ValueKind, rest: Bytes)
    requires kind.Value? ==> |kind.bytes| < POW32
    ensures TakeKind(KindBytes(kind) + rest) == Got(kind, rest)
  {
    match kind
    case Value(v) =>
      assert KindBytes(kind) + rest == [TAG_PUT] + (PutBytes(v) + rest);
      TakeBytesWritten(v, rest);
    case Tombstone =>
  }

  lemma TakeEntryWritten(r: Record, rest: Bytes)
    requires EntryFits(r)
    ensures TakeEntry(EntryBytes(r) + rest) == Got(r, rest)
  {
    hide PutU32, PutU64, PutBytes, TakeKind, KindBytes;
    var b2 := KindBytes(r.value.kind) + rest;
    var b1 := PutU64(r.value.stamp) + b2;
    assert EntryBytes(r) + rest == PutBytes(r.key) + b1;
    TakeBytesWritten(r.key, b1);
    TakeU64Written(r.value.stamp, b2);
    TakeKindWritten(r.value.kind, rest);
  }

  // ------------------------------------------------------------------ blocks

  function Body(block: seq<Record>): Bytes {
    if block == [] then [] else EntryBytes(block[0]) + Body(block[1..])
  }

  /** `decode_block`. */
  function TakeEntries(buf: Bytes): Option<seq<Record>>
    decreases |buf|
  {
    if buf == [] then Some([])
    else
      match TakeEntry(buf)
      case Corrupt => None
      case Got(r, rest) =>
        var more := TakeEntries(rest);
        if more.None? then None else Some([r] + more.value)
  }

  predicate EntriesFit(es: seq<Record>) { forall i :: 0 <= i < |es| ==> EntryFits(es[i]) }

  lemma {:induction false} BlockRoundTrip(block: seq<Record>)
    requires EntriesFit(block)
    ensures TakeEntries(Body(block)) == Some(block)
  {
    hide TakeEntry, EntryBytes, EntryFits;
    if block != [] {
      TakeEntryWritten(block[0], Body(block[1..]));
      BlockRoundTrip(block[1..]);
      assert [block[0]] + block[1..] == block;
    }
  }

  lemma {:induction false} BodySnoc(block: seq<Record>, r: Record)
    ensures Body(block + [r]) == Body(block) + EntryBytes(r)
  {
    if block == [] {
      assert Body([r][1..]) == [];
      assert [] + [r] == [r];
    } else {
      assert (block + [r])[1..] == block[1..] + [r];
      BodySnoc(block[1..], r);
    }
  }

  // --------------------------------------------------------------- splitting

  /** A builder's blocks: sealed ones, and the one being filled. */
  datatype Blocks = Blocks(done: seq<seq<Record>>, cur: seq<Record>)

  function AddEntry(b: Blocks, r: Record): Blocks {
    if b.cur != [] && |Body(b.cur)| + EntryLen(r) > BLOCK_SIZE
    then Blocks(b.done + [b.cur], [r])
    else Blocks(b.done, b.cur + [r])
  }

  function Filled(es: seq<Record>): Blocks {
    if es == [] then Blocks([], []) else AddEntry(Filled(es[..|es| - 1]), es[|es| - 1])
  }

  function SealCurrent(b: Blocks): seq<seq<Record>> {
    if b.cur == [] then b.done else b.done + [b.cur]
  }

  function BlocksOf(es: seq<Record>): seq<seq<Record>> { SealCurrent(Filled(es)) }

  /** A sealed block holds at least one entry and at most 4096 bytes, unless a single entry is larger. */
  predicate BlockOk(block: seq<Record>) {
    block != [] && (|Body(block)| <= BLOCK_SIZE || |block| == 1)
  }

  predicate SplitOk(b: Blocks, es: seq<Record>) {
    && Flatten(b.done) + b.cur == es
    && (forall i :: 0 <= i < |b.done| ==> BlockOk(b.done[i]))
    && (b.cur == [] || BlockOk(b.cur)) && (es == [] || b.cur != [])
  }

  lemma AddKeepsSplit(b: Blocks, es: seq<Record>, r: Record)
    requires SplitOk(b, es)
    ensures SplitOk(AddEntry(b, r), es + [r])
  {
    hide EntryBytes, EntryLen;
    BodySnoc(b.cur, r);
    BodySnoc([], r);
    FlattenConcat(b.done, [b.cur]);
    FlattenSingle(b.cur);
    assert [] + [r] == [r];
    assert (Flatten(b.done) + b.cur) + [r] == Flatten(b.done) + (b.cur + [r]);
  }

  lemma {:induction false} FilledOk(es: seq<Record>)
    ensures SplitOk(Filled(es), es)
    decreases |es|
  {
    hide AddEntry, BlockOk;
    if es != [] {
      FilledOk(es[..|es| - 1]);
      AddKeepsSplit(Filled(es[..|es| - 1]), es[..|es| - 1], es[|es| - 1]);
      assert es[..|es| - 1] + [es[|es| - 1]] == es;
    } else {
      assert Flatten<Record>([]) + [] == [];
    }
  }

  /** Splitting keeps every entry in order, in blocks of the promised size. */
  lemma SplitCorrect(es: seq<Record>)
    ensures Flatten(BlocksOf(es)) == es
    ensures forall i :: 0 <= i < |BlocksOf(es)| ==> BlockOk(BlocksOf(es)[i])
  {
    hide Filled, BlockOk;
    FilledOk(es);
    var b := Filled(es);
    FlattenConcat(b.done, [b.cur]);
    FlattenSingle(b.cur);
    assert b.cur == [] ==> Flatten(b.done) + b.cur == Flatten(b.done);
  }

  /** Every sealed block would have grown past 4096 bytes with the entry that opens the next one. */
  ghost predicate Greedy(blocks: seq<seq<Record>>) {
    forall i :: 0 <= i < |blocks| - 1 && blocks[i + 1] != [] ==> |Body(blocks[i])| + |EntryBytes(blocks[i + 1][0])| > 4096
  }

  lemma {:induction false} FilledGreedy(es: seq<Record>)
    ensures Greedy(Filled(es).done + [Filled(es).cur])
    decreases |es|
  {
    if es != [] {
      FilledGreedy(es[..|es| - 1]);
      FilledOk(es[..|es| - 1]);
      AddKeepsGreedy(Filled(es[..|es| - 1]), es[|es| - 1]);
    }
  }

  lemma AddKeepsGreedy(b: Blocks, r: Record)
    requires Greedy(b.done + [b.cur]) && (b.cur == [] ==> b.done == [])
    ensures Greedy(AddEntry(b, r).done + [AddEntry(b, r).cur])
  {
    hide EntryBytes, Body;
    var all, b' := b.done + [b.cur], AddEntry(b, r);
    var all' := b'.done + [b'.cur];
    forall i | 0 <= i < |all'| - 1 && all'[i + 1] != []
      ensures |Body(all'[i])| + |EntryBytes(all'[i + 1][0])| > 4096
    {
      assert all'[i] == all[i];
      if i + 1 < |all| && b.cur != [] { assert all[i + 1] != [] && all'[i + 1][0] == all[i + 1][0]; }
    }
  }

  /** No block is sealed early: it is only when the next entry does not fit any more. */
  lemma SplitGreedy(es: seq<Record>)
    ensures Greedy(BlocksOf(es))
  {
    hide Filled, EntryBytes, Body;
    FilledGreedy(es);
    var b := Filled(es);
    var all := b.done + [b.cur];
    forall i | 0 <= i < |b.done| - 1 && b.done[i + 1] != []
      ensures |Body(b.done[i])| + |EntryBytes(b.done[i + 1][0])| > 4096
    {
      assert all[i] == b.done[i] && all[i + 1] == b.done[i + 1];
    }
  }

  // ------------------------------------------------------------------- index

  datatype Handle = Handle(firstKey: Bytes, offset: nat, len: nat)

  function Data(crc: Checksum, blocks: seq<seq<Record>>): Bytes {
    if blocks == [] then [] else Sealed(crc, Body(blocks[0])) + Data(crc, blocks[1..])
  }

  function Handles(crc: Checksum, blocks: seq<seq<Record>>): (hs: seq<Handle>)
    requires forall i :: 0 <= i < |blocks| ==> blocks[i] != []
    ensures |hs| == |blocks|
  {
    seq(|blocks|, i requires 0 <= i < |blocks| =>
      Handle(blocks[i][0].key, |Data(crc, blocks[..i])|, |Body(blocks[i])| + 4))
  }

  function HandleBytes(h: Handle): Bytes {
    PutBytes(h.firstKey) + (PutU64(h.offset) + PutU32(h.len))
  }

  predicate HandleFits(h: Handle) { |h.firstKey| < POW32 && h.offset < POW64 && h.len < POW32 }

  function HandlesBytes(hs: seq<Handle>): Bytes {
    if hs == [] then [] else HandleBytes(hs[0]) + HandlesBytes(hs[1..])
  }

  function IndexBody(hs: seq<Handle>): Bytes { PutU32(|hs|) + HandlesBytes(hs) }

  function TakeHandle(buf: Bytes): Parsed<Handle> {
    match TakeBytes(buf)
    case Corrupt => Corrupt
    case Got(firstKey, buf1) =>
      match TakeU64(buf1)
      case Corrupt => Corrupt
      case Got(offset, buf2) =>
        match TakeU32(buf2)
        case Corrupt => Corrupt
        case Got(len, rest) => Got(Handle(firstKey, offset, len), rest)
  }

  function TakeHandles(buf: Bytes, count: nat): Parsed<seq<Handle>>
    decreases count
  {
    if count == 0 then Got([], buf)
    else
      match TakeHandle(buf)
      case Corrupt => Corrupt
      case Got(h, rest) =>
        match TakeHandles(rest, count - 1)
        case Corrupt => Corrupt
        case Got(hs, rest') => Got([h] + hs, rest')
  }

  /** `decode_index`, on the body. */
  function TakeIndex(buf: Bytes): Option<seq<Handle>> {
    match TakeU32(buf)
    case Corrupt => None
    case Got(count, rest) =>
      match TakeHandles(rest, count)
      case Corrupt => None
      case Got(hs, _) => Some(hs)
  }

  lemma TakeHandleWritten(h: Handle, rest: Bytes)
    requires HandleFits(h)
    ensures TakeHandle(HandleBytes(h) + rest) == Got(h, rest)
  {
    hide PutU32, PutU64, PutBytes;
    var b2 := PutU32(h.len) + rest;
    var b1 := PutU64(h.offset) + b2;
    assert HandleBytes(h) + rest == PutBytes(h.firstKey) + b1;
    TakeBytesWritten(h.firstKey, b1);
    TakeU64Written(h.offset, b2);
    TakeU32Written(h.len, rest);
  }

  lemma {:induction false} TakeHandlesWritten(hs: seq<Handle>, rest: Bytes)
    requires forall i :: 0 <= i < |hs| ==> HandleFits(hs[i])
    ensures TakeHandles(HandlesBytes(hs) + rest, |hs|) == Got(hs, rest)
  {
    hide TakeHandle, HandleBytes, HandleFits;
    if hs == [] {
      assert HandlesBytes(hs) + rest == rest;
    } else {
      Assoc(HandleBytes(hs[0]), HandlesBytes(hs[1..]), rest);
      TakeHandleWritten(hs[0], HandlesBytes(hs[1..]) + rest);
      TakeHandlesWritten(hs[1..], rest);
      assert [hs[0]] + hs[1..] == hs;
    }
  }

  lemma IndexRoundTrip(hs: seq<Handle>)
    requires |hs| < POW32 && forall i :: 0 <= i < |hs| ==> HandleFits(hs[i])
    ensures TakeIndex(IndexBody(hs)) == Some(hs)
  {
    TakeU32Written(|hs|, HandlesBytes(hs));
    TakeHandlesWritten(hs, []);
    assert HandlesBytes(hs) + [] == HandlesBytes(hs);
  }

  // ------------------------------------------------------------------ footer

  datatype Footer = Footer(indexOff: nat, indexLen: nat, bloomOff: nat, bloomLen: nat, numEntries: nat)

  predicate FooterFits(f: Footer) {
    f.indexOff < POW64 && f.indexLen < POW32 && f.bloomOff < POW64 && f.bloomLen < POW32 && f.numEntries < POW64
  }

  function FooterBody(f: Footer): (b: Bytes)
    ensures |b| == FOOTER_SIZE - 4
  {
    PutU64(FOOTER_MAGIC) + (PutU32(FORMAT_VERSION) + (PutU64(f.indexOff) + (PutU32(f.indexLen)
      + (PutU64(f.bloomOff) + (PutU32(f.bloomLen) + PutU64(f.numEntries))))))
  }

  function TakeFooter(buf: Bytes): Option<Footer> {
    match TakeU64(buf)
    case Corrupt => None
    case Got(magic, b1) =>
      if magic != FOOTER_MAGIC then None
      else
        match TakeU32(b1)
        case Corrupt => None
        case Got(version, b2) => if version != FORMAT_VERSION then None else TakeFooterFields(b2)
  }

  function TakeFooterFields(buf: Bytes): Option<Footer> {
    match TakeU64(buf)
    case Corrupt => None
    case Got(indexOff, b1) =>
      match TakeU32(b1)
      case Corrupt => None
      case Got(indexLen, b2) =>
        match TakeU64(b2)
        case Corrupt => None
        case Got(bloomOff, b3) =>
          match TakeU32(b3)
          case Corrupt => None
          case Got(bloomLen, b4) =>
            match TakeU64(b4)
            case Corrupt => None
            case Got(numEntries, _) => Some(Footer(indexOff, indexLen, bloomOff, bloomLen, numEntries))
  }

  lemma FooterRoundTrip(f: Footer)
    requires FooterFits(f)
    ensures TakeFooter(FooterBody(f)) == Some(f)
  {
    hide PutU32, PutU64;
    var b5 := PutU64(f.numEntries);
    var b4 := PutU32(f.bloomLen) + b5;
    var b3 := PutU64(f.bloomOff) + b4;
    var b2 := PutU32(f.indexLen) + b3;
    var b1 := PutU64(f.indexOff) + b2;
    var b0 := PutU32(FORMAT_VERSION) + b1;
    TakeU64Written(FOOTER_MAGIC, b0);
    TakeU32Written(FORMAT_VERSION, b1);
    TakeU64Written(f.indexOff, b2);
    TakeU32Written(f.indexLen, b3);
    TakeU64Written(f.bloomOff, b4);
    TakeU32Written(f.bloomLen, b5);
    TakeU64Written(f.numEntries, []);
    assert b5 + [] == b5;
  }

  // ---------------------------------------------------------------- the file

  function KeysOf(es: seq<Record>): (ks: seq<Bytes>)
    ensures |ks| == |es|
    ensures forall i :: 0 <= i < |es| ==> ks[i] == es[i].key
  {
    seq(|es|, i requires 0 <= i < |es| => es[i].key)
  }

  function FilterOf(c: Codec, expected: nat, es: seq<Record>): (f: Bloom.Filter)
    ensures Bloom.Sound(f)
  {
    Bloom.InsertAll(c.hash, Bloom.New(c.probes, expected, BITS_PER_KEY), KeysOf(es))
  }

  lemma BlocksNonEmpty(es: seq<Record>)
    ensures forall i :: 0 <= i < |BlocksOf(es)| ==> BlocksOf(es)[i] != []
  {
    SplitCorrect(es);
  }

  function IndexOf(c: Codec, es: seq<Record>): (hs: seq<Handle>)
    ensures |hs| == |BlocksOf(es)|
  {
    BlocksNonEmpty(es);
    Handles(c.crc, BlocksOf(es))
  }

  function DataPart(c: Codec, es: seq<Record>): Bytes { Data(c.crc, BlocksOf(es)) }

  function IndexPart(c: Codec, es: seq<Record>): Bytes { Sealed(c.crc, IndexBody(IndexOf(c, es))) }

  function BloomPart(c: Codec, expected: nat, es: seq<Record>): Bytes {
    Sealed(c.crc, Bloom.Encode(FilterOf(c, expected, es)))
  }

  function FooterOf(c: Codec, expected: nat, es: seq<Record>): Footer {
    var d, i, b := |DataPart(c, es)|, |IndexPart(c, es)|, |BloomPart(c, expected, es)|;
    Footer(d, i, d + i, b, |es|)
  }

  function FooterPart(c: Codec, expected: nat, es: seq<Record>): (b: Bytes)
    ensures |b| == FOOTER_SIZE
  {
    Sealed(c.crc, FooterBody(FooterOf(c, expected, es)))
  }

  /** The bytes `finish` leaves in the file. */
  function File(c: Codec, expected: nat, es: seq<Record>): Bytes {
    DataPart(c, es) + IndexPart(c, es) + BloomPart(c, expected, es) + FooterPart(c, expected, es)
  }

  /** The lengths the format stores in fixed-width fields do fit them. */
  predicate TableFits(c: Codec, expected: nat, es: seq<Record>) {
    && EntriesFit(es) && |BlocksOf(es)| < POW32 && FooterFits(FooterOf(c, expected, es))
    && Bloom.Fits(FilterOf(c, expected, es))
    && (forall i :: 0 <= i < |IndexOf(c, es)| ==> HandleFits(IndexOf(c, es)[i]))
  }

  /** A filter made for at least as many keys as it gets has ten bits for each. */
  lemma FilterRoom(c: Codec, expected: nat, es: seq<Record>)
    requires |es| <= expected
    ensures FilterOf(c, expected, es).numBits >= 10 * |es|
  {
    Bloom.SizeMeans(expected, BITS_PER_KEY);
  }

  lemma {:induction false} BodyHolds(block: seq<Record>, i: nat)
    requires i < |block|
    ensures |EntryBytes(block[i])| <= |Body(block)|
  {
    hide EntryBytes;
    if i > 0 { BodyHolds(block[1..], i - 1); }
  }

  lemma {:induction false} BodyCounts(block: seq<Record>)
    ensures |block| <= |Body(block)|
  {
    hide EntryBytes;
    if block != [] { BodyCounts(block[1..]); }
  }

  /** A data part is longer than its blocks, their number and the number of their entries. */
  lemma {:induction false} DataHolds(crc: Checksum, blocks: seq<seq<Record>>)
    ensures |blocks| <= |Data(crc, blocks)| && |Flatten(blocks)| <= |Data(crc, blocks)|
    ensures forall i :: 0 <= i < |blocks| ==> |Body(blocks[i])| + 4 <= |Data(crc, blocks)|
  {
    hide Body;
    if blocks != [] {
      DataHolds(crc, blocks[1..]);
      BodyCounts(blocks[0]);
      assert forall i :: 0 < i < |blocks| ==> blocks[i] == blocks[1..][i - 1];
    }
  }

  lemma EntryInData(crc: Checksum, blocks: seq<seq<Record>>, i: nat, j: nat)
    requires i < |blocks| && j < |blocks[i]|
    ensures |blocks[i][j].key| <= |Data(crc, blocks)|
    ensures blocks[i][j].value.kind.Value? ==> |blocks[i][j].value.kind.bytes| <= |Data(crc, blocks)|
  {
    hide Data, Body;
    DataHolds(crc, blocks);
    BodyHolds(blocks[i], j);
  }

  lemma {:induction false} InSomeBlock(blocks: seq<seq<Record>>, r: Record) returns (i: nat, j: nat)
    requires r in Flatten(blocks)
    ensures i < |blocks| && j < |blocks[i]| && blocks[i][j] == r
  {
    if r in blocks[0] {
      i := 0;
      j :| 0 <= j < |blocks[0]| && blocks[0][j] == r;
    } else {
      assert r in Flatten(blocks[1..]);
      var i', j' := InSomeBlock(blocks[1..], r);
      i, j := i' + 1, j';
    }
  }

  /** The fixed-width fields leave room: a table file below 512 MiB fits, whatever it holds. */
  lemma SmallTablesFit(c: Codec, expected: nat, es: seq<Record>)
    requires |File(c, expected, es)| < 0x2000_0000 && forall i :: 0 <= i < |es| ==> es[i].value.stamp < POW64
    ensures TableFits(c, expected, es)
  {
    hide Data, Body, BlocksOf, Flatten, IndexBody, FooterBody, Bloom.Sound;
    var blocks, all := BlocksOf(es), |File(c, expected, es)|;
    SplitCorrect(es);
    BlocksNonEmpty(es);
    DataHolds(c.crc, blocks);
    forall k | 0 <= k < |es|
      ensures EntryFits(es[k])
    {
      assert es[k] in Flatten(blocks);
      var i, j := InSomeBlock(blocks, es[k]);
      EntryInData(c.crc, blocks, i, j);
    }
    forall i | 0 <= i < |IndexOf(c, es)|
      ensures HandleFits(IndexOf(c, es)[i])
    {
      EntryInData(c.crc, blocks, i, 0);
      BlockBefore(c.crc, blocks, i);
    }
    FilterFits(c, expected, es);
  }

  lemma FilterFits(c: Codec, expected: nat, es: seq<Record>)
    requires |BloomPart(c, expected, es)| < 0x2000_0000
    ensures Bloom.Fits(FilterOf(c, expected, es))
  {
    var f := FilterOf(c, expected, es);
    assert |Bloom.Encode(f)| == 16 + |f.bits| && f.numHashes <= 30;
  }

  lemma BlockBefore(crc: Checksum, blocks: seq<seq<Record>>, i: nat)
    requires i < |blocks|
    ensures |Data(crc, blocks[..i])| <= |Data(crc, blocks)|
  {
    assert blocks == blocks[..i] + blocks[i..];
    DataConcat(crc, blocks[..i], blocks[i..]);
  }

  /** Where the parts of an entry lie: the key, its number, then a tag that is 1 for a value and 0 for a deletion. */
  lemma EntryLayout(r: Record)
    ensures var n := |r.key|;
      && EntryBytes(r)[..4 + n] == PutU32(n) + r.key && EntryBytes(r)[4 + n..12 + n] == PutU64(r.value.stamp)
      && EntryBytes(r)[12 + n] == if r.value.kind.Value? then 1 else 0
  {
    hide PutU64, PutU32;
  }

  /** A footer is 48 bytes, the first twelve of them `ACCR_SST`, low byte first, and format version 1. */
  lemma FooterLayout(c: Codec, f: Footer)
    ensures |Sealed(c.crc, FooterBody(f))| == 48
    ensures FooterBody(f)[..12] == [0x54, 0x53, 0x53, 0x5F, 0x52, 0x43, 0x43, 0x41, 1, 0, 0, 0]
  {
    assert PutU64(FOOTER_MAGIC) == [0x54, 0x53, 0x53, 0x5F, 0x52, 0x43, 0x43, 0x41];
    assert PutU32(FORMAT_VERSION) == [1, 0, 0, 0];
    hide PutU64, PutU32;
  }

  // ----------------------------------------------------------------- reading

  datatype Opened = Opened(index: seq<Handle>, filter: Bloom.Filter, numEntries: nat)

  /** `read_exact`. */
  function ReadExact(file: Bytes, offset: nat, len: nat): Option<Bytes> {
    if offset + len > |file| then None else Some(file[offset..offset + len])
  }

  /** `check_region`, then the checksummed read. */
  function ReadRegion(crc: Checksum, file: Bytes, offset: nat, len: nat, limit: nat): Option<Bytes> {
    if offset + len > limit then None
    else
      match ReadExact(file, offset, len)
      case None => None
      case Some(buf) => Unseal(crc, buf)
  }

  function Open(c: Codec, file: Bytes): (r: Option<Opened>)
    ensures r.Some? ==> Bloom.Sound(r.value.filter)
  {
    if |file| < FOOTER_SIZE then None
    else
      var footerStart := |file| - FOOTER_SIZE;
      match Unseal(c.crc, file[footerStart..])
      case None => None
      case Some(body) =>
        match TakeFooter(body)
        case None => None
        case Some(f) =>
          if f.bloomOff + f.bloomLen > footerStart then None
          else
            match ReadRegion(c.crc, file, f.indexOff, f.indexLen, footerStart)
            case None => None
            case Some(indexBody) =>
              match TakeIndex(indexBody)
              case None => None
              case Some(index) =>
                match ReadRegion(c.crc, file, f.bloomOff, f.bloomLen, footerStart)
                case None => None
                case Some(bloomBody) =>
                  match Bloom.Decode(bloomBody)
                  case Corrupt => None
                  case Got(filter, _) => Some(Opened(index, filter, f.numEntries))
  }

  /** `load_block`. */
  function Load(c: Codec, file: Bytes, h: Handle): Option<seq<Record>> {
    match ReadExact(file, h.offset, h.len)
    case None => None
    case Some(raw) =>
      match Unseal(c.crc, raw)
      case None => None
      case Some(body) => TakeEntries(body)
  }

  /** Everything the iterator yields, block by block. */
  function LoadAll(c: Codec, file: Bytes, index: seq<Handle>): Option<seq<Record>> {
    if index == [] then Some([])
    else
      match Load(c, file, index[0])
      case None => None
      case Some(block) =>
        var more := LoadAll(c, file, index[1..]);
        if more.None? then None else Some(block + more.value)
  }

  function ReadAll(c: Codec, file: Bytes): Option<seq<Record>> {
    match Open(c, file)
    case None => None
    case Some(o) => LoadAll(c, file, o.index)
  }

  /** How many leading blocks start at or before the key. */
  function PartitionPoint(index: seq<Handle>, key: Bytes): (n: nat)
    ensures n <= |index|
  {
    if index == [] || !AtMost(index[0].firstKey, key) then 0 else 1 + PartitionPoint(index[1..], key)
  }

  function FindBlock(index: seq<Handle>, key: Bytes): (r: Option<nat>)
    ensures r.Some? ==> r.value < |index|
  {
    if index == [] || Less(key, index[0].firstKey) then None
    else
      var p := PartitionPoint(index, key);
      if p == 0 then None else Some(p - 1)
  }

  /** The entry with this key, if the block has it. */
  function SearchBlock(block: seq<Record>, key: Bytes): Option<Record> {
    if block == [] then None
    else if block[0].key == key then Some(block[0]) else SearchBlock(block[1..], key)
  }

  /** `SsTableReader::get`; the outer `None` is a corrupt block. */
  function Get(c: Codec, file: Bytes, o: Opened, key: Bytes): Option<Option<Record>>
    requires Bloom.Sound(o.filter)
  {
    if !Bloom.Admits(c.hash, o.filter, key) then Some(None)
    else
      match FindBlock(o.index, key)
      case None => Some(None)
      case Some(i) =>
        match Load(c, file, o.index[i])
        case None => None
        case Some(block) => Some(SearchBlock(block, key))
  }

  // -------------------------------------------------------------- round trip

  lemma {:induction false} DataConcat(crc: Checksum, a: seq<seq<Record>>, b: seq<seq<Record>>)
    ensures Data(crc, a + b) == Data(crc, a) + Data(crc, b)
  {
    if a == [] {
      assert a + b == b;
    } else {
      assert (a + b)[1..] == a[1..] + b;
      DataConcat(crc, a[1..], b);
    }
  }

  lemma DataOne(crc: Checksum, block: seq<Record>)
    ensures Data(crc, [block]) == Sealed(crc, Body(block))
  {
    assert Data(crc, [block][1..]) == [];
  }

  /** Where block `i` lies in the data part. */
  lemma BlockPlace(crc: Checksum, blocks: seq<seq<Record>>, i: nat)
    requires i < |blocks|
    ensures var off, len := |Data(crc, blocks[..i])|, |Body(blocks[i])| + 4;
            && off + len <= |Data(crc, blocks)|
            && Data(crc, blocks)[off..off + len] == Sealed(crc, Body(blocks[i]))
  {
    assert blocks == blocks[..i] + ([blocks[i]] + blocks[i + 1..]);
    DataConcat(crc, blocks[..i], [blocks[i]] + blocks[i + 1..]);
    DataConcat(crc, [blocks[i]], blocks[i + 1..]);
    DataOne(crc, blocks[i]);
  }

  lemma SliceOfPrefix(p: Bytes, s: Bytes, a: nat, b: nat)
    requires p <= s && a <= b <= |p|
    ensures s[a..b] == p[a..b]
  {
  }

  lemma LoadBlock(c: Codec, blocks: seq<seq<Record>>, file: Bytes, i: nat)
    requires i < |blocks| && Data(c.crc, blocks) <= file
    requires forall j :: 0 <= j < |blocks| ==> blocks[j] != []
    requires EntriesFit(blocks[i])
    ensures Load(c, file, Handles(c.crc, blocks)[i]) == Some(blocks[i])
  {
    hide Sealed, Load, Body, Data, EntriesFit;
    BlockPlace(c.crc, blocks, i);
    var h := Handles(c.crc, blocks)[i];
    SliceOfPrefix(Data(c.crc, blocks), file, h.offset, h.offset + h.len);
    LoadSealed(c, file, h, blocks[i]);
  }

  lemma LoadSealed(c: Codec, file: Bytes, h: Handle, block: seq<Record>)
    requires h.offset + h.len <= |file| && file[h.offset..h.offset + h.len] == Sealed(c.crc, Body(block)) && EntriesFit(block)
    ensures Load(c, file, h) == Some(block)
  {
    hide Sealed, Unseal, TakeEntries, Body, EntriesFit;
    UnsealSealed(c.crc, Body(block));
    BlockRoundTrip(block);
  }

  lemma {:induction false} LoadAllBlocks(c: Codec, blocks: seq<seq<Record>>, file: Bytes, i: nat)
    requires i <= |blocks| && Data(c.crc, blocks) <= file
    requires forall j :: 0 <= j < |blocks| ==> blocks[j] != [] && EntriesFit(blocks[j])
    ensures LoadAll(c, file, Handles(c.crc, blocks)[i..]) == Some(Flatten(blocks[i..]))
    decreases |blocks| - i
  {
    if i < |blocks| {
      LoadBlock(c, blocks, file, i);
      LoadAllBlocks(c, blocks, file, i + 1);
      assert Handles(c.crc, blocks)[i..][1..] == Handles(c.crc, blocks)[i + 1..];
      assert blocks[i..][1..] == blocks[i + 1..];
    }
  }

  lemma {:induction false} FlattenFits(blocks: seq<seq<Record>>, i: nat)
    requires EntriesFit(Flatten(blocks)) && i < |blocks|
    ensures EntriesFit(blocks[i])
  {
    var all := Flatten(blocks);
    if i == 0 {
      assert forall j :: 0 <= j < |blocks[0]| ==> blocks[0][j] == all[j];
    } else {
      assert forall j :: 0 <= j < |Flatten(blocks[1..])| ==> Flatten(blocks[1..])[j] == all[j + |blocks[0]|];
      FlattenFits(blocks[1..], i - 1);
    }
  }

  /** Opening a built file gives back its index, its filter and its entry count. */
  lemma OpenBuilt(c: Codec, expected: nat, es: seq<Record>)
    requires TableFits(c, expected, es)
    ensures Open(c, File(c, expected, es)) == Some(Opened(IndexOf(c, es), FilterOf(c, expected, es), |es|))
  {
    hide Bloom.Encode, IndexBody, FooterBody, FilterOf, IndexOf, BlocksOf, TakeFooter, TakeIndex, Bloom.Decode, Unseal, Sealed;
    var file := File(c, expected, es);
    var d, i, b, f := DataPart(c, es), IndexPart(c, es), BloomPart(c, expected, es), FooterPart(c, expected, es);
    var footer := FooterOf(c, expected, es);
    var start := |file| - FOOTER_SIZE;
    assert file[start..] == f;
    UnsealSealed(c.crc, FooterBody(footer));
    FooterRoundTrip(footer);
    assert file[footer.indexOff..footer.indexOff + footer.indexLen] == i;
    UnsealSealed(c.crc, IndexBody(IndexOf(c, es)));
    IndexRoundTrip(IndexOf(c, es));
    assert file[footer.bloomOff..footer.bloomOff + footer.bloomLen] == b;
    UnsealSealed(c.crc, Bloom.Encode(FilterOf(c, expected, es)));
    Bloom.CodecRoundTrip(FilterOf(c, expected, es), []);
    assert Bloom.Encode(FilterOf(c, expected, es)) + [] == Bloom.Encode(FilterOf(c, expected, es));
  }

  /** SSTable round trip: iterating a built file yields exactly the entries it was built from. */
  lemma TableRoundTrip(c: Codec, expected: nat, es: seq<Record>)
    requires TableFits(c, expected, es)
    ensures ReadAll(c, File(c, expected, es)) == Some(es)
  {
    hide Open, File, FilterOf, Data, LoadAll, Handles, BlocksOf, Flatten, EntryFits;
    DataIsPrefix(c, expected, es);
    OpenBuilt(c, expected, es);
    SplitCorrect(es);
    var blocks := BlocksOf(es);
    forall j | 0 <= j < |blocks|
      ensures EntriesFit(blocks[j])
    {
      FlattenFits(blocks, j);
    }
    LoadAllBlocks(c, blocks, File(c, expected, es), 0);
    assert IndexOf(c, es)[0..] == IndexOf(c, es) && blocks[0..] == blocks;
  }

  // ------------------------------------------------------------------ lookup

  lemma {:induction false} SearchSorted(block: seq<Record>, key: Bytes)
    requires Sorted(block)
    ensures SearchBlock(block, key)
         == if key in MapOf(block) then Some(Record(key, MapOf(block)[key])) else None
  {
    if block != [] {
      SortedTail(block);
      HeadOfSorted(block, key);
      SearchSorted(block[1..], key);
    }
  }

  lemma {:induction false} PartitionSplits(index: seq<Handle>, key: Bytes)
    ensures var p := PartitionPoint(index, key);
      && (forall i :: 0 <= i < p ==> AtMost(index[i].firstKey, key))
      && (p < |index| ==> !AtMost(index[p].firstKey, key))
  {
    if index != [] && AtMost(index[0].firstKey, key) {
      PartitionSplits(index[1..], key);
      var p := PartitionPoint(index[1..], key);
      forall i | 0 <= i < p + 1
        ensures AtMost(index[i].firstKey, key)
      {
        if i > 0 { assert index[i] == index[1..][i - 1]; }
      }
    }
  }

  /** Of blocks that lie end to end in a sorted list, only the last one starting at or before the key can hold it. */
  lemma {:induction false} OnlyCandidate(blocks: seq<seq<Record>>, p: nat, key: Bytes)
    requires Sorted(Flatten(blocks)) && p <= |blocks|
    requires forall j :: 0 <= j < |blocks| ==> blocks[j] != []
    requires forall j :: 0 <= j < p ==> AtMost(blocks[j][0].key, key)
    requires p < |blocks| ==> !AtMost(blocks[p][0].key, key)
    ensures p == 0 ==> key !in MapOf(Flatten(blocks))
    ensures p > 0 ==> Sorted(blocks[p - 1])
    ensures p > 0 ==> (key in MapOf(Flatten(blocks)) <==> key in MapOf(blocks[p - 1]))
    ensures p > 0 && key in MapOf(blocks[p - 1]) ==> MapOf(Flatten(blocks))[key] == MapOf(blocks[p - 1])[key]
  {
    if blocks == [] {
    } else if p == 0 {
      var all := Flatten(blocks);
      assert all[0] == blocks[0][0];
      HeadIsLeast(all, key);
    } else {
      var first, more := blocks[0], Flatten(blocks[1..]);
      SortedParts(first, more);
      if p == 1 {
        if |blocks| > 1 { OnlyCandidate(blocks[1..], 0, key); }
        MapOfConcat(first, more, key);
      } else {
        OnlyCandidate(blocks[1..], p - 1, key);
        MapOfConcat(first, more, key);
        assert more[0] == blocks[1][0];
        BeforeSecond(first, more, key);
      }
    }
  }

  lemma SortedParts(a: seq<Record>, b: seq<Record>)
    requires Sorted(a + b)
    ensures Sorted(a) && Sorted(b)
    ensures forall i, j :: 0 <= i < |a| && 0 <= j < |b| ==> Less(a[i].key, b[j].key)
  {
    var s := a + b;
    assert forall i :: 0 <= i < |a| ==> s[i] == a[i];
    assert forall j :: 0 <= j < |b| ==> s[|a| + j] == b[j];
  }

  lemma {:induction false} MapOfConcat(a: seq<Record>, b: seq<Record>, key: Bytes)
    ensures key in MapOf(a + b) <==> key in MapOf(a) || key in MapOf(b)
    ensures key in MapOf(a) ==> MapOf(a + b)[key] == MapOf(a)[key]
    ensures key !in MapOf(a) && key in MapOf(b) ==> MapOf(a + b)[key] == MapOf(b)[key]
  {
    if a == [] {
      assert a + b == b;
    } else {
      assert (a + b)[1..] == a[1..] + b;
      MapOfConcat(a[1..], b, key);
    }
  }

  lemma BeforeSecond(first: seq<Record>, more: seq<Record>, key: Bytes)
    requires Sorted(first + more) && more != [] && AtMost(more[0].key, key)
    ensures key !in MapOf(first)
  {
    SortedParts(first, more);
    AllBelowKey(first, more[0].key, key);
    if Less(key, more[0].key) { LessAsymmetric(key, more[0].key); }
    LessIrreflexive(key);
  }

  lemma AllBelowKey(run: seq<Record>, bound: Bytes, key: Bytes)
    requires forall i :: 0 <= i < |run| ==> Less(run[i].key, bound)
    ensures key in MapOf(run) ==> Less(key, bound)
  {
    MapOfKeys(run, key);
  }

  /** No key of a sorted run is below its head. */
  lemma HeadIsLeast(run: seq<Record>, key: Bytes)
    requires Sorted(run) && run != []
    ensures key in MapOf(run) ==> AtMost(run[0].key, key)
  {
    MapOfKeys(run, key);
  }

  /** The sparse index leads to the one block that can hold the key. */
  lemma FindBlockBuilt(c: Codec, es: seq<Record>, key: Bytes)
    requires Sorted(es)
    ensures match FindBlock(IndexOf(c, es), key)
            case None => key !in MapOf(es)
            case Some(i) =>
              && Sorted(BlocksOf(es)[i])
              && (key in MapOf(es) <==> key in MapOf(BlocksOf(es)[i]))
              && (key in MapOf(es) ==> MapOf(es)[key] == MapOf(BlocksOf(es)[i])[key])
  {
    hide BlocksOf, Body, MapOf, Sorted, Flatten;
    var index, blocks := IndexOf(c, es), BlocksOf(es);
    var p := PartitionPoint(index, key);
    SplitCorrect(es);
    assert forall j :: 0 <= j < |blocks| ==> BlockOk(blocks[j]);
    assert forall j :: 0 <= j < |blocks| ==> index[j].firstKey == blocks[j][0].key;
    PartitionSplits(index, key);
    OnlyCandidate(blocks, p, key);
    if index != [] {
      LessTotal(key, index[0].firstKey);
      if Less(key, index[0].firstKey) { LessAsymmetric(key, index[0].firstKey); }
    }
  }

  /** A point lookup in a built file finds exactly what the sorted list binds to the key: the filter
      has no false negatives, and the sparse index leads to the one block that can hold the key. */
  lemma GetBuilt(c: Codec, expected: nat, es: seq<Record>, key: Bytes)
    requires TableFits(c, expected, es) && Sorted(es)
    ensures Get(c, File(c, expected, es), Opened(IndexOf(c, es), FilterOf(c, expected, es), |es|), key)
         == Some(if key in MapOf(es) then Some(Record(key, MapOf(es)[key])) else None)
  {
    hide Bloom.Admits, FilterOf, File, Load, BlocksOf, IndexOf, FindBlock, MapOf, SearchBlock, Sorted;
    FindBlockBuilt(c, es, key);
    if key in MapOf(es) { AdmitsBuilt(c, expected, es, key); }
    match FindBlock(IndexOf(c, es), key)
    case None =>
    case Some(i) =>
      LoadBuilt(c, expected, es, i);
      SearchSorted(BlocksOf(es)[i], key);
  }

  lemma LoadBuilt(c: Codec, expected: nat, es: seq<Record>, i: nat)
    requires EntriesFit(es) && i < |BlocksOf(es)|
    ensures Load(c, File(c, expected, es), IndexOf(c, es)[i]) == Some(BlocksOf(es)[i])
  {
    hide File, BlocksOf, Load, Data, Handles, Flatten;
    SplitCorrect(es);
    BlocksNonEmpty(es);
    FlattenFits(BlocksOf(es), i);
    DataIsPrefix(c, expected, es);
    LoadBlock(c, BlocksOf(es), File(c, expected, es), i);
  }

  lemma DataIsPrefix(c: Codec, expected: nat, es: seq<Record>)
    ensures Data(c.crc, BlocksOf(es)) <= File(c, expected, es)
  {
  }

  lemma AdmitsBuilt(c: Codec, expected: nat, es: seq<Record>, key: Bytes)
    requires key in MapOf(es)
    ensures Bloom.Admits(c.hash, FilterOf(c, expected, es), key)
  {
    MapOfKeys(es, key);
    var i :| 0 <= i < |es| && es[i].key == key;
    Bloom.NoFalseNegatives(c.hash, Bloom.New(c.probes, expected, BITS_PER_KEY), KeysOf(es), i);
  }
}
