// What a table reader accepts, exactly; and so what it notices when a byte of a
// table file has changed.

module TableDamage {
  import opened Wrappers
  import opened ByteStrings
  import opened Crc
  import opened Seqs
  import opened Parse
  import opened Versions
  import opened TableFormat
  import Bloom

  // ------------------------------------------------------------------ blocks

  lemma TakeKindIff(buf: Bytes, kind: ValueKind, rest: Bytes)
    ensures TakeKind(buf) == Got(kind, rest)
       <==> (kind.Value? ==> |kind.bytes| < POW32) && buf == KindBytes(kind) + rest
  {
    hide PutBytes, TakeBytes;
    if TakeKind(buf) == Got(kind, rest) {
      assert buf == [buf[0]] + buf[1..];
      if kind.Value? {
        TakeBytesIff(buf[1..], kind.bytes, rest);
        Assoc([TAG_PUT], PutBytes(kind.bytes), rest);
      }
    } else if (kind.Value? ==> |kind.bytes| < POW32) && buf == KindBytes(kind) + rest {
      TakeKindWritten(kind, rest);
    }
  }

  lemma EntryAssoc(r: Record, rest: Bytes)
    ensures TableFormat.EntryBytes(r) + rest == PutBytes(r.key) + (PutU64(r.value.stamp) + (KindBytes(r.value.kind) + rest))
  {
    hide PutBytes, PutU64, KindBytes;
    Assoc(PutBytes(r.key), PutU64(r.value.stamp) + KindBytes(r.value.kind), rest);
    Assoc(PutU64(r.value.stamp), KindBytes(r.value.kind), rest);
  }

  lemma TakeEntryIff(buf: Bytes, r: Record, rest: Bytes)
    ensures TakeEntry(buf) == Got(r, rest) <==> EntryFits(r) && buf == TableFormat.EntryBytes(r) + rest
  {
    if TakeEntry(buf) == Got(r, rest) {
      hide PutBytes, PutU64, KindBytes, TakeBytes, TakeU64, TakeKind, TableFormat.EntryBytes;
      var b1 := TakeBytes(buf).rest;
      var b2 := TakeU64(b1).rest;
      TakeBytesIff(buf, r.key, b1);
      TakeU64Iff(b1, r.value.stamp, b2);
      TakeKindIff(b2, r.value.kind, rest);
      EntryAssoc(r, rest);
    } else if EntryFits(r) && buf == TableFormat.EntryBytes(r) + rest {
      TakeEntryWritten(r, rest);
    }
  }

  /** A block body decodes to some entries exactly if it is their encoding: no other tag, no trailing byte. */
  lemma {:induction false} TakeEntriesIff(buf: Bytes, es: seq<Record>)
    ensures TakeEntries(buf) == Some(es) <==> EntriesFit(es) && buf == Body(es)
    decreases |buf|
  {
    hide TakeEntry, TableFormat.EntryBytes, EntryFits;
    if TakeEntries(buf) == Some(es) && buf != [] {
      var rest := TakeEntry(buf).rest;
      TakeEntryIff(buf, es[0], rest);
      assert es[1..] == TakeEntries(rest).value;
      TakeEntriesIff(rest, es[1..]);
      assert forall i :: 0 < i < |es| ==> es[i] == es[1..][i - 1];
    } else if EntriesFit(es) && buf == Body(es) {
      BlockRoundTrip(es);
    }
  }

  /** A handle loads a block exactly if the region it points at lies in the file and is that block, sealed. */
  lemma LoadIff(c: Codec, file: Bytes, h: Handle, block: seq<Record>)
    ensures Load(c, file, h) == Some(block)
       <==> h.offset + h.len <= |file| && EntriesFit(block)
            && file[h.offset..h.offset + h.len] == Body(block) + PutU32(c.crc(Body(block)))
  {
    hide PutU32, Unseal, TakeEntries, Body, EntriesFit;
    if h.offset + h.len <= |file| {
      var raw := file[h.offset..h.offset + h.len];
      UnsealIff(c.crc, raw, Body(block));
      if Unseal(c.crc, raw).Some? {
        var body := Unseal(c.crc, raw).value;
        UnsealIff(c.crc, raw, body);
        TakeEntriesIff(body, block);
      }
      TakeEntriesIff(Body(block), block);
    }
  }

  // -------------------------------------------------------- index and footer

  lemma TakeHandleIff(buf: Bytes, h: Handle, rest: Bytes)
    ensures TakeHandle(buf) == Got(h, rest) <==> HandleFits(h) && buf == HandleBytes(h) + rest
  {
    if TakeHandle(buf) == Got(h, rest) {
      hide PutBytes, PutU64, PutU32, TakeBytes, TakeU64, TakeU32;
      var b1 := TakeBytes(buf).rest;
      var b2 := TakeU64(b1).rest;
      TakeBytesIff(buf, h.firstKey, b1);
      TakeU64Iff(b1, h.offset, b2);
      TakeU32Iff(b2, h.len, rest);
      Assoc(PutBytes(h.firstKey), PutU64(h.offset) + PutU32(h.len), rest);
      Assoc(PutU64(h.offset), PutU32(h.len), rest);
    } else if HandleFits(h) && buf == HandleBytes(h) + rest {
      TakeHandleWritten(h, rest);
    }
  }

  lemma {:induction false} HandlesRead(buf: Bytes, count: nat, hs: seq<Handle>, rest: Bytes)
    requires TakeHandles(buf, count) == Got(hs, rest)
    ensures |hs| == count && buf == HandlesBytes(hs) + rest && forall i :: 0 <= i < |hs| ==> HandleFits(hs[i])
    decreases count
  {
    hide TakeHandle, HandleBytes, HandleFits;
    if count == 0 {
      assert HandlesBytes(hs) + rest == rest;
    } else {
      var b1 := TakeHandle(buf).rest;
      TakeHandleIff(buf, hs[0], b1);
      assert TakeHandles(b1, count - 1).value == hs[1..];
      HandlesRead(b1, count - 1, hs[1..], rest);
      Assoc(HandleBytes(hs[0]), HandlesBytes(hs[1..]), rest);
    }
  }

  ghost predicate HandlesFit(hs: seq<Handle>) { |hs| < POW32 && forall i :: 0 <= i < |hs| ==> HandleFits(hs[i]) }

  lemma TakeIndexIff(buf: Bytes, hs: seq<Handle>)
    ensures TakeIndex(buf) == Some(hs) <==> HandlesFit(hs) && IndexBody(hs) <= buf
  {
    hide PutU32, TakeU32, HandlesBytes, TakeHandles, HandleFits;
    if TakeIndex(buf) == Some(hs) {
      var b1 := TakeU32(buf).rest;
      var rest := TakeHandles(b1, TakeU32(buf).value).rest;
      HandlesRead(b1, TakeU32(buf).value, hs, rest);
      TakeU32Iff(buf, |hs|, b1);
      Assoc(PutU32(|hs|), HandlesBytes(hs), rest);
    } else if HandlesFit(hs) && IndexBody(hs) <= buf {
      var rest := buf[|IndexBody(hs)|..];
      assert buf == IndexBody(hs) + rest;
      Assoc(PutU32(|hs|), HandlesBytes(hs), rest);
      TakeU32Written(|hs|, HandlesBytes(hs) + rest);
      TakeHandlesWritten(hs, rest);
    }
  }

  lemma FooterAssoc(f: Footer, rest: Bytes)
    ensures FooterBody(f) + rest
         == PutU64(FOOTER_MAGIC) + (PutU32(FORMAT_VERSION) + (PutU64(f.indexOff) + (PutU32(f.indexLen)
            + (PutU64(f.bloomOff) + (PutU32(f.bloomLen) + (PutU64(f.numEntries) + rest))))))
  {
    hide PutU64, PutU32;
    var b5 := PutU64(f.numEntries);
    var b4 := PutU32(f.bloomLen) + b5;
    var b3 := PutU64(f.bloomOff) + b4;
    var b2 := PutU32(f.indexLen) + b3;
    var b1 := PutU64(f.indexOff) + b2;
    var b0 := PutU32(FORMAT_VERSION) + b1;
    Assoc(PutU64(FOOTER_MAGIC), b0, rest);
    Assoc(PutU32(FORMAT_VERSION), b1, rest);
    Assoc(PutU64(f.indexOff), b2, rest);
    Assoc(PutU32(f.indexLen), b3, rest);
    Assoc(PutU64(f.bloomOff), b4, rest);
    Assoc(PutU32(f.bloomLen), b5, rest);
  }

  /** A footer is read exactly off bytes that begin with the magic, the format version and its fields. */
  lemma TakeFooterIff(buf: Bytes, f: Footer)
    ensures TakeFooter(buf) == Some(f) <==> FooterFits(f) && FooterBody(f) <= buf
  {
    hide PutU64, PutU32, TakeU64, TakeU32, FooterBody;
    if TakeFooter(buf) == Some(f) {
      FooterRead(buf, f);
    } else if FooterFits(f) && FooterBody(f) <= buf {
      var rest := buf[|FooterBody(f)|..];
      assert buf == FooterBody(f) + rest;
      FooterWritten(f, rest);
    }
  }

  lemma FooterRead(buf: Bytes, f: Footer)
    requires TakeFooter(buf) == Some(f)
    ensures FooterFits(f) && FooterBody(f) <= buf
  {
    hide PutU64, PutU32, TakeU64, TakeU32, FooterBody;
    var b0 := TakeU64(buf).rest;
    var b1 := TakeU32(b0).rest;
    var b2 := TakeU64(b1).rest;
    var b3 := TakeU32(b2).rest;
    var b4 := TakeU64(b3).rest;
    var b5 := TakeU32(b4).rest;
    var rest := TakeU64(b5).rest;
    TakeU64Iff(buf, FOOTER_MAGIC, b0);
    TakeU32Iff(b0, FORMAT_VERSION, b1);
    TakeU64Iff(b1, f.indexOff, b2);
    TakeU32Iff(b2, f.indexLen, b3);
    TakeU64Iff(b3, f.bloomOff, b4);
    TakeU32Iff(b4, f.bloomLen, b5);
    TakeU64Iff(b5, f.numEntries, rest);
    FooterAssoc(f, rest);
  }

  lemma FooterWritten(f: Footer, rest: Bytes)
    requires FooterFits(f)
    ensures TakeFooter(FooterBody(f) + rest) == Some(f)
  {
    hide PutU64, PutU32, TakeU64, TakeU32, FooterBody;
    var b5 := PutU64(f.numEntries) + rest;
    var b4 := PutU32(f.bloomLen) + b5;
    var b3 := PutU64(f.bloomOff) + b4;
    var b2 := PutU32(f.indexLen) + b3;
    var b1 := PutU64(f.indexOff) + b2;
    var b0 := PutU32(FORMAT_VERSION) + b1;
    FooterAssoc(f, rest);
    TakeU64Written(FOOTER_MAGIC, b0);
    TakeU32Written(FORMAT_VERSION, b1);
    TakeU64Written(f.indexOff, b2);
    TakeU32Written(f.indexLen, b3);
    TakeU64Written(f.bloomOff, b4);
    TakeU32Written(f.bloomLen, b5);
    TakeU64Written(f.numEntries, rest);
  }

  // ----------------------------------------------------------------- opening

  /** `len` bytes at `off`, all before the footer, are a body followed by its checksum. */
  ghost predicate SealedAt(c: Codec, file: Bytes, off: nat, len: nat, body: Bytes) {
    && off + len + FOOTER_SIZE <= |file|
    && file[off..off + len] == body + PutU32(c.crc(body))
  }

  /** The file ends in a sealed footer that leads to a sealed index and a sealed filter. */
  ghost predicate Leads(c: Codec, file: Bytes, f: Footer, index: Bytes, filter: Bytes, o: Opened) {
    && |file| >= FOOTER_SIZE && FooterFits(f)
    && file[|file| - FOOTER_SIZE..] == FooterBody(f) + PutU32(c.crc(FooterBody(f)))
    && SealedAt(c, file, f.indexOff, f.indexLen, index) && HandlesFit(o.index) && IndexBody(o.index) <= index
    && SealedAt(c, file, f.bloomOff, f.bloomLen, filter)
    && Bloom.Sound(o.filter) && Bloom.Fits(o.filter) && Bloom.Encode(o.filter) <= filter
    && o.numEntries == f.numEntries
  }

  ghost predicate HasTable(c: Codec, file: Bytes, o: Opened) {
    exists f, index, filter :: Leads(c, file, f, index, filter, o)
  }

  lemma RegionIff(c: Codec, file: Bytes, off: nat, len: nat, body: Bytes)
    requires |file| >= FOOTER_SIZE
    ensures ReadRegion(c.crc, file, off, len, |file| - FOOTER_SIZE) == Some(body) <==> SealedAt(c, file, off, len, body)
  {
    hide PutU32, Unseal;
    if off + len + FOOTER_SIZE <= |file| { UnsealIff(c.crc, file[off..off + len], body); }
  }

  lemma FooterIff(c: Codec, tail: Bytes, f: Footer)
    requires |tail| == FOOTER_SIZE
    ensures (Unseal(c.crc, tail).Some? && TakeFooter(Unseal(c.crc, tail).value) == Some(f))
       <==> FooterFits(f) && tail == FooterBody(f) + PutU32(c.crc(FooterBody(f)))
  {
    hide PutU32, Unseal, TakeFooter, FooterBody;
    if Unseal(c.crc, tail).Some? {
      var body := Unseal(c.crc, tail).value;
      UnsealIff(c.crc, tail, body);
      TakeFooterIff(body, f);
      assert FooterBody(f) <= body ==> FooterBody(f) == body;
    }
    UnsealIff(c.crc, tail, FooterBody(f));
    TakeFooterIff(FooterBody(f), f);
  }

  lemma FilterIff(buf: Bytes, f: Bloom.Filter)
    ensures (exists rest :: Bloom.Decode(buf) == Got(f, rest))
       <==> Bloom.Sound(f) && Bloom.Fits(f) && Bloom.Encode(f) <= buf
  {
    hide Bloom.Decode, Bloom.Encode, Bloom.Sound;
    if rest :| Bloom.Decode(buf) == Got(f, rest) {
      Bloom.DecodeIff(buf, f, rest);
    }
    if Bloom.Sound(f) && Bloom.Fits(f) && Bloom.Encode(f) <= buf {
      var rest := buf[|Bloom.Encode(f)|..];
      assert buf == Bloom.Encode(f) + rest;
      Bloom.DecodeIff(buf, f, rest);
    }
  }

  /** A file opens exactly if it ends in a sealed footer, with the magic and the format version, that leads to a sealed
      index and a sealed filter before it; and it opens to those. */
  lemma OpenIff(c: Codec, file: Bytes, o: Opened)
    ensures Open(c, file) == Some(o) <==> HasTable(c, file, o)
  {
    hide PutU32, Unseal, TakeFooter, TakeIndex, IndexBody, FooterBody, ReadRegion, Bloom.Decode, Bloom.Encode, HandlesFit;
    if Open(c, file) == Some(o) {
      Opens(c, file, o);
    }
    if f, index, filter :| Leads(c, file, f, index, filter, o) {
      FooterIff(c, file[|file| - FOOTER_SIZE..], f);
      RegionIff(c, file, f.indexOff, f.indexLen, index);
      RegionIff(c, file, f.bloomOff, f.bloomLen, filter);
      TakeIndexIff(index, o.index);
      FilterIff(filter, o.filter);
    }
  }

  lemma Opens(c: Codec, file: Bytes, o: Opened)
    requires Open(c, file) == Some(o)
    ensures HasTable(c, file, o)
  {
    hide PutU32, Unseal, TakeFooter, TakeIndex, IndexBody, FooterBody, ReadRegion, Bloom.Decode, Bloom.Encode, HandlesFit;
    var tail := file[|file| - FOOTER_SIZE..];
    var f := TakeFooter(Unseal(c.crc, tail).value).value;
    FooterIff(c, tail, f);
    var index := ReadRegion(c.crc, file, f.indexOff, f.indexLen, |file| - FOOTER_SIZE).value;
    var filter := ReadRegion(c.crc, file, f.bloomOff, f.bloomLen, |file| - FOOTER_SIZE).value;
    RegionIff(c, file, f.indexOff, f.indexLen, index);
    RegionIff(c, file, f.bloomOff, f.bloomLen, filter);
    TakeIndexIff(index, o.index);
    FilterIff(filter, o.filter);
    assert Leads(c, file, f, index, filter, o);
  }

  // ------------------------------------------------------------------ damage

  /** A byte changed in one part of the file leaves every other slice as it is. */
  lemma SliceElsewhere(file: Bytes, p: nat, x: byte, a: nat, b: nat)
    requires p < |file| && a <= b <= |file| && !(a <= p < b)
    ensures file[p := x][a..b] == file[a..b]
  {
  }

  lemma SliceHere(file: Bytes, p: nat, x: byte, a: nat, b: nat)
    requires a <= p < b <= |file|
    ensures file[p := x][a..b] == file[a..b][p - a := x]
  {
  }

  /** Where the parts of a built file lie. */
  lemma Parts(c: Codec, expected: nat, es: seq<Record>)
    ensures var file, f := File(c, expected, es), FooterOf(c, expected, es);
      var start := f.bloomOff + f.bloomLen;
      && |file| == start + FOOTER_SIZE && f.indexOff == |DataPart(c, es)| && f.indexOff + f.indexLen == f.bloomOff
      && file[..f.indexOff] == DataPart(c, es)
      && file[f.indexOff..f.bloomOff] == IndexPart(c, es)
      && file[f.bloomOff..start] == BloomPart(c, expected, es)
      && file[start..] == FooterPart(c, expected, es)
  {
    hide DataPart, IndexPart, BloomPart, FooterPart;
    var d, i, b, f := DataPart(c, es), IndexPart(c, es), BloomPart(c, expected, es), FooterPart(c, expected, es);
    assert File(c, expected, es) == d + (i + (b + f));
  }

  /** Where the footer unseals and a region it names does not, opening fails. */
  lemma OpenFails(c: Codec, g: Bytes, f: Footer)
    requires |g| >= FOOTER_SIZE && Unseal(c.crc, g[|g| - FOOTER_SIZE..]).Some?
    requires TakeFooter(Unseal(c.crc, g[|g| - FOOTER_SIZE..]).value) == Some(f)
    requires f.indexOff + f.indexLen <= |g| && f.bloomOff + f.bloomLen <= |g|
    requires Unseal(c.crc, g[f.indexOff..f.indexOff + f.indexLen]) == None || Unseal(c.crc, g[f.bloomOff..f.bloomOff + f.bloomLen]) == None
    ensures Open(c, g) == None
  {
    hide Unseal, TakeFooter, TakeIndex, Bloom.Decode;
  }

  lemma OpenWithoutFooter(c: Codec, g: Bytes)
    requires |g| >= FOOTER_SIZE && Unseal(c.crc, g[|g| - FOOTER_SIZE..]) == None
    ensures Open(c, g) == None
  {
    hide Unseal, TakeFooter, TakeIndex, Bloom.Decode;
  }

  /** Damage behind the data: in the index, in the filter or in the footer. */
  lemma DamagedBehindData(c: Codec, expected: nat, es: seq<Record>, p: nat, x: byte)
    requires TableFits(c, expected, es) && DetectsOneByte(c.crc)
    requires |DataPart(c, es)| <= p < |File(c, expected, es)| && x != File(c, expected, es)[p]
    ensures Open(c, File(c, expected, es)[p := x]) == None
  {
    hide Open, File, DataPart, Sealed, Unseal, TakeFooter, FooterBody, IndexBody, Bloom.Encode, DetectsOneByte, FilterOf, IndexOf,
      EntriesFit, BlocksOf;
    var file, f := File(c, expected, es), FooterOf(c, expected, es);
    var start, bad := |file| - FOOTER_SIZE, file[p := x];
    Parts(c, expected, es);
    if p >= start {
      SliceHere(file, p, x, start, |file|);
      UnsealDamaged(c.crc, FooterBody(f), p - start, x);
      OpenWithoutFooter(c, bad);
    } else {
      SliceElsewhere(file, p, x, start, |file|);
      UnsealSealed(c.crc, FooterBody(f));
      FooterRoundTrip(f);
      if p < f.bloomOff {
        SliceHere(file, p, x, f.indexOff, f.bloomOff);
        UnsealDamaged(c.crc, IndexBody(IndexOf(c, es)), p - f.indexOff, x);
      } else {
        SliceHere(file, p, x, f.bloomOff, start);
        UnsealDamaged(c.crc, Bloom.Encode(FilterOf(c, expected, es)), p - f.bloomOff, x);
      }
      OpenFails(c, bad, f);
    }
  }

  /** Opening looks at the footer, and at the two regions it names, only. */
  lemma OpenFrom(c: Codec, g: Bytes, h: Bytes, f: Footer)
    requires |g| == |h| >= FOOTER_SIZE && g[|g| - FOOTER_SIZE..] == h[|h| - FOOTER_SIZE..]
    requires Unseal(c.crc, g[|g| - FOOTER_SIZE..]).Some? && TakeFooter(Unseal(c.crc, g[|g| - FOOTER_SIZE..]).value) == Some(f)
    requires f.indexOff + f.indexLen <= |g| && g[f.indexOff..f.indexOff + f.indexLen] == h[f.indexOff..f.indexOff + f.indexLen]
    requires f.bloomOff + f.bloomLen <= |g| && g[f.bloomOff..f.bloomOff + f.bloomLen] == h[f.bloomOff..f.bloomOff + f.bloomLen]
    ensures Open(c, g) == Open(c, h)
  {
    hide Unseal, TakeFooter, TakeIndex, Bloom.Decode;
  }

  /** Damage in the data is not looked at when the file is opened. */
  lemma DamagedDataOpens(c: Codec, expected: nat, es: seq<Record>, p: nat, x: byte)
    requires TableFits(c, expected, es) && p < |DataPart(c, es)| && |DataPart(c, es)| <= |File(c, expected, es)|
    ensures Open(c, File(c, expected, es)[p := x]) == Open(c, File(c, expected, es))
  {
    hide File, DataPart, Sealed, Unseal, TakeFooter, FooterBody, IndexOf, EntriesFit, BloomPart, IndexPart, Open, FilterOf, BlocksOf;
    var file, f := File(c, expected, es), FooterOf(c, expected, es);
    var start := |file| - FOOTER_SIZE;
    Parts(c, expected, es);
    SliceElsewhere(file, p, x, start, |file|);
    SliceElsewhere(file, p, x, f.indexOff, f.bloomOff);
    SliceElsewhere(file, p, x, f.bloomOff, start);
    UnsealSealed(c.crc, FooterBody(f));
    FooterRoundTrip(f);
    OpenFrom(c, file[p := x], file, f);
  }

  /** A block with a byte changed does not load; every other block loads as before. */
  lemma DamagedBlock(c: Codec, expected: nat, es: seq<Record>, i: nat, p: nat, x: byte)
    requires TableFits(c, expected, es) && DetectsOneByte(c.crc) && i < |IndexOf(c, es)|
    requires IndexOf(c, es)[i].offset <= p < IndexOf(c, es)[i].offset + IndexOf(c, es)[i].len
    requires p < |File(c, expected, es)| && x != File(c, expected, es)[p]
    ensures Load(c, File(c, expected, es)[p := x], IndexOf(c, es)[i]) == None
    ensures forall j :: 0 <= j < |IndexOf(c, es)| && j != i ==>
              Load(c, File(c, expected, es)[p := x], IndexOf(c, es)[j]) == Load(c, File(c, expected, es), IndexOf(c, es)[j])
  {
    hide DataPart, File, Sealed, Unseal, Load, Body, DetectsOneByte, Data, EntriesFit, TableFits, BlocksOf;
    var file, blocks, hs := File(c, expected, es), BlocksOf(es), IndexOf(c, es);
    var bad := file[p := x];
    DataIsPrefix(c, expected, es);
    BlocksNonEmpty(es);
    BlockPlace(c.crc, blocks, i);
    SliceOfPrefix(Data(c.crc, blocks), file, hs[i].offset, hs[i].offset + hs[i].len);
    SliceHere(file, p, x, hs[i].offset, hs[i].offset + hs[i].len);
    UnsealDamaged(c.crc, Body(blocks[i]), p - hs[i].offset, x);
    LoadFrom(c, bad, bad, hs[i]);
    forall j | 0 <= j < |hs| && j != i
      ensures Load(c, bad, hs[j]) == Load(c, file, hs[j])
    {
      BlockPlace(c.crc, blocks, j);
      if j < i { BlocksApart(c.crc, blocks, j, i); } else { BlocksApart(c.crc, blocks, i, j); }
      SliceElsewhere(file, p, x, hs[j].offset, hs[j].offset + hs[j].len);
      LoadFrom(c, bad, file, hs[j]);
    }
  }

  /** Loading looks at the region of the handle only, and fails if that does not unseal. */
  lemma LoadFrom(c: Codec, f: Bytes, g: Bytes, h: Handle)
    requires h.offset + h.len <= |f| == |g| && f[h.offset..h.offset + h.len] == g[h.offset..h.offset + h.len]
    ensures Load(c, f, h) == Load(c, g, h)
    ensures Unseal(c.crc, f[h.offset..h.offset + h.len]) == None ==> Load(c, f, h) == None
  {
    hide Unseal, TakeEntries;
  }

  /** An earlier block ends where a later one begins, or before. */
  lemma BlocksApart(crc: Checksum, blocks: seq<seq<Record>>, i: nat, j: nat)
    requires i < j < |blocks|
    ensures |Data(crc, blocks[..i])| + |Body(blocks[i])| + 4 <= |Data(crc, blocks[..j])|
  {
    hide Sealed, Body;
    assert blocks[..j] == blocks[..i] + ([blocks[i]] + blocks[i + 1..j]);
    DataConcat(crc, blocks[..i], [blocks[i]] + blocks[i + 1..j]);
    DataConcat(crc, [blocks[i]], blocks[i + 1..j]);
    DataOne(crc, blocks[i]);
  }

  /** Every byte of the data lies in one of the blocks. */
  lemma {:induction false} BlockAround(crc: Checksum, blocks: seq<seq<Record>>, n: nat, p: nat) returns (i: nat)
    requires n <= |blocks| && p < |Data(crc, blocks[..n])|
    ensures i < n && |Data(crc, blocks[..i])| <= p < |Data(crc, blocks[..i])| + |Body(blocks[i])| + 4
  {
    hide Sealed, Body;
    assert n > 0;
    assert blocks[..n] == blocks[..n - 1] + [blocks[n - 1]];
    DataConcat(crc, blocks[..n - 1], [blocks[n - 1]]);
    DataOne(crc, blocks[n - 1]);
    if p < |Data(crc, blocks[..n - 1])| { i := BlockAround(crc, blocks, n - 1, p); } else { i := n - 1; }
  }

  lemma {:induction false} OneBadBlock(c: Codec, file: Bytes, index: seq<Handle>, i: nat)
    requires i < |index| && Load(c, file, index[i]) == None
    ensures LoadAll(c, file, index) == None
  {
    hide Load;
    if i > 0 { OneBadBlock(c, file, index[1..], i - 1); }
  }

  /** Reading a whole table notices any one changed byte, wherever it is. */
  lemma DamagedTable(c: Codec, expected: nat, es: seq<Record>, p: nat, x: byte)
    requires TableFits(c, expected, es) && DetectsOneByte(c.crc)
    requires p < |File(c, expected, es)| && x != File(c, expected, es)[p]
    ensures ReadAll(c, File(c, expected, es)[p := x]) == None
  {
    hide DetectsOneByte, Data, File, Open, Load, LoadAll, EntriesFit, TableFits;
    if p < |DataPart(c, es)| {
      BlocksNonEmpty(es);
      var blocks := BlocksOf(es);
      assert blocks[..|blocks|] == blocks;
      var i := BlockAround(c.crc, blocks, |blocks|, p);
      Parts(c, expected, es);
      DamagedDataOpens(c, expected, es, p, x);
      OpenBuilt(c, expected, es);
      DamagedBlock(c, expected, es, i, p, x);
      OneBadBlock(c, File(c, expected, es)[p := x], IndexOf(c, es), i);
    } else {
      DamagedBehindData(c, expected, es, p, x);
    }
  }

  /** A lookup that goes to a damaged block fails; every other lookup answers as before the damage. */
  lemma DamagedLookup(c: Codec, expected: nat, es: seq<Record>, i: nat, p: nat, x: byte, key: Bytes)
    requires TableFits(c, expected, es) && DetectsOneByte(c.crc) && i < |IndexOf(c, es)|
    requires IndexOf(c, es)[i].offset <= p < IndexOf(c, es)[i].offset + IndexOf(c, es)[i].len
    requires p < |File(c, expected, es)| && x != File(c, expected, es)[p]
    ensures var good, o := File(c, expected, es), Opened(IndexOf(c, es), FilterOf(c, expected, es), |es|);
      var bad := good[p := x];
      && Open(c, good) == Some(o) && Open(c, bad) == Some(o)
      && Get(c, bad, o, key) == if Bloom.Admits(c.hash, o.filter, key) && FindBlock(o.index, key) == Some(i) then None
                                else Get(c, good, o, key)
  {
    hide DetectsOneByte, File, Open, Load, FindBlock, EntriesFit, TableFits, Data;
    OpenBuilt(c, expected, es);
    Parts(c, expected, es);
    BlocksNonEmpty(es);
    BlockPlace(c.crc, BlocksOf(es), i);
    DamagedDataOpens(c, expected, es, p, x);
    DamagedBlock(c, expected, es, i, p, x);
  }
}
