// Reading fields off the front of a buffer: the specification of every decoder,
// and the in-place cursor the decoders use.

module Parse {
  import opened Wrappers
  import opened ByteStrings
  import opened Crc

  /** A field and what is left of the buffer, or not enough bytes. */
  datatype Parsed<+T> = Got(value: T, rest: Bytes) | Corrupt

  function Take(buf: Bytes, n: nat): (r: Parsed<Bytes>)
    ensures r.Got? ==> |r.value| == n && buf == r.value + r.rest
    ensures r.Corrupt? <==> |buf| < n
  {
    if |buf| < n then Corrupt else Got(buf[..n], buf[n..])
  }

  function TakeU8(buf: Bytes): (r: Parsed<byte>)
    ensures r.Got? ==> |r.rest| + 1 == |buf|
  {
    if |buf| < 1 then Corrupt else Got(buf[0], buf[1..])
  }

  function TakeU32(buf: Bytes): (r: Parsed<nat>)
    ensures r.Got? ==> |r.rest| + 4 == |buf|
  {
    match Take(buf, 4)
    case Corrupt => Corrupt
    case Got(b, rest) => Got(GetU32(b), rest)
  }

  function TakeU64(buf: Bytes): (r: Parsed<nat>)
    ensures r.Got? ==> |r.rest| + 8 == |buf|
  {
    match Take(buf, 8)
    case Corrupt => Corrupt
    case Got(b, rest) => Got(GetU64(b), rest)
  }

  /** A `u32` length, then that many bytes. */
  function TakeBytes(buf: Bytes): (r: Parsed<Bytes>)
    ensures r.Got? ==> |r.rest| + |r.value| + 4 == |buf|
  {
    match TakeU32(buf)
    case Corrupt => Corrupt
    case Got(n, rest) => Take(rest, n)
  }

  function PutBytes(b: Bytes): (r: Bytes)
    ensures |r| == 4 + |b|
  {
    PutU32(|b|) + b
  }

  // ------------------------------------------- what was written is read back

  lemma TakeWritten(b: Bytes, rest: Bytes)
    ensures Take(b + rest, |b|) == Got(b, rest)
  {
  }

  lemma TakeU32Written(v: nat, rest: Bytes)
    requires v < POW32
    ensures TakeU32(PutU32(v) + rest) == Got(v, rest)
  {
    U32RoundTrip(v);
    TakeWritten(PutU32(v), rest);
  }

  lemma TakeU64Written(v: nat, rest: Bytes)
    requires v < POW64
    ensures TakeU64(PutU64(v) + rest) == Got(v, rest)
  {
    U64RoundTrip(v);
    TakeWritten(PutU64(v), rest);
  }

  lemma TakeBytesWritten(b: Bytes, rest: Bytes)
    requires |b| < POW32
    ensures TakeBytes(PutBytes(b) + rest) == Got(b, rest)
  {
    assert PutBytes(b) + rest == PutU32(|b|) + (b + rest);
    TakeU32Written(|b|, b + rest);
    TakeWritten(b, rest);
  }

  // ------------------------------------------------- what is read was written

  /** A field is read exactly off a buffer that begins with its encoding. */
  lemma TakeU32Iff(buf: Bytes, v: nat, rest: Bytes)
    ensures TakeU32(buf) == Got(v, rest) <==> v < POW32 && buf == PutU32(v) + rest
  {
    if TakeU32(buf) == Got(v, rest) {
      U32Injective(buf[..4]);
    } else if v < POW32 {
      TakeU32Written(v, rest);
    }
  }

  lemma U64Injective(b: Bytes)
    requires |b| == 8
    ensures PutU64(GetU64(b)) == b
  {
    U32Injective(b[..4]);
    U32Injective(b[4..]);
    assert GetU64(b) % POW32 == GetU32(b[..4]) && GetU64(b) / POW32 == GetU32(b[4..]);
  }

  lemma TakeU64Iff(buf: Bytes, v: nat, rest: Bytes)
    ensures TakeU64(buf) == Got(v, rest) <==> v < POW64 && buf == PutU64(v) + rest
  {
    if TakeU64(buf) == Got(v, rest) {
      U64Injective(buf[..8]);
    } else if v < POW64 {
      TakeU64Written(v, rest);
    }
  }

  lemma TakeBytesIff(buf: Bytes, b: Bytes, rest: Bytes)
    ensures TakeBytes(buf) == Got(b, rest) <==> |b| < POW32 && buf == PutBytes(b) + rest
  {
    if TakeBytes(buf) == Got(b, rest) {
      TakeU32Iff(buf, |b|, b + rest);
      assert PutBytes(b) + rest == PutU32(|b|) + (b + rest);
    } else if |b| < POW32 {
      TakeBytesWritten(b, rest);
    }
  }

  // ------------------------------------------------------ checksummed regions

  /** A checksummed region: the body and its CRC. */
  function Sealed(crc: Checksum, body: Bytes): (b: Bytes)
    ensures |b| == |body| + 4
  {
    body + PutU32(crc(body))
  }

  /** `verify_crc`, returning the body. */
  function Unseal(crc: Checksum, buf: Bytes): Option<Bytes> {
    if |buf| < 4 then None
    else
      var body := buf[..|buf| - 4];
      if GetU32(buf[|buf| - 4..]) != crc(body) then None else Some(body)
  }

  lemma UnsealSealed(crc: Checksum, body: Bytes)
    ensures Unseal(crc, Sealed(crc, body)) == Some(body)
  {
    U32RoundTrip(crc(body));
    var b := Sealed(crc, body);
    assert b[..|b| - 4] == body && b[|b| - 4..] == PutU32(crc(body));
  }

  /** What unseals to a body is that body's sealed region, and nothing else is accepted. */
  lemma UnsealIff(crc: Checksum, buf: Bytes, body: Bytes)
    ensures Unseal(crc, buf) == Some(body) <==> buf == body + PutU32(crc(body))
  {
    if Unseal(crc, buf) == Some(body) {
      U32Injective(buf[|buf| - 4..]);
      assert buf == body + buf[|buf| - 4..];
    } else if buf == body + PutU32(crc(body)) {
      UnsealSealed(crc, body);
    }
  }

  /** A sealed region with any one byte changed, in the body or in the checksum, is refused. */
  lemma UnsealDamaged(crc: Checksum, body: Bytes, p: nat, x: byte)
    requires DetectsOneByte(crc) && p < |Sealed(crc, body)| && x != Sealed(crc, body)[p]
    ensures Unseal(crc, Sealed(crc, body)[p := x]) == None
  {
    var good, bad := Sealed(crc, body), Sealed(crc, body)[p := x];
    var r := Unseal(crc, bad);
    if r.Some? {
      UnsealIff(crc, bad, r.value);
      assert r.value == bad[..|body|] && PutU32(crc(r.value)) == bad[|body|..];
      if p < |body| {
        assert bad[|body|..] == good[|body|..] == PutU32(crc(body));
        U32RoundTrip(crc(body));
        U32RoundTrip(crc(r.value));
        assert DifferAt(r.value, body, p);
      }
    }
  }

  // -------------------------------------------------------------- the cursor

  class Cursor {
    const buf: Bytes
    var pos: nat

    ghost predicate Valid()
      reads this
    {
      pos <= |buf|
    }

    ghost function Rest(): Bytes
      requires Valid()
      reads this
    {
      buf[pos..]
    }

    constructor (buf: Bytes)
      ensures Valid() && this.buf == buf && Rest() == buf
    {
      this.buf := buf;
      pos := 0;
    }

    function Remaining(): (n: nat)
      requires Valid()
      reads this
      ensures n == |Rest()|
    {
      |buf| - pos
    }

    method TakeSome(n: nat) returns (r: Option<Bytes>)
      requires Valid()
      modifies this
      ensures Valid()
      ensures match Take(old(Rest()), n)
              case Got(b, rest) => r == Some(b) && Rest() == rest
              case Corrupt => r == None && Rest() == old(Rest())
    {
      if |buf| - pos < n { return None; }
      r := Some(buf[pos..pos + n]);
      assert buf[pos..][..n] == buf[pos..pos + n] && buf[pos..][n..] == buf[pos + n..];
      pos := pos + n;
    }

    method U8() returns (r: Option<byte>)
      requires Valid()
      modifies this
      ensures Valid()
      ensures match TakeU8(old(Rest()))
              case Got(b, rest) => r == Some(b) && Rest() == rest
              case Corrupt => r == None
    {
      var b := TakeSome(1);
      r := if b.Some? then Some(b.value[0]) else None;
    }

    method U32() returns (r: Option<nat>)
      requires Valid()
      modifies this
      ensures Valid()
      ensures match TakeU32(old(Rest()))
              case Got(v, rest) => r == Some(v) && Rest() == rest
              case Corrupt => r == None
    {
      var b := TakeSome(4);
      r := if b.Some? then Some(GetU32(b.value)) else None;
    }

    method U64() returns (r: Option<nat>)
      requires Valid()
      modifies this
      ensures Valid()
      ensures match TakeU64(old(Rest()))
              case Got(v, rest) => r == Some(v) && Rest() == rest
              case Corrupt => r == None
    {
      var b := TakeSome(8);
      r := if b.Some? then Some(GetU64(b.value)) else None;
    }

    /** The manifest reader's `bytes()`. */
    method LengthPrefixed() returns (r: Option<Bytes>)
      requires Valid()
      modifies this
      ensures Valid()
      ensures match TakeBytes(old(Rest()))
              case Got(b, rest) => r == Some(b) && Rest() == rest
              case Corrupt => r == None
    {
      var n := U32();
      if n.None? { return None; }
      r := TakeSome(n.value);
    }
  }
}
