/**
 Byte buffers of the codec (internal/codec/buffer.go): an append-only `Writer`
 and a `Reader` cursor. `Parse` is the value-level view of one decoding step:
 it takes the unread bytes and returns what was decoded and what is left.
 */
module Buffer {
  import opened Wrappers

  const U8 := 0x100
  const U16 := 0x1_0000
  const U32 := 0x1_0000_0000
  const U64 := 0x1_0000_0000_0000_0000

  type byte = b: int | 0 <= b < U8
  type uint16 = v: int | 0 <= v < U16
  type uint32 = v: int | 0 <= v < U32
  type uint64 = v: int | 0 <= v < U64

  type bytes = seq<byte>

  datatype CodecError =
    | UnexpectedEOF
    | Overflow
    | ReservedEncoding
    | UnexpectedId

  datatype Parse<+T> = Ok(value: T, rest: bytes) | Bad(error: CodecError) {
    predicate IsFailure() {
      Bad?
    }

    function PropagateFailure<U>(): Parse<U>
      requires Bad?
    {
      Bad(error)
    }

    function Extract(): (T, bytes)
      requires Ok?
    {
      (value, rest)
    }
  }

  /** One byte off the front of the unread bytes. */
  function TakeByte(s: bytes): Parse<byte> {
    if |s| == 0 then Bad(UnexpectedEOF) else Ok(s[0], s[1..])
  }

  /** `n` bytes off the front of the unread bytes. */
  function TakeN(s: bytes, n: nat): Parse<bytes> {
    if |s| < n then Bad(UnexpectedEOF) else Ok(s[..n], s[n..])
  }

  /** Reads back exactly a block that was put in front of any suffix. */
  lemma TakeNOfBlock(block: bytes, suffix: bytes)
    ensures TakeN(block + suffix, |block|) == Ok(block, suffix)
  {
    assert (block + suffix)[..|block|] == block;
    assert (block + suffix)[|block|..] == suffix;
  }

  /** A block of fields in front of a suffix, read field by field. */
  lemma Fields2(a: bytes, b: bytes, s: bytes)
    ensures a + b + s == a + (b + s)
  {
  }

  lemma Fields3(a: bytes, b: bytes, c: bytes, s: bytes)
    ensures a + b + c + s == a + (b + (c + s))
  {
    Fields2(a + b, c, s);
    Fields2(a, b, c + s);
  }

  lemma Fields4(a: bytes, b: bytes, c: bytes, d: bytes, s: bytes)
    ensures a + b + c + d + s == a + (b + (c + (d + s)))
  {
    Fields2(a + b + c, d, s);
    Fields3(a, b, c, d + s);
  }

  lemma Fields5(a: bytes, b: bytes, c: bytes, d: bytes, e: bytes, s: bytes)
    ensures a + b + c + d + e + s == a + (b + (c + (d + (e + s))))
  {
    Fields2(a + b + c + d, e, s);
    Fields4(a, b, c, d, e + s);
  }

  /** Fields appended one after the other are a block appended at once. */
  lemma Append2(o: bytes, a: bytes, b: bytes)
    ensures o + a + b == o + (a + b)
  {
  }

  lemma Append3(o: bytes, a: bytes, b: bytes, c: bytes)
    ensures o + a + b + c == o + (a + b + c)
  {
    Append2(o, a, b);
    Append2(o, a + b, c);
  }

  lemma Append4(o: bytes, a: bytes, b: bytes, c: bytes, d: bytes)
    ensures o + a + b + c + d == o + (a + b + c + d)
  {
    Append3(o, a, b, c);
    Append2(o, a + b + c, d);
  }

  /** A header and four fields, the last of them appended separately. */
  lemma AppendBody(o: bytes, h: bytes, a: bytes, b: bytes, c: bytes, d: bytes)
    ensures o + (h + a + b + c) + d == o + (h + (a + b + c + d))
  {
    Append2(o, h + a + b + c, d);
    Append4(h, a, b, c, d);
  }

  class Writer {
    var buf: bytes

    constructor (initial: bytes)
      ensures buf == initial
    {
      buf := initial;
    }

    method AppendByte(b: byte)
      modifies this
      ensures buf == old(buf) + [b]
    {
      buf := buf + [b];
    }

    method AppendBytes(p: bytes)
      modifies this
      ensures buf == old(buf) + p
    {
      buf := buf + p;
    }

    method AppendU16LE(v: uint16)
      modifies this
      ensures buf == old(buf) + U16LE(v)
    {
      buf := buf + [v % 256, v / 256];
    }
  }

  function U16LE(v: uint16): bytes {
    [v % 256, v / 256]
  }

  function TakeU16LE(s: bytes): Parse<uint16> {
    var (b, rest) :- TakeN(s, 2);
    Ok(b[0] as int + 256 * (b[1] as int), rest)
  }

  lemma U16LERoundTrip(v: uint16, suffix: bytes)
    ensures TakeU16LE(U16LE(v) + suffix) == Ok(v, suffix)
  {
    TakeNOfBlock(U16LE(v), suffix);
  }

  class Reader {
    const buf: bytes
    var off: nat

    constructor (buf: bytes)
      ensures this.buf == buf && off == 0 && Valid() && Rest() == buf
    {
      this.buf := buf;
      off := 0;
    }

    predicate Valid()
      reads this
    {
      off <= |buf|
    }

    /** The unread bytes (Bytes in the source). */
    function Rest(): bytes
      requires Valid()
      reads this
    {
      buf[off..]
    }

    /** `res` is what the parse `p` of the formerly unread bytes says, and after
        a success the cursor stands exactly at the bytes `p` leaves over. */
    predicate Agrees<T(==)>(res: Result<T, CodecError>, p: Parse<T>)
      reads this
    {
      Valid() &&
      match p
      case Ok(v, rest) => res == Success(v) && Rest() == rest
      case Bad(e) => res == Failure(e)
    }

    function Len(): nat
      requires Valid()
      reads this
    {
      |buf| - off
    }

    method ReadByte() returns (res: Result<byte, CodecError>)
      requires Valid()
      modifies this
      ensures Agrees(res, TakeByte(old(Rest())))
    {
      if off >= |buf| {
        return Failure(UnexpectedEOF);
      }
      res := Success(buf[off]);
      off := off + 1;
    }

    method PeekByte() returns (res: Result<byte, CodecError>)
      requires Valid()
      ensures res == if Len() == 0 then Failure(UnexpectedEOF) else Success(Rest()[0])
    {
      if off >= |buf| {
        return Failure(UnexpectedEOF);
      }
      res := Success(buf[off]);
    }

    method ReadN(n: nat) returns (res: Result<bytes, CodecError>)
      requires Valid()
      modifies this
      ensures Agrees(res, TakeN(old(Rest()), n))
    {
      if off + n > |buf| {
        return Failure(UnexpectedEOF);
      }
      assert Rest()[..n] == buf[off..off + n] && Rest()[n..] == buf[off + n..];
      res := Success(buf[off..off + n]);
      off := off + n;
    }

    method ReadU16LE() returns (res: Result<uint16, CodecError>)
      requires Valid()
      modifies this
      ensures Agrees(res, TakeU16LE(old(Rest())))
    {
      var b :- ReadN(2);
      res := Success(b[0] as int + 256 * (b[1] as int));
    }

    /** Moves the cursor to the end (`Skip(Len())` in the source). */
    method SkipRest()
      requires Valid()
      modifies this
      ensures Valid() && Rest() == []
    {
      off := |buf|;
    }
  }
}
