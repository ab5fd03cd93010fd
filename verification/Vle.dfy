/**
 Variable-length integers (internal/codec/vle.go): little-endian base 128 capped
 at nine bytes. The ninth byte is raw, so a full uint64 never takes ten.
 */
module Vle {
  import opened Wrappers
  import opened Buffer

  const MaxZ8Bytes := 2
  const MaxZ16Bytes := 3
  const MaxZ32Bytes := 5
  const MaxZ64Bytes := 9

  /** One more than the largest value that `n` remaining bytes can carry. */
  function Capacity(n: nat): (c: nat)
    requires 1 <= n <= MaxZ64Bytes
    ensures c >= 256
  {
    if n == 1 then 256 else 128 * Capacity(n - 1)
  }

  lemma CapacityIsU64()
    ensures Capacity(MaxZ64Bytes) == U64
  {
    assert Capacity(3) == 0x40_0000;
    assert Capacity(5) == 0x10_0000_0000;
    assert Capacity(7) == 0x4_0000_0000_0000;
  }

  /** The encoding of `v` when `n` bytes are still available. */
  function Groups(v: nat, n: nat): (s: bytes)
    requires 1 <= n <= MaxZ64Bytes && v < Capacity(n)
    ensures 1 <= |s| <= n
    decreases n
  {
    if n == 1 || v < 128 then [v] else [v % 128 + 128] + Groups(v / 128, n - 1)
  }

  function Encoded(v: uint64): (s: bytes)
    ensures 1 <= |s| <= MaxZ64Bytes
  {
    CapacityIsU64();
    Groups(v, MaxZ64Bytes)
  }

  /** Decoding of the `i`-th byte on, bounded to `max` bytes in all. */
  function Decode(s: bytes, i: nat, max: nat): (p: Parse<nat>)
    requires i < max <= MaxZ64Bytes
    ensures p.Ok? ==> p.value < Capacity(MaxZ64Bytes - i) && |p.rest| < |s|
    decreases max - i
  {
    var (b, rest) :- TakeByte(s);
    if i == MaxZ64Bytes - 1 then Ok(b, rest)
    else if i == max - 1 && b >= 128 then Bad(Overflow)
    else if b < 128 then Ok(b, rest)
    else
      var (v, rest) :- Decode(rest, i + 1, max);
      Ok(b as int - 128 + 128 * v, rest)
  }

  function DecodeZ64(s: bytes): (p: Parse<uint64>)
    ensures p.Ok? ==> |p.rest| < |s|
  {
    CapacityIsU64();
    Decode(s, 0, MaxZ64Bytes)
  }

  /** The bounded decoders: `max` bytes at most, and the value below `limit`. */
  function DecodeBelow(s: bytes, max: nat, limit: nat): (p: Parse<nat>)
    requires 1 <= max <= MaxZ64Bytes
    ensures p.Ok? ==> p.value < limit && |p.rest| < |s|
  {
    var (v, rest) :- Decode(s, 0, max);
    if v >= limit then Bad(Overflow) else Ok(v, rest)
  }

  function DecodeZ32(s: bytes): (p: Parse<uint32>)
    ensures p.Ok? ==> |p.rest| < |s|
  {
    DecodeBelow(s, MaxZ32Bytes, U32)
  }

  function DecodeZ16(s: bytes): (p: Parse<uint16>)
    ensures p.Ok? ==> |p.rest| < |s|
  {
    DecodeBelow(s, MaxZ16Bytes, U16)
  }

  function DecodeZ8(s: bytes): (p: Parse<byte>)
    ensures p.Ok? ==> |p.rest| < |s|
  {
    DecodeBelow(s, MaxZ8Bytes, U8)
  }

  // ----- round trips -----

  lemma GroupStep(v: nat, n: nat)
    requires 1 < n <= MaxZ64Bytes && 128 <= v < Capacity(n)
    ensures v / 128 < Capacity(n - 1)
    ensures Groups(v, n)[0] == v % 128 + 128 && Groups(v, n)[1..] == Groups(v / 128, n - 1)
    ensures |Groups(v, n)| == 1 + |Groups(v / 128, n - 1)|
  {
  }

  lemma LastGroup(v: nat, n: nat)
    requires 1 <= n <= MaxZ64Bytes && v < Capacity(n) && (n == 1 || v < 128)
    ensures Groups(v, n) == [v]
  {
  }

  lemma DecodeByte(s: bytes, i: nat, max: nat)
    requires |s| > 0 && i < max <= MaxZ64Bytes
    ensures i == MaxZ64Bytes - 1 || s[0] < 128 ==> Decode(s, i, max) == Ok(s[0] as nat, s[1..])
    ensures i < MaxZ64Bytes - 1 && i == max - 1 && s[0] >= 128 ==> Decode(s, i, max) == Bad(Overflow)
  {
  }

  /** A decoder with room for `max` bytes reads a nine-byte-capped encoding back
      exactly when that encoding has at most `max` bytes. */
  lemma {:induction false} DecodeOfGroups(v: nat, i: nat, max: nat, suffix: bytes)
    requires i < max <= MaxZ64Bytes && v < Capacity(MaxZ64Bytes - i)
    ensures Decode(Groups(v, MaxZ64Bytes - i) + suffix, i, max)
         == if i + |Groups(v, MaxZ64Bytes - i)| <= max then Ok(v, suffix) else Bad(Overflow)
    decreases max - i
  {
    hide Groups, Decode, Capacity;
    var n := MaxZ64Bytes - i;
    var g := Groups(v, n);
    if n == 1 || v < 128 {
      LastGroup(v, n);
      assert ([v] + suffix)[1..] == suffix;
      DecodeByte(g + suffix, i, max);
    } else {
      GroupStep(v, n);
      var s := g + suffix;
      assert s[1..] == g[1..] + suffix && s[0] == v % 128 + 128;
      if i == max - 1 {
        DecodeByte(s, i, max);
      } else {
        DecodeOfGroups(v / 128, i + 1, max, suffix);
        ContinuationByte(s, i, max);
      }
    }
  }

  /** decode(encode(v) ++ suffix) = (v, suffix) for every 64-bit value. */
  lemma Z64RoundTrip(v: uint64, suffix: bytes)
    ensures DecodeZ64(Encoded(v) + suffix) == Ok(v, suffix)
  {
    CapacityIsU64();
    DecodeOfGroups(v, 0, MaxZ64Bytes, suffix);
  }

  /** Below 128^k exactly the values with at most `k` bytes lie. */
  function Pow128(k: nat): (p: nat)
    ensures p >= 1
  {
    if k == 0 then 1 else 128 * Pow128(k - 1)
  }

  lemma {:induction false} LengthBound(v: nat, n: nat, k: nat)
    requires 1 <= k < n <= MaxZ64Bytes && v < Capacity(n)
    ensures |Groups(v, n)| <= k <==> v < Pow128(k)
    decreases n
  {
    if k == 1 {
      assert Pow128(1) == 128;
    } else if v >= 128 {
      LengthBound(v / 128, n - 1, k - 1);
    }
  }

  lemma DecodeBelowOfEncoded(v: uint64, max: nat, limit: nat, suffix: bytes)
    requires 1 <= max < MaxZ64Bytes && limit <= Pow128(max)
    ensures DecodeBelow(Encoded(v) + suffix, max, limit)
         == if v < limit then Ok(v, suffix) else Bad(Overflow)
  {
    CapacityIsU64();
    DecodeOfGroups(v, 0, max, suffix);
    LengthBound(v, MaxZ64Bytes, max);
  }

  /** The narrow decoders accept an encoding exactly when the value fits their
      width and report an overflow otherwise. */
  lemma NarrowDecoders(v: uint64, suffix: bytes)
    ensures DecodeZ32(Encoded(v) + suffix) == if v < U32 then Ok(v, suffix) else Bad(Overflow)
    ensures DecodeZ16(Encoded(v) + suffix) == if v < U16 then Ok(v, suffix) else Bad(Overflow)
    ensures DecodeZ8(Encoded(v) + suffix) == if v < U8 then Ok(v, suffix) else Bad(Overflow)
  {
    assert Pow128(2) == 16384 && Pow128(3) == 2097152 && Pow128(5) == 34359738368;
    DecodeBelowOfEncoded(v, MaxZ32Bytes, U32, suffix);
    DecodeBelowOfEncoded(v, MaxZ16Bytes, U16, suffix);
    DecodeBelowOfEncoded(v, MaxZ8Bytes, U8, suffix);
  }

  /** No encoding is a proper prefix of another one. */
  lemma PrefixFree(v: uint64, w: uint64, s: bytes, t: bytes)
    requires Encoded(v) + s == Encoded(w) + t
    ensures v == w && s == t
  {
    Z64RoundTrip(v, s);
    Z64RoundTrip(w, t);
  }

  // ----- encoded size -----

  /** Position of the most significant set bit, counted from one (bits.Len64). */
  function BitLen(v: nat): (n: nat)
    ensures n == 0 <==> v == 0
  {
    if v == 0 then 0 else 1 + BitLen(v / 2)
  }

  function Pow2(k: nat): (p: nat)
    ensures p >= 1
  {
    if k == 0 then 1 else 2 * Pow2(k - 1)
  }

  function SizeZ64(v: uint64): nat {
    var b := BitLen(v);
    if b == 0 then 1
    else
      var n := (b + 6) / 7;
      if n > MaxZ64Bytes then MaxZ64Bytes else n
  }

  /** Dropping the low bit shortens a positive value by one bit. */
  lemma BitLenHalf(v: nat, half: nat)
    requires v >= 1 && half == v / 2
    ensures BitLen(v) == BitLen(half) + 1
  {
  }

  lemma BitLenShift7(v: nat)
    requires v >= 128
    ensures BitLen(v) == BitLen(v / 128) + 7
  {
    BitLenHalf(v, v / 2);
    BitLenHalf(v / 2, v / 4);
    BitLenHalf(v / 4, v / 8);
    BitLenHalf(v / 8, v / 16);
    BitLenHalf(v / 16, v / 32);
    BitLenHalf(v / 32, v / 64);
    BitLenHalf(v / 64, v / 128);
  }

  lemma {:induction false} BitLenBelow(v: nat, k: nat, bound: nat)
    requires v < bound && bound == Pow2(k)
    ensures BitLen(v) <= k
  {
    if v > 0 {
      BitLenBelow(v / 2, k - 1, bound / 2);
    }
  }

  lemma BitLenSmall(v: nat)
    requires 1 <= v < 128
    ensures 1 <= BitLen(v) <= 7
  {
    BitLenBelow(v, 7, 128);
  }

  lemma {:induction false} GroupsSize(v: nat, n: nat)
    requires 1 <= n <= MaxZ64Bytes && v < Capacity(n)
    ensures |Groups(v, n)| == if v == 0 then 1 else
                                if (BitLen(v) + 6) / 7 > n then n else (BitLen(v) + 6) / 7
    decreases n
  {
    if 0 < v < 128 {
      BitLenSmall(v);
    } else if v >= 128 {
      BitLenShift7(v);
      if n > 1 {
        GroupsSize(v / 128, n - 1);
      }
    }
  }

  /** The precomputed size is the encoded length. */
  lemma SizeIsLength(v: uint64)
    ensures SizeZ64(v) == |Encoded(v)|
  {
    CapacityIsU64();
    GroupsSize(v, MaxZ64Bytes);
  }

  // ----- the loops of the codec -----

  method EncodeZ64(w: Writer, v: uint64)
    modifies w
    ensures w.buf == old(w.buf) + Encoded(v)
  {
    CapacityIsU64();
    var rest: nat, n := v, MaxZ64Bytes;
    while n > 1
      invariant 1 <= n <= MaxZ64Bytes && rest < Capacity(n)
      invariant w.buf + Groups(rest, n) == old(w.buf) + Encoded(v)
    {
      if rest < 0x80 {
        w.AppendByte(rest);
        return;
      }
      var b: byte := rest % 128 + 0x80;
      Fields2(w.buf, [b], Groups(rest / 128, n - 1));
      w.AppendByte(b);
      rest, n := rest / 128, n - 1;
    }
    w.AppendByte(rest);
  }

  /** A parse whose value still has to be shifted in above `low`. */
  function Shifted(p: Parse<nat>, low: nat, scale: nat): Parse<nat> {
    match p
    case Ok(v, rest) => Ok(low + scale * v, rest)
    case Bad(e) => Bad(e)
  }

  lemma Regrouped(low: nat, scale: nat, b: nat, v: nat)
    ensures low + scale * (b + 128 * v) == (low + scale * b) + (scale * 128) * v
  {
  }

  lemma ContinuationByte(s: bytes, i: nat, max: nat)
    requires |s| > 0 && s[0] >= 128 && i + 1 < max <= MaxZ64Bytes
    ensures var next := Decode(s[1..], i + 1, max);
            Decode(s, i, max) == if next.Ok? then Ok(s[0] as int - 128 + 128 * next.value, next.rest) else next
  {
  }

  /** A continuation byte is shifted in below the groups still to come. */
  lemma ShiftStep(s: bytes, i: nat, max: nat, low: nat, scale: nat)
    requires |s| > 0 && s[0] >= 128 && i + 1 < max <= MaxZ64Bytes
    ensures Shifted(Decode(s, i, max), low, scale)
         == Shifted(Decode(s[1..], i + 1, max), low + scale * (s[0] as int - 128), scale * 128)
  {
    hide Decode, Capacity;
    ContinuationByte(s, i, max);
    var next := Decode(s[1..], i + 1, max);
    if next.Ok? {
      Regrouped(low, scale, s[0] as int - 128, next.value);
    }
  }

  lemma ShiftedNothing(p: Parse<nat>)
    ensures Shifted(p, 0, 1) == p
  {
  }

  /** Where the loop ends: no byte left, too many bytes, or the last byte. */
  lemma LastByte(s: bytes, i: nat, max: nat, low: nat, scale: nat)
    requires i < max <= MaxZ64Bytes
    ensures |s| == 0 ==> Shifted(Decode(s, i, max), low, scale) == Bad(UnexpectedEOF)
    ensures |s| > 0 && (i == MaxZ64Bytes - 1 || s[0] < 128) ==>
              Shifted(Decode(s, i, max), low, scale) == Ok(low + scale * s[0], s[1..])
    ensures |s| > 0 && i < MaxZ64Bytes - 1 && i == max - 1 && s[0] >= 128 ==>
              Shifted(Decode(s, i, max), low, scale) == Bad(Overflow)
  {
    if |s| > 0 {
      DecodeByte(s, i, max);
    }
  }

  method DecodeVle(r: Reader, max: nat) returns (res: Result<nat, CodecError>)
    requires r.Valid() && 1 <= max <= MaxZ64Bytes
    modifies r
    ensures r.Agrees(res, Decode(old(r.Rest()), 0, max))
  {
    hide Decode, Shifted;
    var value: nat, scale: nat, i := 0, 1, 0;
    ShiftedNothing(Decode(r.Rest(), 0, max));
    while true
      invariant r.Valid() && i < max
      invariant Decode(old(r.Rest()), 0, max) == Shifted(Decode(r.Rest(), i, max), value, scale)
      decreases max - i
    {
      ghost var unread := r.Rest();
      LastByte(unread, i, max, value, scale);
      var b :- r.ReadByte();
      if i == MaxZ64Bytes - 1 {
        return Success(value + scale * b);
      }
      if i == max - 1 && b >= 0x80 {
        return Failure(Overflow);
      }
      if b < 0x80 {
        return Success(value + scale * b);
      }
      ShiftStep(unread, i, max, value, scale);
      value, scale, i := value + scale * (b as int - 0x80), scale * 128, i + 1;
    }
  }

  /** The narrow decoders: at most `max` bytes, value below `limit`. */
  method DecodeVleBelow(r: Reader, max: nat, limit: nat) returns (res: Result<nat, CodecError>)
    requires r.Valid() && 1 <= max <= MaxZ64Bytes
    modifies r
    ensures r.Agrees(res, DecodeBelow(old(r.Rest()), max, limit))
  {
    var v :- DecodeVle(r, max);
    res := if v >= limit then Failure(Overflow) else Success(v);
  }
}
