/**
 Message headers, length-prefixed byte strings and extension TLV chains
 (internal/codec/header.go, primitives.go, ext.go). Flag bits are written as
 arithmetic on the byte: bit 5 is weight 32, bit 6 weight 64, bit 7 weight 128.
 */
module Extensions {
  import opened Wrappers
  import opened Buffer
  import Vle

  // ----- message header -----

  datatype Header = Header(id: byte, f1: bool, f2: bool, z: bool)

  function Bit(flag: bool, weight: nat): nat {
    if flag then weight else 0
  }

  function PackHeader(h: Header): byte {
    h.id as int % 32 + Bit(h.f1, 32) + Bit(h.f2, 64) + Bit(h.z, 128)
  }

  function UnpackHeader(b: byte): Header {
    Header(b % 32, b / 32 % 2 == 1, b / 64 % 2 == 1, b / 128 == 1)
  }

  lemma HeaderRoundTrip(h: Header)
    ensures UnpackHeader(PackHeader(h)) == h.(id := h.id % 32)
  {
    var b := PackHeader(h);
    assert b / 32 == Bit(h.f1, 1) + Bit(h.f2, 2) + Bit(h.z, 4);
    assert b / 64 == Bit(h.f2, 1) + Bit(h.z, 2);
  }

  function DecodeHeader(s: bytes): (p: Parse<Header>)
    ensures p.Ok? ==> |p.rest| < |s|
  {
    var (b, rest) :- TakeByte(s);
    Ok(UnpackHeader(b), rest)
  }

  lemma HeaderInFront(h: Header, s: bytes)
    requires h.id < 32
    ensures DecodeHeader([PackHeader(h)] + s) == Ok(h, s)
  {
    HeaderRoundTrip(h);
  }

  method EncodeHeader(w: Writer, h: Header)
    modifies w
    ensures w.buf == old(w.buf) + [PackHeader(h)]
  {
    w.AppendByte(PackHeader(h));
  }

  method ReadHeader(r: Reader) returns (res: Result<Header, CodecError>)
    requires r.Valid()
    modifies r
    ensures r.Agrees(res, DecodeHeader(old(r.Rest())))
  {
    var b :- r.ReadByte();
    res := Success(UnpackHeader(b));
  }

  // ----- length-prefixed byte strings -----

  /** <u8;z8>, <u8;z16> and <u8;z32> differ in the admissible length only. */
  datatype Width = W8 | W16 | W32 {
    function Limit(): nat {
      match this case W8 => U8 case W16 => U16 case W32 => U32
    }

    function MaxBytes(): nat {
      match this case W8 => Vle.MaxZ8Bytes case W16 => Vle.MaxZ16Bytes case W32 => Vle.MaxZ32Bytes
    }
  }

  function Prefixed(b: bytes): bytes
    requires |b| < U32
  {
    Vle.Encoded(|b|) + b
  }

  function DecodePrefixed(s: bytes, width: Width): (p: Parse<bytes>)
    ensures p.Ok? ==> |p.rest| < |s|
  {
    var (n, rest) :- Vle.DecodeBelow(s, width.MaxBytes(), width.Limit());
    TakeN(rest, n)
  }

  lemma PrefixedRoundTrip(b: bytes, width: Width, suffix: bytes)
    requires |b| < width.Limit()
    ensures DecodePrefixed(Prefixed(b) + suffix, width) == Ok(b, suffix)
  {
    Fields2(Vle.Encoded(|b|), b, suffix);
    Vle.NarrowDecoders(|b|, b + suffix);
    TakeNOfBlock(b, suffix);
  }

  method EncodePrefixed(w: Writer, b: bytes, width: Width) returns (ok: bool)
    modifies w
    ensures ok <==> |b| < width.Limit()
    ensures w.buf == if ok then old(w.buf) + Prefixed(b) else old(w.buf)
  {
    if |b| >= width.Limit() {
      return false;
    }
    Vle.EncodeZ64(w, |b|);
    w.AppendBytes(b);
    ok := true;
  }

  method ReadPrefixed(r: Reader, width: Width) returns (res: Result<bytes, CodecError>)
    requires r.Valid()
    modifies r
    ensures r.Agrees(res, DecodePrefixed(old(r.Rest()), width))
  {
    var n :- Vle.DecodeVleBelow(r, width.MaxBytes(), width.Limit());
    res := r.ReadN(n);
  }

  // ----- UTF-8 strings -----

  predicate Continuation(s: bytes, i: nat, low: nat, high: nat) {
    i < |s| && low <= s[i] <= high
  }

  /** Well-formed UTF-8 (Go's utf8.Valid): no overlong forms, no surrogates,
      nothing above U+10FFFF. */
  predicate ValidUtf8(s: bytes) {
    if |s| == 0 then true
    else if s[0] < 0x80 then ValidUtf8(s[1..])
    else if 0xC2 <= s[0] <= 0xDF then
      Continuation(s, 1, 0x80, 0xBF) && ValidUtf8(s[2..])
    else if 0xE0 <= s[0] <= 0xEF then
      && Continuation(s, 1, if s[0] == 0xE0 then 0xA0 else 0x80, if s[0] == 0xED then 0x9F else 0xBF)
      && Continuation(s, 2, 0x80, 0xBF)
      && ValidUtf8(s[3..])
    else if 0xF0 <= s[0] <= 0xF4 then
      && Continuation(s, 1, if s[0] == 0xF0 then 0x90 else 0x80, if s[0] == 0xF4 then 0x8F else 0xBF)
      && Continuation(s, 2, 0x80, 0xBF)
      && Continuation(s, 3, 0x80, 0xBF)
      && ValidUtf8(s[4..])
    else false
  }

  predicate EncodableText(s: bytes, width: Width) {
    ValidUtf8(s) && |s| < width.Limit()
  }

  method EncodeText(w: Writer, s: bytes, width: Width) returns (ok: bool)
    modifies w
    ensures ok <==> EncodableText(s, width)
    ensures w.buf == if ok then old(w.buf) + Prefixed(s) else old(w.buf)
  {
    if !ValidUtf8(s) {
      return false;
    }
    ok := EncodePrefixed(w, s, width);
  }

  // ----- extensions -----

  /** The body selected by the two ENC bits. */
  datatype ExtBody = Unit | Z64(value: uint64) | ZBuf(data: bytes) | Reserved

  datatype Extension = Extension(id: byte, mandatory: bool, more: bool, body: ExtBody)

  function NewZ64Ext(id: byte, mandatory: bool, v: uint64): Extension {
    Extension(id, mandatory, false, Z64(v))
  }

  function NewUnitExt(id: byte): Extension {
    Extension(id, false, false, Unit)
  }

  function EncBits(b: ExtBody): nat {
    match b case Unit => 0 case Z64(_) => 1 case ZBuf(_) => 2 case Reserved => 3
  }

  function PackExtHeader(e: Extension): byte {
    e.id as int % 16 + Bit(e.mandatory, 16) + 32 * EncBits(e.body) + Bit(e.more, 128)
  }

  predicate EncodableExt(e: Extension) {
    match e.body
    case ZBuf(data) => |data| < U32
    case Reserved => false
    case _ => true
  }

  function EncodedBody(b: ExtBody): bytes
    requires b.ZBuf? ==> |b.data| < U32
  {
    match b
    case Z64(v) => Vle.Encoded(v)
    case ZBuf(data) => Prefixed(data)
    case _ => []
  }

  function EncodedExt(e: Extension): bytes
    requires EncodableExt(e)
  {
    [PackExtHeader(e)] + EncodedBody(e.body)
  }

  /** What survives the four-bit id field. */
  function WireExt(e: Extension): Extension {
    e.(id := e.id % 16)
  }

  function DecodeExtBody(enc: nat, s: bytes): (p: Parse<ExtBody>)
    ensures p.Ok? ==> |p.rest| <= |s| && !p.value.Reserved?
  {
    if enc == 0 then Ok(Unit, s)
    else if enc == 1 then
      var (v, rest) :- Vle.DecodeZ64(s);
      Ok(Z64(v), rest)
    else if enc == 2 then
      var (data, rest) :- DecodePrefixed(s, W32);
      Ok(ZBuf(data), rest)
    else Bad(ReservedEncoding)
  }

  function DecodeExt(s: bytes): (p: Parse<Extension>)
    ensures p.Ok? ==> |p.rest| < |s|
  {
    var (b, rest) :- TakeByte(s);
    var (body, rest) :- DecodeExtBody(b / 32 % 4, rest);
    Ok(Extension(b % 16, b / 16 % 2 == 1, b / 128 == 1, body), rest)
  }

  lemma ExtHeaderRoundTrip(e: Extension)
    ensures var b := PackExtHeader(e);
            && b % 16 == e.id % 16
            && (b / 16 % 2 == 1 <==> e.mandatory)
            && b / 32 % 4 == EncBits(e.body)
            && (b / 128 == 1 <==> e.more)
  {
    var b, enc := PackExtHeader(e), EncBits(e.body);
    assert b / 16 == Bit(e.mandatory, 1) + 2 * enc + Bit(e.more, 8);
    assert b / 32 == enc + Bit(e.more, 4);
  }

  lemma ExtRoundTrip(e: Extension, suffix: bytes)
    requires EncodableExt(e)
    ensures DecodeExt(EncodedExt(e) + suffix) == Ok(WireExt(e), suffix)
  {
    ExtHeaderRoundTrip(e);
    Fields2([PackExtHeader(e)], EncodedBody(e.body), suffix);
    match e.body
    case Unit => assert EncodedBody(e.body) + suffix == suffix;
    case Z64(v) => Vle.Z64RoundTrip(v, suffix);
    case ZBuf(data) => PrefixedRoundTrip(data, W32, suffix);
  }

  // ----- extension chains -----

  predicate EncodableExts(es: seq<Extension>) {
    forall i :: 0 <= i < |es| ==> EncodableExt(es[i])
  }

  /** A chain as it arrives: every element but the last says that another follows. */
  function WireExts(es: seq<Extension>): (l: seq<Extension>)
    ensures |l| == |es|
  {
    if |es| == 0 then []
    else [WireExt(es[0].(more := |es| > 1))] + WireExts(es[1..])
  }

  function EncodedExts(es: seq<Extension>): bytes
    requires EncodableExts(es)
  {
    if |es| == 0 then []
    else EncodedExt(es[0].(more := |es| > 1)) + EncodedExts(es[1..])
  }

  function DecodeExts(s: bytes): (p: Parse<seq<Extension>>)
    ensures p.Ok? ==> |p.rest| < |s| && |p.value| > 0
    decreases |s|
  {
    var (e, rest) :- DecodeExt(s);
    if !e.more then Ok([e], rest)
    else
      var (es, rest) :- DecodeExts(rest);
      Ok([e] + es, rest)
  }

  /** A non-empty chain is read back with its ids cut to four bits and its More
      flags recomputed, and nothing of the suffix is touched. */
  lemma {:induction false} ExtsRoundTrip(es: seq<Extension>, suffix: bytes)
    requires |es| > 0 && EncodableExts(es)
    ensures DecodeExts(EncodedExts(es) + suffix) == Ok(WireExts(es), suffix)
    decreases |es|
  {
    var e := es[0].(more := |es| > 1);
    if |es| == 1 {
      assert EncodedExts(es) == EncodedExt(e) + [] == EncodedExt(e);
      assert WireExts(es) == [WireExt(e)] + [] == [WireExt(e)];
      ExtRoundTrip(e, suffix);
    } else {
      Fields2(EncodedExt(e), EncodedExts(es[1..]), suffix);
      ExtRoundTrip(e, EncodedExts(es[1..]) + suffix);
      ExtsRoundTrip(es[1..], suffix);
    }
  }

  /** The chain that a set Z flag announces; without the flag there is none. */
  function DecodeExtsIf(z: bool, s: bytes): (p: Parse<seq<Extension>>)
    ensures p.Ok? ==> |p.rest| <= |s|
  {
    if z then DecodeExts(s) else Ok([], s)
  }

  lemma ExtsIfRoundTrip(es: seq<Extension>, suffix: bytes)
    requires EncodableExts(es)
    ensures DecodeExtsIf(|es| > 0, EncodedExts(es) + suffix) == Ok(WireExts(es), suffix)
  {
    if |es| > 0 {
      ExtsRoundTrip(es, suffix);
    } else {
      assert EncodedExts(es) + suffix == suffix;
    }
  }

  function FindExt(es: seq<Extension>, id: byte): Option<Extension> {
    if |es| == 0 then None else if es[0].id == id then Some(es[0]) else FindExt(es[1..], id)
  }

  method EncodeExtension(w: Writer, e: Extension) returns (ok: bool)
    modifies w
    ensures ok <==> EncodableExt(e)
    ensures ok ==> w.buf == old(w.buf) + EncodedExt(e)
  {
    hide PackExtHeader, Vle.Encoded, Prefixed;
    ghost var o, h := w.buf, [PackExtHeader(e)];
    w.AppendByte(PackExtHeader(e));
    ok := true;
    match e.body
    case Unit => assert o + h + [] == o + (h + []);
    case Z64(v) =>
      Vle.EncodeZ64(w, v);
      Append2(o, h, Vle.Encoded(v));
    case ZBuf(data) =>
      ok := EncodePrefixed(w, data, W32);
      if ok {
        Append2(o, h, Prefixed(data));
      }
    case Reserved => ok := false;
  }

  method ReadExtension(r: Reader) returns (res: Result<Extension, CodecError>)
    requires r.Valid()
    modifies r
    ensures r.Agrees(res, DecodeExt(old(r.Rest())))
  {
    var b :- r.ReadByte();
    var body;
    var enc := b / 32 % 4;
    if enc == 0 {
      body := Unit;
    } else if enc == 1 {
      var v :- Vle.DecodeVle(r, Vle.MaxZ64Bytes);
      Vle.CapacityIsU64();
      body := Z64(v);
    } else if enc == 2 {
      var data :- ReadPrefixed(r, W32);
      body := ZBuf(data);
    } else {
      return Failure(ReservedEncoding);
    }
    res := Success(Extension(b % 16, b / 16 % 2 == 1, b / 128 == 1, body));
  }

  method EncodeExtensions(w: Writer, es: seq<Extension>) returns (ok: bool)
    modifies w
    ensures ok <==> EncodableExts(es)
    ensures ok ==> w.buf == old(w.buf) + EncodedExts(es)
  {
    for i := 0 to |es|
      invariant forall j :: 0 <= j < i ==> EncodableExt(es[j])
      invariant EncodableExts(es) ==> w.buf + EncodedExts(es[i..]) == old(w.buf) + EncodedExts(es)
    {
      var e := es[i].(more := i < |es| - 1);
      ghost var before := w.buf;
      var fits := EncodeExtension(w, e);
      if !fits {
        return false;
      }
      if EncodableExts(es) {
        assert es[i..][1..] == es[i + 1..];
        Fields2(before, EncodedExt(e), EncodedExts(es[i + 1..]));
      }
    }
    ok := true;
  }

  function Prepended(es: seq<Extension>, p: Parse<seq<Extension>>): Parse<seq<Extension>> {
    match p
    case Ok(more, rest) => Ok(es + more, rest)
    case Bad(e) => Bad(e)
  }

  lemma PrependNothing(p: Parse<seq<Extension>>)
    ensures Prepended([], p) == p
  {
    if p.Ok? {
      assert [] + p.value == p.value;
    }
  }

  /** One more link of the chain moves from the unread bytes to the collected elements. */
  lemma PrependStep(es: seq<Extension>, s: bytes)
    ensures Prepended(es, DecodeExts(s)) ==
            match DecodeExt(s)
            case Bad(err) => Bad(err)
            case Ok(e, rest) =>
              if e.more then Prepended(es + [e], DecodeExts(rest)) else Ok(es + [e], rest)
  {
    hide DecodeExt;
    var p := DecodeExt(s);
    if p.Ok? && p.value.more {
      var tail := DecodeExts(p.rest);
      if tail.Ok? {
        assert es + ([p.value] + tail.value) == es + [p.value] + tail.value;
      }
    }
  }

  method ReadExtensions(r: Reader) returns (res: Result<seq<Extension>, CodecError>)
    requires r.Valid()
    modifies r
    ensures r.Agrees(res, DecodeExts(old(r.Rest())))
  {
    var es: seq<Extension> := [];
    PrependNothing(DecodeExts(r.Rest()));
    while true
      invariant r.Valid()
      invariant DecodeExts(old(r.Rest())) == Prepended(es, DecodeExts(r.Rest()))
      decreases r.Len()
    {
      PrependStep(es, r.Rest());
      var e :- ReadExtension(r);
      es := es + [e];
      if !e.more {
        return Success(es);
      }
    }
  }

  method ReadExtensionsIf(r: Reader, z: bool) returns (res: Result<seq<Extension>, CodecError>)
    requires r.Valid()
    modifies r
    ensures r.Agrees(res, DecodeExtsIf(z, old(r.Rest())))
  {
    if z {
      res := ReadExtensions(r);
    } else {
      res := Success([]);
    }
  }
}
