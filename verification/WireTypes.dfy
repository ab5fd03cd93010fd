/**
 The building blocks of network messages (internal/wire: timestamp.go,
 encoding.go, wireexpr.go, ids.go, qos.go, zid.go).
 */
module WireTypes {
  import opened Wrappers
  import opened Buffer
  import opened Extensions
  import Vle

  // ----- message ids -----

  const IdTransportOam: byte := 0x00
  const IdInit: byte := 0x01
  const IdOpen: byte := 0x02
  const IdClose: byte := 0x03
  const IdKeepAlive: byte := 0x04
  const IdFrame: byte := 0x05
  const IdFragment: byte := 0x06

  const IdInterest: byte := 0x19
  const IdResponseFinal: byte := 0x1A
  const IdResponse: byte := 0x1B
  const IdRequest: byte := 0x1C
  const IdPush: byte := 0x1D
  const IdDeclare: byte := 0x1E
  const IdNetworkOam: byte := 0x1F

  predicate IsNetworkId(id: byte) {
    IdInterest <= id <= IdNetworkOam
  }

  // ----- quality of service -----

  const ExtIdQoS: byte := 0x01
  const PriorityData: nat := 5

  type Priority = p: nat | p < 8

  datatype QoS = QoS(priority: Priority, dontDrop: bool, express: bool, dontDropFirst: bool)

  function EncodeQoS(q: QoS): uint64 {
    q.priority + Bit(q.dontDrop, 8) + Bit(q.express, 16) + Bit(q.dontDropFirst, 32)
  }

  function DecodeQoS(v: uint64): QoS {
    QoS(v % 8, v / 8 % 2 == 1, v / 16 % 2 == 1, v / 32 % 2 == 1)
  }

  lemma QoSRoundTrip(q: QoS)
    ensures DecodeQoS(EncodeQoS(q)) == q
    ensures EncodeQoS(q) < 64
  {
    var v := EncodeQoS(q);
    assert v / 8 == Bit(q.dontDrop, 1) + Bit(q.express, 2) + Bit(q.dontDropFirst, 4);
    assert v / 16 == Bit(q.express, 1) + Bit(q.dontDropFirst, 2);
  }

  // ----- timestamps -----

  predicate ValidZid(zid: bytes) {
    1 <= |zid| <= 16
  }

  datatype Timestamp = Timestamp(ntp64: uint64, zid: bytes)

  predicate EncodableTs(ts: Option<Timestamp>) {
    ts.Some? ==> ValidZid(ts.value.zid)
  }

  /** An optional timestamp; its presence is a flag of the enclosing header. */
  function EncodedTs(ts: Option<Timestamp>): bytes
    requires EncodableTs(ts)
  {
    match ts
    case None => []
    case Some(t) => Vle.Encoded(t.ntp64) + Prefixed(t.zid)
  }

  function DecodeTsIf(present: bool, s: bytes): (p: Parse<Option<Timestamp>>)
    ensures p.Ok? ==> |p.rest| <= |s|
  {
    if !present then Ok(None, s)
    else
      var (ntp, rest) :- Vle.DecodeZ64(s);
      var (zid, rest) :- DecodePrefixed(rest, W8);
      Ok(Some(Timestamp(ntp, zid)), rest)
  }

  lemma TsRoundTrip(ts: Option<Timestamp>, suffix: bytes)
    requires EncodableTs(ts)
    ensures DecodeTsIf(ts.Some?, EncodedTs(ts) + suffix) == Ok(ts, suffix)
  {
    match ts
    case None =>
      assert EncodedTs(ts) + suffix == suffix;
    case Some(t) =>
      Fields2(Vle.Encoded(t.ntp64), Prefixed(t.zid), suffix);
      Vle.Z64RoundTrip(t.ntp64, Prefixed(t.zid) + suffix);
      PrefixedRoundTrip(t.zid, W8, suffix);
  }

  method WriteTs(w: Writer, ts: Option<Timestamp>) returns (ok: bool)
    modifies w
    ensures ok <==> EncodableTs(ts)
    ensures ok ==> w.buf == old(w.buf) + EncodedTs(ts)
  {
    if ts.None? {
      return true;
    }
    if !ValidZid(ts.value.zid) {
      return false;
    }
    Vle.EncodeZ64(w, ts.value.ntp64);
    ok := EncodePrefixed(w, ts.value.zid, W8);
  }

  method ReadTsIf(r: Reader, present: bool) returns (res: Result<Option<Timestamp>, CodecError>)
    requires r.Valid()
    modifies r
    ensures r.Agrees(res, DecodeTsIf(present, old(r.Rest())))
  {
    if !present {
      return Success(None);
    }
    var ntp :- Vle.DecodeVle(r, Vle.MaxZ64Bytes);
    Vle.CapacityIsU64();
    var zid :- ReadPrefixed(r, W8);
    res := Success(Some(Timestamp(ntp, zid)));
  }

  // ----- payload encodings -----

  const MaxEncodingId := 0x7FFF_FFFF

  datatype Encoding = Encoding(id: uint32, schema: bytes)

  predicate EncodableEnc(e: Option<Encoding>) {
    e.Some? ==>
      e.value.id <= MaxEncodingId && (e.value.schema != [] ==> EncodableText(e.value.schema, W8))
  }

  function EncodedEnc(e: Option<Encoding>): bytes
    requires EncodableEnc(e)
  {
    match e
    case None => []
    case Some(Encoding(id, schema)) =>
      if schema == [] then Vle.Encoded(2 * id) else Vle.Encoded(2 * id + 1) + Prefixed(schema)
  }

  function DecodeEncoding(s: bytes): (p: Parse<Encoding>)
    ensures p.Ok? ==> |p.rest| < |s|
  {
    var (v, rest) :- Vle.DecodeZ32(s);
    var (schema, rest) :- if v % 2 == 1 then DecodePrefixed(rest, W8) else Ok([], rest);
    Ok(Encoding(v / 2, schema), rest)
  }

  function DecodeEncIf(present: bool, s: bytes): (p: Parse<Option<Encoding>>)
    ensures p.Ok? ==> |p.rest| <= |s|
  {
    if !present then Ok(None, s)
    else
      var (e, rest) :- DecodeEncoding(s);
      Ok(Some(e), rest)
  }

  lemma EncodingRoundTrip(id: uint32, schema: bytes, suffix: bytes)
    requires EncodableEnc(Some(Encoding(id, schema)))
    ensures DecodeEncoding(EncodedEnc(Some(Encoding(id, schema))) + suffix) == Ok(Encoding(id, schema), suffix)
  {
    hide Vle.Encoded, Vle.DecodeZ32, DecodePrefixed, Prefixed;
    if schema == [] {
      Vle.NarrowDecoders(2 * id, suffix);
    } else {
      Fields2(Vle.Encoded(2 * id + 1), Prefixed(schema), suffix);
      Vle.NarrowDecoders(2 * id + 1, Prefixed(schema) + suffix);
      PrefixedRoundTrip(schema, W8, suffix);
    }
  }

  lemma EncRoundTrip(e: Option<Encoding>, suffix: bytes)
    requires EncodableEnc(e)
    ensures DecodeEncIf(e.Some?, EncodedEnc(e) + suffix) == Ok(e, suffix)
  {
    match e
    case None => assert EncodedEnc(e) + suffix == suffix;
    case Some(Encoding(id, schema)) => EncodingRoundTrip(id, schema, suffix);
  }

  method WriteEnc(w: Writer, e: Option<Encoding>) returns (ok: bool)
    modifies w
    ensures ok <==> EncodableEnc(e)
    ensures ok ==> w.buf == old(w.buf) + EncodedEnc(e)
  {
    if e.None? {
      return true;
    }
    var Encoding(id, schema) := e.value;
    if id > MaxEncodingId {
      return false;
    }
    Vle.EncodeZ64(w, 2 * id + Bit(schema != [], 1));
    ok := true;
    if schema != [] {
      ok := EncodeText(w, schema, W8);
    }
  }

  method ReadEncIf(r: Reader, present: bool) returns (res: Result<Option<Encoding>, CodecError>)
    requires r.Valid()
    modifies r
    ensures r.Agrees(res, DecodeEncIf(present, old(r.Rest())))
  {
    if !present {
      return Success(None);
    }
    var v :- Vle.DecodeVleBelow(r, Vle.MaxZ32Bytes, U32);
    var schema := [];
    if v % 2 == 1 {
      schema :- ReadPrefixed(r, W8);
    }
    res := Success(Some(Encoding(v / 2, schema)));
  }

  // ----- key expressions on the wire -----

  /** A scope alias plus a suffix. The named and mapping flags travel in the
      header of the enclosing message. */
  datatype WireExpr = WireExpr(scope: uint16, suffix: bytes, mapping: bool) {
    predicate Named() {
      suffix != []
    }
  }

  predicate EncodableExpr(k: WireExpr) {
    k.Named() ==> EncodableText(k.suffix, W16)
  }

  function EncodedExpr(k: WireExpr): bytes
    requires EncodableExpr(k)
  {
    Vle.Encoded(k.scope) + if k.Named() then Prefixed(k.suffix) else []
  }

  function DecodeExpr(s: bytes, named: bool, mapping: bool): (p: Parse<WireExpr>)
    ensures p.Ok? ==> |p.rest| < |s|
  {
    var (scope, rest) :- Vle.DecodeZ16(s);
    if named then
      var (suffix, rest) :- DecodePrefixed(rest, W16);
      Ok(WireExpr(scope, suffix, mapping), rest)
    else Ok(WireExpr(scope, [], mapping), rest)
  }

  lemma ExprRoundTrip(k: WireExpr, suffix: bytes)
    requires EncodableExpr(k)
    ensures DecodeExpr(EncodedExpr(k) + suffix, k.Named(), k.mapping) == Ok(k, suffix)
  {
    var name := if k.Named() then Prefixed(k.suffix) else [];
    Fields2(Vle.Encoded(k.scope), name, suffix);
    Vle.NarrowDecoders(k.scope, name + suffix);
    if k.Named() {
      PrefixedRoundTrip(k.suffix, W16, suffix);
    } else {
      assert name + suffix == suffix;
    }
  }

  method WriteExpr(w: Writer, k: WireExpr) returns (ok: bool)
    modifies w
    ensures ok <==> EncodableExpr(k)
    ensures ok ==> w.buf == old(w.buf) + EncodedExpr(k)
  {
    Vle.EncodeZ64(w, k.scope);
    ok := true;
    if k.Named() {
      ok := EncodeText(w, k.suffix, W16);
    }
  }

  method ReadExpr(r: Reader, named: bool, mapping: bool) returns (res: Result<WireExpr, CodecError>)
    requires r.Valid()
    modifies r
    ensures r.Agrees(res, DecodeExpr(old(r.Rest()), named, mapping))
  {
    var scope :- Vle.DecodeVleBelow(r, Vle.MaxZ16Bytes, U16);
    var suffix := [];
    if named {
      suffix :- ReadPrefixed(r, W16);
    }
    res := Success(WireExpr(scope, suffix, mapping));
  }
}
