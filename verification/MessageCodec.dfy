/**
 The encoders and decoders of network messages: encoders append to a `Writer`
 field by field, decoders advance a `Reader` (internal/wire: push.go, data.go,
 request.go, response.go, declare.go, interest.go). Each is tied to the bytes or
 to the parse that NetworkMessages defines.
 */
module MessageCodec {
  import opened Wrappers
  import opened Buffer
  import opened Extensions
  import opened WireTypes
  import opened NetworkMessages
  import Vle

  // ----- encoders -----

  method WriteExts(w: Writer, exts: Exts) returns (ok: bool)
    modifies w
    ensures ok <==> EncodableExts(exts)
    ensures ok ==> w.buf == old(w.buf) + EncodedExts(exts)
  {
    ok := true;
    if |exts| > 0 {
      ok := EncodeExtensions(w, exts);
    }
  }

  method WriteByteIf(w: Writer, b: Option<byte>)
    modifies w
    ensures w.buf == old(w.buf) + OptByte(b)
  {
    if b.Some? {
      w.AppendByte(b.value);
    }
  }

  method WriteTextIf(w: Writer, s: bytes) returns (ok: bool)
    modifies w
    ensures ok <==> EncodableOptText(s)
    ensures ok ==> w.buf == old(w.buf) + OptText(s)
  {
    ok := true;
    if s != [] {
      ok := EncodeText(w, s, W16);
    }
  }

  method WritePushBody(w: Writer, b: PushBody) returns (ok: bool)
    modifies w
    ensures ok <==> EncodablePush(b)
    ensures ok ==> w.buf == old(w.buf) + EncodedPush(b)
  {
    hide PackHeader, EncodedTs, EncodedEnc, EncodedExts, Prefixed;
    ghost var o, h := w.buf, [PackHeader(PushHeader(b))];
    EncodeHeader(w, PushHeader(b));
    ok := WriteTs(w, b.ts);
    if !ok { return; }
    if b.Put? {
      ok := WriteEnc(w, b.encoding);
      if !ok { return; }
    }
    ok := WriteExts(w, b.exts);
    if !ok { return; }
    if b.Put? {
      ok := EncodePrefixed(w, b.payload, W32);
      if !ok { return; }
      Append4(o, h, EncodedTs(b.ts), EncodedEnc(b.encoding), EncodedExts(b.exts));
      Append2(o, h + EncodedTs(b.ts) + EncodedEnc(b.encoding) + EncodedExts(b.exts), Prefixed(b.payload));
    } else {
      Append3(o, h, EncodedTs(b.ts), EncodedExts(b.exts));
    }
  }

  method WriteQuery(w: Writer, q: QueryBody) returns (ok: bool)
    modifies w
    ensures ok <==> EncodableQuery(q)
    ensures ok ==> w.buf == old(w.buf) + EncodedQuery(q)
  {
    hide PackHeader, EncodedExts, OptText, OptByte;
    EncodeHeader(w, QueryHeader(q));
    WriteByteIf(w, q.consolidation);
    ok := WriteTextIf(w, q.parameters);
    if !ok { return; }
    ok := WriteExts(w, q.exts);
  }

  method WriteReply(w: Writer, a: ResponseBody) returns (ok: bool)
    requires a.Reply?
    modifies w
    ensures ok <==> EncodableAnswer(a)
    ensures ok ==> w.buf == old(w.buf) + EncodedAnswer(a)
  {
    hide PackHeader, EncodedExts, EncodedPush, EncodablePush, OptByte;
    EncodeHeader(w, AnswerHeader(a));
    WriteByteIf(w, a.consolidation);
    ok := WriteExts(w, a.exts);
    if !ok { return; }
    ok := WritePushBody(w, a.inner);
  }

  method WriteErr(w: Writer, a: ResponseBody) returns (ok: bool)
    requires a.Err?
    modifies w
    ensures ok <==> EncodableAnswer(a)
    ensures ok ==> w.buf == old(w.buf) + EncodedAnswer(a)
  {
    hide PackHeader, EncodedExts, EncodedEnc, Prefixed;
    EncodeHeader(w, AnswerHeader(a));
    ok := WriteEnc(w, a.encoding);
    if !ok { return; }
    ok := WriteExts(w, a.exts);
    if !ok { return; }
    ok := EncodePrefixed(w, a.payload, W32);
  }

  method WriteAnswer(w: Writer, a: ResponseBody) returns (ok: bool)
    modifies w
    ensures ok <==> EncodableAnswer(a)
    ensures ok ==> w.buf == old(w.buf) + EncodedAnswer(a)
  {
    match a
    case Reply(_, _, _) => ok := WriteReply(w, a);
    case Err(_, _, _) => ok := WriteErr(w, a);
  }

  /** The WireExpr extension comes first, then the other extensions; its More
      flag is set by hand. */
  method WriteUndeclareExts(w: Writer, ke: WireExpr, exts: Exts) returns (ok: bool)
    modifies w
    ensures ok <==> |KeyExtBody(ke)| < U32 && EncodableExts(exts)
    ensures ok ==> EncodableExts([KeyExt(ke)] + exts) && w.buf == old(w.buf) + EncodedExts([KeyExt(ke)] + exts)
  {
    hide Vle.Encoded, KeyExtBody;
    var body := new Writer([]);
    body.AppendByte(Bit(ke.Named(), 1) + Bit(ke.mapping, 2));
    Vle.EncodeZ64(body, ke.scope);
    if ke.Named() {
      body.AppendBytes(ke.suffix);
    }
    KeyExtBodyIs(ke, body.buf);
    var first := KeyExt(ke).(more := |exts| > 0);
    ok := EncodeExtension(w, first);
    if !ok { return; }
    ok := EncodeExtensions(w, exts);
    var chain := [KeyExt(ke)] + exts;
    assert chain[1..] == exts;
  }

  lemma KeyExtBodyIs(ke: WireExpr, s: bytes)
    requires s == [Bit(ke.Named(), 1) + Bit(ke.mapping, 2)] + Vle.Encoded(ke.scope)
                  + (if ke.Named() then ke.suffix else [])
    ensures s == KeyExtBody(ke)
  {
  }

  method WriteDecl(w: Writer, d: DeclareBody) returns (ok: bool)
    modifies w
    ensures ok <==> EncodableDecl(d)
    ensures ok ==> w.buf == old(w.buf) + EncodedDecl(d)
  {
    hide PackHeader, EncodedExts, EncodedExpr, OptText, Vle.Encoded, KeyExtBody;
    ghost var o, h := w.buf, [PackHeader(DeclHeader(d))];
    EncodeHeader(w, DeclHeader(d));
    match d {
      case DeclareKeyExpr(exprId, scope, suffix, exts) =>
        Vle.EncodeZ64(w, exprId);
        Vle.EncodeZ64(w, scope);
        ok := WriteTextIf(w, suffix);
        if !ok { return; }
        ok := WriteExts(w, exts);
        if ok { Append4(o + h, Vle.Encoded(exprId), Vle.Encoded(scope), OptText(suffix), EncodedExts(exts)); }
      case UndeclareKeyExpr(exprId, exts) =>
        Vle.EncodeZ64(w, exprId);
        ok := WriteExts(w, exts);
        if ok { Append2(o + h, Vle.Encoded(exprId), EncodedExts(exts)); }
      case DeclareEntity(_, id, ke, exts) =>
        Vle.EncodeZ64(w, id);
        ok := WriteExpr(w, ke);
        if !ok { return; }
        ok := WriteExts(w, exts);
        if ok { Append3(o + h, Vle.Encoded(id), EncodedExpr(ke), EncodedExts(exts)); }
      case UndeclareEntity(_, id, ke, exts) =>
        Vle.EncodeZ64(w, id);
        ok := WriteUndeclareExts(w, ke, exts);
        if ok { Append2(o + h, Vle.Encoded(id), EncodedExts([KeyExt(ke)] + exts)); }
      case DeclareFinal(exts) =>
        ok := WriteExts(w, exts);
    }
    if ok {
      Append2(o, h, EncodedDeclFields(d));
    }
  }

  /** The options byte, built up bit by bit. */
  method BuildOptions(f: InterestFilter, restriction: Option<WireExpr>) returns (opts: byte)
    ensures opts == OptionsByte(f, restriction)
  {
    opts := 0;
    if f.keyExprs { opts := opts + 1; }
    if f.subscribers { opts := opts + 2; }
    if f.queryables { opts := opts + 4; }
    if f.tokens { opts := opts + 8; }
    if f.aggregate { opts := opts + 128; }
    if restriction.Some? {
      opts := opts + 16;
      if restriction.value.Named() { opts := opts + 32; }
      if restriction.value.mapping { opts := opts + 64; }
    }
  }

  method WriteOptions(w: Writer, m: Message) returns (ok: bool)
    requires m.Interest?
    modifies w
    ensures ok <==> (!m.mode.Final? && m.restriction.Some? ==> EncodableExpr(m.restriction.value))
    ensures ok ==> w.buf == old(w.buf) + if m.mode.Final? then [] else EncodedOptions(m)
  {
    hide OptionsByte, EncodedExpr;
    ok := true;
    if !m.mode.Final? {
      var opts := BuildOptions(m.filter, m.restriction);
      w.AppendByte(opts);
      if m.restriction.Some? {
        ok := WriteExpr(w, m.restriction.value);
      }
    }
  }

  /** Header, request id where there is one, key and extensions: the front part
      that PUSH, REQUEST and RESPONSE share. */
  method WriteKeyed(w: Writer, m: Message, id: Option<uint32>) returns (ok: bool)
    requires m.Push? || m.Request? || m.Response?
    modifies w
    ensures ok <==> EncodableExpr(m.ke) && EncodableExts(m.exts)
    ensures ok ==>
              w.buf == old(w.buf)
                       + ([PackHeader(MessageHeader(m))] + OptZ32(id) + EncodedExpr(m.ke) + EncodedExts(m.exts))
  {
    hide PackHeader, EncodedExts, EncodedExpr, Vle.Encoded;
    EncodeHeader(w, MessageHeader(m));
    if id.Some? {
      Vle.EncodeZ64(w, id.value);
    }
    ok := WriteExpr(w, m.ke);
    if !ok { return; }
    ok := WriteExts(w, m.exts);
  }

  /** EncodeTo of every network message; it fails exactly on messages that have
      no wire form. */
  method WriteMessage(w: Writer, m: Message) returns (ok: bool)
    modifies w
    ensures ok <==> Encodable(m)
    ensures ok ==> w.buf == old(w.buf) + Encoded(m)
  {
    hide PackHeader, EncodedExts, EncodedExpr, Vle.Encoded, EncodedPush, EncodedQuery, EncodedAnswer, EncodedDecl,
         EncodedOptions;
    ghost var o, h := w.buf, [PackHeader(MessageHeader(m))];
    match m
    case Push(ke, exts, data) =>
      ok := WriteKeyed(w, m, None);
      if !ok { return; }
      ok := WritePushBody(w, data);
      if ok {
        AppendBody(o, h, [], EncodedExpr(ke), EncodedExts(exts), EncodedPush(data));
        assert [] + EncodedExpr(ke) == EncodedExpr(ke);
      }
    case Request(id, ke, exts, query) =>
      ok := WriteKeyed(w, m, Some(id));
      if !ok { return; }
      ok := WriteQuery(w, query);
      if ok {
        AppendBody(o, h, Vle.Encoded(id), EncodedExpr(ke), EncodedExts(exts), EncodedQuery(query));
      }
    case Response(id, ke, exts, answer) =>
      ok := WriteKeyed(w, m, Some(id));
      if !ok { return; }
      ok := WriteAnswer(w, answer);
      if ok {
        AppendBody(o, h, Vle.Encoded(id), EncodedExpr(ke), EncodedExts(exts), EncodedAnswer(answer));
      }
    case ResponseFinal(id, exts) =>
      EncodeHeader(w, MessageHeader(m));
      Vle.EncodeZ64(w, id);
      ok := WriteExts(w, exts);
      if ok {
        Append2(o + h, Vle.Encoded(id), EncodedExts(exts));
        Append2(o, h, EncodedFields(m));
      }
    case Declare(_, _, _) =>
      ok := WriteDeclare(w, m);
    case Interest(id, _, _, _, exts) =>
      EncodeHeader(w, MessageHeader(m));
      Vle.EncodeZ64(w, id);
      ok := WriteOptions(w, m);
      if !ok { return; }
      ok := WriteExts(w, exts);
      if ok {
        Append3(o + h, Vle.Encoded(id), if m.mode.Final? then [] else EncodedOptions(m), EncodedExts(exts));
        Append2(o, h, EncodedFields(m));
      }
  }

  method WriteDeclare(w: Writer, m: Message) returns (ok: bool)
    requires m.Declare?
    modifies w
    ensures ok <==> Encodable(m)
    ensures ok ==> w.buf == old(w.buf) + Encoded(m)
  {
    hide PackHeader, EncodedExts, Vle.Encoded, EncodedDecl;
    ghost var o, h := w.buf, [PackHeader(MessageHeader(m))];
    EncodeHeader(w, MessageHeader(m));
    if m.interestId.Some? {
      Vle.EncodeZ64(w, m.interestId.value);
    } else {
      assert w.buf + [] == w.buf;
    }
    ok := WriteExts(w, m.exts);
    if !ok { return; }
    ok := WriteDecl(w, m.decl);
    if ok {
      Append3(o + h, OptZ32(m.interestId), EncodedExts(m.exts), EncodedDecl(m.decl));
      Append2(o, h, EncodedFields(m));
    }
  }

  // ----- decoders -----

  method ReadByteIf(r: Reader, present: bool) returns (res: Result<Option<byte>, CodecError>)
    requires r.Valid()
    modifies r
    ensures r.Agrees(res, DecodeByteIf(present, old(r.Rest())))
  {
    if !present {
      return Success(None);
    }
    var b :- r.ReadByte();
    res := Success(Some(b));
  }

  method ReadTextIf(r: Reader, present: bool) returns (res: Result<bytes, CodecError>)
    requires r.Valid()
    modifies r
    ensures r.Agrees(res, DecodeTextIf(present, old(r.Rest())))
  {
    if !present {
      return Success([]);
    }
    res := ReadPrefixed(r, W16);
  }

  method ReadPushBody(r: Reader) returns (res: Result<PushBody, CodecError>)
    requires r.Valid()
    modifies r
    ensures r.Agrees(res, DecodePushBody(old(r.Rest())))
  {
    hide DecodeHeader, DecodeTsIf, DecodeEncIf, DecodeExtsIf, DecodePrefixed;
    var h :- ReadHeader(r);
    if h.id == IdPut {
      var ts :- ReadTsIf(r, h.f1);
      var encoding :- ReadEncIf(r, h.f2);
      var exts :- ReadExtensionsIf(r, h.z);
      var payload :- ReadPrefixed(r, W32);
      res := Success(Put(ts, encoding, exts, payload));
    } else if h.id == IdDel {
      var ts :- ReadTsIf(r, h.f1);
      var exts :- ReadExtensionsIf(r, h.z);
      res := Success(Del(ts, exts));
    } else {
      res := Failure(UnexpectedId);
    }
  }

  method ReadQueryBody(r: Reader) returns (res: Result<QueryBody, CodecError>)
    requires r.Valid()
    modifies r
    ensures r.Agrees(res, DecodeQueryBody(old(r.Rest())))
  {
    hide DecodeHeader, DecodeByteIf, DecodeTextIf, DecodeExtsIf;
    var h :- ReadHeader(r);
    if h.id != IdQuery {
      return Failure(UnexpectedId);
    }
    var c :- ReadByteIf(r, h.f1);
    var parameters :- ReadTextIf(r, h.f2);
    var exts :- ReadExtensionsIf(r, h.z);
    res := Success(QueryBody(c, parameters, exts));
  }

  method ReadAnswer(r: Reader) returns (res: Result<ResponseBody, CodecError>)
    requires r.Valid()
    modifies r
    ensures r.Agrees(res, DecodeAnswer(old(r.Rest())))
  {
    hide DecodeHeader, DecodeByteIf, DecodeEncIf, DecodeExtsIf, DecodePrefixed, DecodePushBody;
    var h :- ReadHeader(r);
    if h.id == IdReply {
      var c :- ReadByteIf(r, h.f1);
      var exts :- ReadExtensionsIf(r, h.z);
      var inner :- ReadPushBody(r);
      res := Success(Reply(c, exts, inner));
    } else if h.id == IdErr {
      var encoding :- ReadEncIf(r, h.f2);
      var exts :- ReadExtensionsIf(r, h.z);
      var payload :- ReadPrefixed(r, W32);
      res := Success(Err(encoding, exts, payload));
    } else {
      res := Failure(UnexpectedId);
    }
  }

  method ReadDeclareKeyExpr(r: Reader, h: Header) returns (res: Result<DeclareBody, CodecError>)
    requires r.Valid()
    modifies r
    ensures r.Agrees(res, DecodeDeclareKeyExpr(h, old(r.Rest())))
  {
    hide Vle.DecodeBelow, DecodeTextIf, DecodeExtsIf;
    var exprId :- Vle.DecodeVleBelow(r, Vle.MaxZ16Bytes, U16);
    var scope :- Vle.DecodeVleBelow(r, Vle.MaxZ16Bytes, U16);
    var suffix :- ReadTextIf(r, h.f1);
    var exts :- ReadExtensionsIf(r, h.z);
    res := Success(DeclareKeyExpr(exprId, scope, suffix, exts));
  }

  method ReadUndeclareKeyExpr(r: Reader, h: Header) returns (res: Result<DeclareBody, CodecError>)
    requires r.Valid()
    modifies r
    ensures r.Agrees(res, DecodeUndeclareKeyExpr(h, old(r.Rest())))
  {
    hide Vle.DecodeBelow, DecodeExtsIf;
    var exprId :- Vle.DecodeVleBelow(r, Vle.MaxZ16Bytes, U16);
    var exts :- ReadExtensionsIf(r, h.z);
    res := Success(UndeclareKeyExpr(exprId, exts));
  }

  method ReadDeclareEntity(r: Reader, h: Header, kind: EntityKind) returns (res: Result<DeclareBody, CodecError>)
    requires r.Valid()
    modifies r
    ensures r.Agrees(res, DecodeDeclareEntity(h, kind, old(r.Rest())))
  {
    hide Vle.DecodeBelow, DecodeExpr, DecodeExtsIf;
    var id :- Vle.DecodeVleBelow(r, Vle.MaxZ32Bytes, U32);
    var ke :- ReadExpr(r, h.f1, h.f2);
    var exts :- ReadExtensionsIf(r, h.z);
    res := Success(DeclareEntity(kind, id, ke, exts));
  }

  method ReadKeyExtBody(data: bytes) returns (res: Result<WireExpr, CodecError>)
    ensures match DecodeKeyExtBody(data)
            case Ok(k, _) => res == Success(k)
            case Bad(e) => res == Failure(e)
  {
    var r := new Reader(data);
    var flags :- r.ReadByte();
    var scope :- Vle.DecodeVleBelow(r, Vle.MaxZ16Bytes, U16);
    var suffix := [];
    if flags % 2 == 1 {
      suffix := r.Rest();
    }
    res := Success(WireExpr(scope, suffix, flags / 2 % 2 == 1));
  }

  /** What the rest of the chain adds to the extensions kept so far. */
  function Kept(kept: Exts, rest: Result<(WireExpr, Exts), CodecError>): Result<(WireExpr, Exts), CodecError> {
    match rest
    case Success((k, others)) => Success((k, kept + others))
    case Failure(e) => Failure(e)
  }

  lemma KeepOne(kept: Exts, e: Extension, rest: Result<(WireExpr, Exts), CodecError>)
    ensures Kept(kept + [e], rest) == Kept(kept, Kept([e], rest))
  {
    if rest.Success? {
      assert kept + ([e] + rest.value.1) == kept + [e] + rest.value.1;
    }
  }

  lemma KeepNothing(rest: Result<(WireExpr, Exts), CodecError>)
    ensures Kept([], rest) == rest
  {
    if rest.Success? {
      assert [] + rest.value.1 == rest.value.1;
    }
  }

  method CollectKeyExts(exts: Exts) returns (res: Result<(WireExpr, Exts), CodecError>)
    ensures res == TakeKeyExts(exts, WireExpr(0, [], false))
  {
    var ke, kept: Exts := WireExpr(0, [], false), [];
    KeepNothing(TakeKeyExts(exts, ke));
    for i := 0 to |exts|
      invariant TakeKeyExts(exts, WireExpr(0, [], false)) == Kept(kept, TakeKeyExts(exts[i..], ke))
    {
      var e := exts[i];
      assert exts[i..][1..] == exts[i + 1..];
      if IsKeyExt(e) {
        ke :- ReadKeyExtBody(e.body.data);
      } else {
        KeepOne(kept, e, TakeKeyExts(exts[i + 1..], ke));
        kept := kept + [e];
      }
    }
    assert kept + [] == kept;
    res := Success((ke, kept));
  }

  method ReadUndeclareEntity(r: Reader, h: Header, kind: EntityKind) returns (res: Result<DeclareBody, CodecError>)
    requires r.Valid()
    modifies r
    ensures r.Agrees(res, DecodeUndeclareEntity(h, kind, old(r.Rest())))
  {
    hide Vle.DecodeBelow, DecodeExts;
    var id :- Vle.DecodeVleBelow(r, Vle.MaxZ32Bytes, U32);
    if !h.z {
      return Success(UndeclareEntity(kind, id, WireExpr(0, [], false), []));
    }
    var exts :- ReadExtensions(r);
    var keyAndOthers :- CollectKeyExts(exts);
    res := Success(UndeclareEntity(kind, id, keyAndOthers.0, keyAndOthers.1));
  }

  method ReadDecl(r: Reader) returns (res: Result<DeclareBody, CodecError>)
    requires r.Valid()
    modifies r
    ensures r.Agrees(res, DecodeDecl(old(r.Rest())))
  {
    hide DecodeHeader, DecodeDeclareKeyExpr, DecodeUndeclareKeyExpr, DecodeDeclareEntity, DecodeUndeclareEntity,
         DecodeExtsIf;
    var h :- ReadHeader(r);
    if h.id == 0 {
      res := ReadDeclareKeyExpr(r, h);
    } else if h.id == 1 {
      res := ReadUndeclareKeyExpr(r, h);
    } else if h.id == 2 {
      res := ReadDeclareEntity(r, h, Subscriber);
    } else if h.id == 4 {
      res := ReadDeclareEntity(r, h, Queryable);
    } else if h.id == 6 {
      res := ReadDeclareEntity(r, h, Token);
    } else if h.id == 3 {
      res := ReadUndeclareEntity(r, h, Subscriber);
    } else if h.id == 5 {
      res := ReadUndeclareEntity(r, h, Queryable);
    } else if h.id == 7 {
      res := ReadUndeclareEntity(r, h, Token);
    } else if h.id == IdDeclareFinal {
      var exts :- ReadExtensionsIf(r, h.z);
      res := Success(DeclareFinal(exts));
    } else {
      res := Failure(UnexpectedId);
    }
  }

  method ReadOptions(r: Reader, mode: InterestMode)
    returns (res: Result<(InterestFilter, Option<WireExpr>), CodecError>)
    requires r.Valid()
    modifies r
    ensures r.Agrees(res, DecodeOptions(mode, old(r.Rest())))
  {
    if mode.Final? {
      return Success((NoFilter, None));
    }
    var opts :- r.ReadByte();
    var k := None;
    if opts / 16 % 2 == 1 {
      var ke :- ReadExpr(r, opts / 32 % 2 == 1, opts / 64 % 2 == 1);
      k := Some(ke);
    }
    res := Success((FilterOf(opts), k));
  }

  method ReadPush(r: Reader, h: Header) returns (res: Result<Message, CodecError>)
    requires r.Valid()
    modifies r
    ensures r.Agrees(res, DecodePush(h, old(r.Rest())))
  {
    hide DecodeExpr, DecodeExtsIf, DecodePushBody;
    var ke :- ReadExpr(r, h.f1, h.f2);
    var exts :- ReadExtensionsIf(r, h.z);
    var data :- ReadPushBody(r);
    res := Success(Push(ke, exts, data));
  }

  method ReadRequest(r: Reader, h: Header) returns (res: Result<Message, CodecError>)
    requires r.Valid()
    modifies r
    ensures r.Agrees(res, DecodeRequest(h, old(r.Rest())))
  {
    hide Vle.DecodeBelow, DecodeExpr, DecodeExtsIf, DecodeQueryBody;
    var id :- Vle.DecodeVleBelow(r, Vle.MaxZ32Bytes, U32);
    var ke :- ReadExpr(r, h.f1, h.f2);
    var exts :- ReadExtensionsIf(r, h.z);
    var query :- ReadQueryBody(r);
    res := Success(Request(id, ke, exts, query));
  }

  method ReadResponse(r: Reader, h: Header) returns (res: Result<Message, CodecError>)
    requires r.Valid()
    modifies r
    ensures r.Agrees(res, DecodeResponse(h, old(r.Rest())))
  {
    hide Vle.DecodeBelow, DecodeExpr, DecodeExtsIf, DecodeAnswer;
    var id :- Vle.DecodeVleBelow(r, Vle.MaxZ32Bytes, U32);
    var ke :- ReadExpr(r, h.f1, h.f2);
    var exts :- ReadExtensionsIf(r, h.z);
    var answer :- ReadAnswer(r);
    res := Success(Response(id, ke, exts, answer));
  }

  method ReadResponseFinal(r: Reader, h: Header) returns (res: Result<Message, CodecError>)
    requires r.Valid()
    modifies r
    ensures r.Agrees(res, DecodeResponseFinal(h, old(r.Rest())))
  {
    hide Vle.DecodeBelow, DecodeExtsIf;
    var id :- Vle.DecodeVleBelow(r, Vle.MaxZ32Bytes, U32);
    var exts :- ReadExtensionsIf(r, h.z);
    res := Success(ResponseFinal(id, exts));
  }

  method ReadDeclare(r: Reader, h: Header) returns (res: Result<Message, CodecError>)
    requires r.Valid()
    modifies r
    ensures r.Agrees(res, DecodeDeclare(h, old(r.Rest())))
  {
    hide Vle.DecodeBelow, DecodeExtsIf, DecodeDecl;
    var interestId := None;
    if h.f1 {
      var id :- Vle.DecodeVleBelow(r, Vle.MaxZ32Bytes, U32);
      interestId := Some(id);
    }
    var exts :- ReadExtensionsIf(r, h.z);
    var decl :- ReadDecl(r);
    res := Success(Declare(interestId, exts, decl));
  }

  method ReadInterest(r: Reader, h: Header) returns (res: Result<Message, CodecError>)
    requires r.Valid()
    modifies r
    ensures r.Agrees(res, DecodeInterest(h, old(r.Rest())))
  {
    hide Vle.DecodeBelow, DecodeExtsIf, DecodeOptions;
    var id :- Vle.DecodeVleBelow(r, Vle.MaxZ32Bytes, U32);
    var options :- ReadOptions(r, ModeOf(h));
    var exts :- ReadExtensionsIf(r, h.z);
    res := Success(Interest(id, ModeOf(h), options.0, options.1, exts));
  }

  /** The decoder that the header of a network message selects. */
  method ReadMessage(r: Reader, h: Header) returns (res: Result<Message, CodecError>)
    requires r.Valid()
    modifies r
    ensures r.Agrees(res, Decode(h, old(r.Rest())))
  {
    hide DecodePush, DecodeRequest, DecodeResponse, DecodeResponseFinal, DecodeDeclare, DecodeInterest;
    if h.id == IdPush {
      res := ReadPush(r, h);
    } else if h.id == IdRequest {
      res := ReadRequest(r, h);
    } else if h.id == IdResponse {
      res := ReadResponse(r, h);
    } else if h.id == IdResponseFinal {
      res := ReadResponseFinal(r, h);
    } else if h.id == IdDeclare {
      res := ReadDeclare(r, h);
    } else if h.id == IdInterest {
      res := ReadInterest(r, h);
    } else {
      res := Failure(UnexpectedId);
    }
  }
}
