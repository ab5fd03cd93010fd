/**
 Network messages (internal/wire: push.go, data.go, request.go, response.go,
 declare.go, interest.go): what their encoders append and what their decoders
 read, as functions on bytes. The encoders and decoders themselves are in
 MessageCodec.
 */
module NetworkMessages {
  import opened Wrappers
  import opened Buffer
  import opened Extensions
  import opened WireTypes
  import Vle

  type Exts = seq<Extension>

  datatype PushBody =
    | Put(ts: Option<Timestamp>, encoding: Option<Encoding>, exts: Exts, payload: bytes)
    | Del(ts: Option<Timestamp>, exts: Exts)

  datatype QueryBody = QueryBody(consolidation: Option<byte>, parameters: bytes, exts: Exts)

  datatype ResponseBody =
    | Reply(consolidation: Option<byte>, exts: Exts, inner: PushBody)
    | Err(encoding: Option<Encoding>, exts: Exts, payload: bytes)

  datatype EntityKind = Subscriber | Queryable | Token

  datatype DeclareBody =
    | DeclareKeyExpr(exprId: uint16, scope: uint16, suffix: bytes, exts: Exts)
    | UndeclareKeyExpr(exprId: uint16, exts: Exts)
    | DeclareEntity(kind: EntityKind, entityId: uint32, ke: WireExpr, exts: Exts)
    | UndeclareEntity(kind: EntityKind, entityId: uint32, ke: WireExpr, exts: Exts)
    | DeclareFinal(exts: Exts)

  datatype InterestMode = Final | Current | Future | CurrentFuture

  datatype InterestFilter =
    InterestFilter(keyExprs: bool, subscribers: bool, queryables: bool, tokens: bool, aggregate: bool)

  const NoFilter := InterestFilter(false, false, false, false, false)

  datatype Message =
    | Push(ke: WireExpr, exts: Exts, data: PushBody)
    | Request(requestId: uint32, ke: WireExpr, exts: Exts, query: QueryBody)
    | Response(requestId: uint32, ke: WireExpr, exts: Exts, answer: ResponseBody)
    | ResponseFinal(requestId: uint32, exts: Exts)
    | Declare(interestId: Option<uint32>, exts: Exts, decl: DeclareBody)
    | Interest(id: uint32, mode: InterestMode, filter: InterestFilter, restriction: Option<WireExpr>, exts: Exts)

  // ----- PUT and DEL -----

  const IdPut: byte := 0x01
  const IdDel: byte := 0x02
  const IdQuery: byte := 0x03
  const IdReply: byte := 0x04
  const IdErr: byte := 0x05

  predicate EncodablePush(b: PushBody) {
    EncodableTs(b.ts) && EncodableExts(b.exts) &&
    (b.Put? ==> EncodableEnc(b.encoding) && |b.payload| < U32)
  }

  function PushHeader(b: PushBody): Header {
    match b
    case Put(ts, encoding, exts, _) => Header(IdPut, ts.Some?, encoding.Some?, |exts| > 0)
    case Del(ts, exts) => Header(IdDel, ts.Some?, false, |exts| > 0)
  }

  function EncodedPush(b: PushBody): bytes
    requires EncodablePush(b)
  {
    match b
    case Put(ts, encoding, exts, payload) =>
      [PackHeader(PushHeader(b))] + EncodedTs(ts) + EncodedEnc(encoding) + EncodedExts(exts) + Prefixed(payload)
    case Del(ts, exts) =>
      [PackHeader(PushHeader(b))] + EncodedTs(ts) + EncodedExts(exts)
  }

  function DecodePut(h: Header, s: bytes): (p: Parse<PushBody>)
    ensures p.Ok? ==> |p.rest| < |s|
  {
    var (ts, rest) :- DecodeTsIf(h.f1, s);
    var (encoding, rest) :- DecodeEncIf(h.f2, rest);
    var (exts, rest) :- DecodeExtsIf(h.z, rest);
    var (payload, rest) :- DecodePrefixed(rest, W32);
    Ok(Put(ts, encoding, exts, payload), rest)
  }

  function DecodeDel(h: Header, s: bytes): (p: Parse<PushBody>)
    ensures p.Ok? ==> |p.rest| <= |s|
  {
    var (ts, rest) :- DecodeTsIf(h.f1, s);
    var (exts, rest) :- DecodeExtsIf(h.z, rest);
    Ok(Del(ts, exts), rest)
  }

  function DecodePushBody(s: bytes): (p: Parse<PushBody>)
    ensures p.Ok? ==> |p.rest| < |s|
  {
    var (h, rest) :- DecodeHeader(s);
    if h.id == IdPut then DecodePut(h, rest)
    else if h.id == IdDel then DecodeDel(h, rest)
    else Bad(UnexpectedId)
  }

  function WirePush(b: PushBody): PushBody {
    b.(exts := WireExts(b.exts))
  }

  lemma PushRoundTrip(b: PushBody, suffix: bytes)
    requires EncodablePush(b)
    ensures DecodePushBody(EncodedPush(b) + suffix) == Ok(WirePush(b), suffix)
  {
    var h, t, x := PushHeader(b), EncodedTs(b.ts), EncodedExts(b.exts);
    match b
    case Put(ts, encoding, exts, payload) =>
      var e, p := EncodedEnc(encoding), Prefixed(payload);
      Fields5([PackHeader(h)], t, e, x, p, suffix);
      HeaderInFront(h, t + (e + (x + (p + suffix))));
      TsRoundTrip(ts, e + (x + (p + suffix)));
      EncRoundTrip(encoding, x + (p + suffix));
      ExtsIfRoundTrip(exts, p + suffix);
      PrefixedRoundTrip(payload, W32, suffix);
    case Del(ts, exts) =>
      Fields3([PackHeader(h)], t, x, suffix);
      HeaderInFront(h, t + (x + suffix));
      TsRoundTrip(ts, x + suffix);
      ExtsIfRoundTrip(exts, suffix);
  }

  // ----- QUERY -----

  function OptByte(b: Option<byte>): bytes {
    match b case None => [] case Some(v) => [v]
  }

  function DecodeByteIf(present: bool, s: bytes): (p: Parse<Option<byte>>)
    ensures p.Ok? ==> |p.rest| <= |s|
  {
    if present then
      var (b, rest) :- TakeByte(s);
      Ok(Some(b), rest)
    else Ok(None, s)
  }

  lemma ByteRoundTrip(b: Option<byte>, suffix: bytes)
    ensures DecodeByteIf(b.Some?, OptByte(b) + suffix) == Ok(b, suffix)
  {
    if b.None? {
      assert OptByte(b) + suffix == suffix;
    }
  }

  /** A string that is left out when empty; a header flag says which. */
  function OptText(s: bytes): bytes
    requires |s| < U32
  {
    if s == [] then [] else Prefixed(s)
  }

  predicate EncodableOptText(s: bytes) {
    s != [] ==> EncodableText(s, W16)
  }

  function DecodeTextIf(present: bool, s: bytes): (p: Parse<bytes>)
    ensures p.Ok? ==> |p.rest| <= |s|
  {
    if present then DecodePrefixed(s, W16) else Ok([], s)
  }

  lemma TextRoundTrip(s: bytes, suffix: bytes)
    requires EncodableOptText(s)
    ensures DecodeTextIf(s != [], OptText(s) + suffix) == Ok(s, suffix)
  {
    if s == [] {
      assert OptText(s) + suffix == suffix;
    } else {
      PrefixedRoundTrip(s, W16, suffix);
    }
  }

  predicate EncodableQuery(q: QueryBody) {
    EncodableOptText(q.parameters) && EncodableExts(q.exts)
  }

  function QueryHeader(q: QueryBody): Header {
    Header(IdQuery, q.consolidation.Some?, q.parameters != [], |q.exts| > 0)
  }

  function EncodedQuery(q: QueryBody): bytes
    requires EncodableQuery(q)
  {
    [PackHeader(QueryHeader(q))] + OptByte(q.consolidation) + OptText(q.parameters) + EncodedExts(q.exts)
  }

  function DecodeQueryBody(s: bytes): (p: Parse<QueryBody>)
    ensures p.Ok? ==> |p.rest| < |s|
  {
    var (h, rest) :- DecodeHeader(s);
    if h.id != IdQuery then Bad(UnexpectedId)
    else
      var (c, rest) :- DecodeByteIf(h.f1, rest);
      var (parameters, rest) :- DecodeTextIf(h.f2, rest);
      var (exts, rest) :- DecodeExtsIf(h.z, rest);
      Ok(QueryBody(c, parameters, exts), rest)
  }

  lemma QueryRoundTrip(q: QueryBody, suffix: bytes)
    requires EncodableQuery(q)
    ensures DecodeQueryBody(EncodedQuery(q) + suffix) == Ok(q.(exts := WireExts(q.exts)), suffix)
  {
    var h, c, t, x := QueryHeader(q), OptByte(q.consolidation), OptText(q.parameters), EncodedExts(q.exts);
    Fields4([PackHeader(h)], c, t, x, suffix);
    HeaderInFront(h, c + (t + (x + suffix)));
    ByteRoundTrip(q.consolidation, t + (x + suffix));
    TextRoundTrip(q.parameters, x + suffix);
    ExtsIfRoundTrip(q.exts, suffix);
  }

  // ----- REPLY and ERR -----

  predicate EncodableAnswer(a: ResponseBody) {
    EncodableExts(a.exts) &&
    match a
    case Reply(_, _, inner) => EncodablePush(inner)
    case Err(encoding, _, payload) => EncodableEnc(encoding) && |payload| < U32
  }

  function AnswerHeader(a: ResponseBody): Header {
    match a
    case Reply(c, exts, _) => Header(IdReply, c.Some?, false, |exts| > 0)
    case Err(encoding, exts, _) => Header(IdErr, false, encoding.Some?, |exts| > 0)
  }

  function EncodedAnswer(a: ResponseBody): bytes
    requires EncodableAnswer(a)
  {
    match a
    case Reply(c, exts, inner) =>
      [PackHeader(AnswerHeader(a))] + OptByte(c) + EncodedExts(exts) + EncodedPush(inner)
    case Err(encoding, exts, payload) =>
      [PackHeader(AnswerHeader(a))] + EncodedEnc(encoding) + EncodedExts(exts) + Prefixed(payload)
  }

  function DecodeReply(h: Header, s: bytes): (p: Parse<ResponseBody>)
    ensures p.Ok? ==> |p.rest| < |s|
  {
    var (c, rest) :- DecodeByteIf(h.f1, s);
    var (exts, rest) :- DecodeExtsIf(h.z, rest);
    var (inner, rest) :- DecodePushBody(rest);
    Ok(Reply(c, exts, inner), rest)
  }

  function DecodeErr(h: Header, s: bytes): (p: Parse<ResponseBody>)
    ensures p.Ok? ==> |p.rest| < |s|
  {
    var (encoding, rest) :- DecodeEncIf(h.f2, s);
    var (exts, rest) :- DecodeExtsIf(h.z, rest);
    var (payload, rest) :- DecodePrefixed(rest, W32);
    Ok(Err(encoding, exts, payload), rest)
  }

  function DecodeAnswer(s: bytes): (p: Parse<ResponseBody>)
    ensures p.Ok? ==> |p.rest| < |s|
  {
    var (h, rest) :- DecodeHeader(s);
    if h.id == IdReply then DecodeReply(h, rest)
    else if h.id == IdErr then DecodeErr(h, rest)
    else Bad(UnexpectedId)
  }

  function WireAnswer(a: ResponseBody): ResponseBody {
    match a
    case Reply(c, exts, inner) => Reply(c, WireExts(exts), WirePush(inner))
    case Err(encoding, exts, payload) => Err(encoding, WireExts(exts), payload)
  }

  lemma AnswerRoundTrip(a: ResponseBody, suffix: bytes)
    requires EncodableAnswer(a)
    ensures DecodeAnswer(EncodedAnswer(a) + suffix) == Ok(WireAnswer(a), suffix)
  {
    var h, x := AnswerHeader(a), EncodedExts(a.exts);
    match a
    case Reply(c, exts, inner) =>
      var b, p := OptByte(c), EncodedPush(inner);
      Fields4([PackHeader(h)], b, x, p, suffix);
      HeaderInFront(h, b + (x + (p + suffix)));
      ByteRoundTrip(c, x + (p + suffix));
      ExtsIfRoundTrip(exts, p + suffix);
      PushRoundTrip(inner, suffix);
    case Err(encoding, exts, payload) =>
      var e, p := EncodedEnc(encoding), Prefixed(payload);
      Fields4([PackHeader(h)], e, x, p, suffix);
      HeaderInFront(h, e + (x + (p + suffix)));
      EncRoundTrip(encoding, x + (p + suffix));
      ExtsIfRoundTrip(exts, p + suffix);
      PrefixedRoundTrip(payload, W32, suffix);
  }

  // ----- declarations -----

  function DeclareId(kind: EntityKind): byte {
    match kind case Subscriber => 2 case Queryable => 4 case Token => 6
  }

  function UndeclareId(kind: EntityKind): byte {
    match kind case Subscriber => 3 case Queryable => 5 case Token => 7
  }

  const IdDeclareFinal: byte := 0x1A
  const KeyExtId: byte := 0x0F

  /** Payload of the mandatory WireExpr extension; the suffix has no length
      prefix, the enclosing ZBuf delimits it. */
  function KeyExtBody(k: WireExpr): bytes {
    [Bit(k.Named(), 1) + Bit(k.mapping, 2)] + Vle.Encoded(k.scope) + k.suffix
  }

  function DecodeKeyExtBody(s: bytes): Parse<WireExpr> {
    var (flags, rest) :- TakeByte(s);
    var (scope, rest) :- Vle.DecodeZ16(rest);
    Ok(WireExpr(scope, if flags % 2 == 1 then rest else [], flags / 2 % 2 == 1), [])
  }

  function KeyExt(k: WireExpr): Extension {
    Extension(KeyExtId, true, false, ZBuf(KeyExtBody(k)))
  }

  predicate IsKeyExt(e: Extension) {
    e.id == KeyExtId && e.body.ZBuf?
  }

  /** The decoder takes every WireExpr extension out of the chain; the last one wins. */
  function TakeKeyExts(es: Exts, k: WireExpr): (r: Result<(WireExpr, Exts), CodecError>)
    ensures r.Success? ==> |r.value.1| <= |es|
    ensures r.Success? && (exists i :: 0 <= i < |es| && IsKeyExt(es[i])) ==> |r.value.1| < |es|
  {
    if |es| == 0 then Success((k, []))
    else if IsKeyExt(es[0]) then
      match DecodeKeyExtBody(es[0].body.data)
      case Bad(e) => Failure(e)
      case Ok(k', _) => TakeKeyExts(es[1..], k')
    else
      var (k', others) :- TakeKeyExts(es[1..], k);
      Success((k', [es[0]] + others))
  }

  predicate EncodableDecl(d: DeclareBody) {
    EncodableExts(d.exts) &&
    match d
    case DeclareKeyExpr(_, _, suffix, _) => EncodableOptText(suffix)
    case DeclareEntity(_, _, ke, _) => EncodableExpr(ke)
    case UndeclareEntity(_, _, ke, _) => |KeyExtBody(ke)| < U32
    case _ => true
  }

  function DeclHeader(d: DeclareBody): Header {
    match d
    case DeclareKeyExpr(_, _, suffix, exts) => Header(0, suffix != [], false, |exts| > 0)
    case UndeclareKeyExpr(_, exts) => Header(1, false, false, |exts| > 0)
    case DeclareEntity(kind, _, ke, exts) => Header(DeclareId(kind), ke.Named(), ke.mapping, |exts| > 0)
    case UndeclareEntity(kind, _, _, _) => Header(UndeclareId(kind), false, false, true)
    case DeclareFinal(exts) => Header(IdDeclareFinal, false, false, |exts| > 0)
  }

  function EncodedDecl(d: DeclareBody): bytes
    requires EncodableDecl(d)
  {
    [PackHeader(DeclHeader(d))] + EncodedDeclFields(d)
  }

  function EncodedDeclFields(d: DeclareBody): bytes
    requires EncodableDecl(d)
  {
    match d
    case DeclareKeyExpr(exprId, scope, suffix, exts) =>
      Vle.Encoded(exprId) + Vle.Encoded(scope) + OptText(suffix) + EncodedExts(exts)
    case UndeclareKeyExpr(exprId, exts) => Vle.Encoded(exprId) + EncodedExts(exts)
    case DeclareEntity(_, id, ke, exts) => Vle.Encoded(id) + EncodedExpr(ke) + EncodedExts(exts)
    case UndeclareEntity(_, id, ke, exts) => Vle.Encoded(id) + EncodedExts([KeyExt(ke)] + exts)
    case DeclareFinal(exts) => EncodedExts(exts)
  }

  function DecodeDeclareKeyExpr(h: Header, s: bytes): (p: Parse<DeclareBody>)
    ensures p.Ok? ==> |p.rest| < |s|
  {
    var (exprId, rest) :- Vle.DecodeZ16(s);
    var (scope, rest) :- Vle.DecodeZ16(rest);
    var (suffix, rest) :- DecodeTextIf(h.f1, rest);
    var (exts, rest) :- DecodeExtsIf(h.z, rest);
    Ok(DeclareKeyExpr(exprId, scope, suffix, exts), rest)
  }

  function DecodeUndeclareKeyExpr(h: Header, s: bytes): (p: Parse<DeclareBody>)
    ensures p.Ok? ==> |p.rest| < |s|
  {
    var (exprId, rest) :- Vle.DecodeZ16(s);
    var (exts, rest) :- DecodeExtsIf(h.z, rest);
    Ok(UndeclareKeyExpr(exprId, exts), rest)
  }

  function DecodeDeclareEntity(h: Header, kind: EntityKind, s: bytes): (p: Parse<DeclareBody>)
    ensures p.Ok? ==> |p.rest| < |s|
  {
    var (id, rest) :- Vle.DecodeZ32(s);
    var (ke, rest) :- DecodeExpr(rest, h.f1, h.f2);
    var (exts, rest) :- DecodeExtsIf(h.z, rest);
    Ok(DeclareEntity(kind, id, ke, exts), rest)
  }

  function DecodeUndeclareEntity(h: Header, kind: EntityKind, s: bytes): (p: Parse<DeclareBody>)
    ensures p.Ok? ==> |p.rest| < |s|
  {
    var (id, rest) :- Vle.DecodeZ32(s);
    var (exts, rest) :- DecodeExtsIf(h.z, rest);
    match TakeKeyExts(exts, WireExpr(0, [], false))
    case Failure(e) => Bad(e)
    case Success((ke, others)) => Ok(UndeclareEntity(kind, id, ke, others), rest)
  }

  function DecodeDeclFields(h: Header, s: bytes): (p: Parse<DeclareBody>)
    ensures p.Ok? ==> |p.rest| <= |s|
  {
    if h.id == 0 then DecodeDeclareKeyExpr(h, s)
    else if h.id == 1 then DecodeUndeclareKeyExpr(h, s)
    else if h.id == 2 then DecodeDeclareEntity(h, Subscriber, s)
    else if h.id == 4 then DecodeDeclareEntity(h, Queryable, s)
    else if h.id == 6 then DecodeDeclareEntity(h, Token, s)
    else if h.id == 3 then DecodeUndeclareEntity(h, Subscriber, s)
    else if h.id == 5 then DecodeUndeclareEntity(h, Queryable, s)
    else if h.id == 7 then DecodeUndeclareEntity(h, Token, s)
    else if h.id == IdDeclareFinal then
      var (exts, rest) :- DecodeExtsIf(h.z, s);
      Ok(DeclareFinal(exts), rest)
    else Bad(UnexpectedId)
  }

  function DecodeDecl(s: bytes): (p: Parse<DeclareBody>)
    ensures p.Ok? ==> |p.rest| < |s|
  {
    var (h, rest) :- DecodeHeader(s);
    DecodeDeclFields(h, rest)
  }

  function WireDecl(d: DeclareBody): DeclareBody {
    d.(exts := WireExts(d.exts))
  }

  /** No extension beside the mandatory one would be taken for it on arrival. */
  predicate NoStrayKeyExt(d: DeclareBody) {
    d.UndeclareEntity? ==> forall e :: e in d.exts ==> !IsKeyExt(WireExt(e))
  }

  lemma KeyExtRoundTrip(k: WireExpr)
    ensures DecodeKeyExtBody(KeyExtBody(k)) == Ok(k, [])
  {
    var flags: bytes := [Bit(k.Named(), 1) + Bit(k.mapping, 2)];
    Fields2(flags, Vle.Encoded(k.scope), k.suffix);
    Vle.NarrowDecoders(k.scope, k.suffix);
    assert KeyExtBody(k)[1..] == Vle.Encoded(k.scope) + k.suffix;
  }

  lemma {:induction false} NoKeyExtsToTake(es: Exts, k: WireExpr)
    requires forall i :: 0 <= i < |es| ==> !IsKeyExt(es[i])
    ensures TakeKeyExts(es, k) == Success((k, es))
  {
    if |es| > 0 {
      NoKeyExtsToTake(es[1..], k);
      assert es == [es[0]] + es[1..];
    }
  }

  lemma {:induction false} WireExtsAt(es: Exts, i: nat)
    requires i < |es|
    ensures WireExts(es)[i] == WireExt(es[i]).(more := i < |es| - 1)
  {
    if i > 0 {
      WireExtsAt(es[1..], i - 1);
    }
  }

  /** An undeclaration's chain comes back as its key and the other extensions
      exactly when none of those is a WireExpr extension itself. */
  lemma UndeclareChain(k: WireExpr, exts: Exts)
    ensures TakeKeyExts(WireExts([KeyExt(k)] + exts), WireExpr(0, [], false)) == Success((k, WireExts(exts)))
       <==> forall e :: e in exts ==> !IsKeyExt(WireExt(e))
  {
    var chain := [KeyExt(k)] + exts;
    assert chain[1..] == exts;
    assert WireExts(chain)[1..] == WireExts(exts);
    KeyExtRoundTrip(k);
    forall i | 0 <= i < |exts|
      ensures IsKeyExt(WireExts(exts)[i]) == IsKeyExt(WireExt(exts[i]))
    {
      WireExtsAt(exts, i);
    }
    if forall e :: e in exts ==> !IsKeyExt(WireExt(e)) {
      NoKeyExtsToTake(WireExts(exts), k);
    } else {
      var e :| e in exts && IsKeyExt(WireExt(e));
      var i :| 0 <= i < |exts| && exts[i] == e;
      assert IsKeyExt(WireExts(exts)[i]);
    }
  }

  lemma UndeclareRoundTrip(d: DeclareBody, suffix: bytes)
    requires d.UndeclareEntity? && EncodableDecl(d)
    ensures DecodeUndeclareEntity(DeclHeader(d), d.kind, EncodedDeclFields(d) + suffix) == Ok(WireDecl(d), suffix)
       <==> NoStrayKeyExt(d)
  {
    var chain := [KeyExt(d.ke)] + d.exts;
    forall i | 0 <= i < |chain|
      ensures EncodableExt(chain[i])
    {
    }
    var n, x := Vle.Encoded(d.entityId), EncodedExts(chain);
    Fields2(n, x, suffix);
    Vle.NarrowDecoders(d.entityId, x + suffix);
    ExtsRoundTrip(chain, suffix);
    UndeclareChain(d.ke, d.exts);
  }

  lemma TwoKeyExts(first: WireExpr, second: WireExpr)
    ensures var chain := [KeyExt(first), KeyExt(second)];
            TakeKeyExts(WireExts(chain), WireExpr(0, [], false)) == Success((second, []))
  {
    hide KeyExtBody, DecodeKeyExtBody;
    KeyExtRoundTrip(first);
    KeyExtRoundTrip(second);
    var chain := [KeyExt(first), KeyExt(second)];
    assert chain[1..] == [KeyExt(second)];
    assert WireExts([KeyExt(second)]) == [KeyExt(second)];
    var wire := WireExts(chain);
    assert wire[0] == KeyExt(first).(more := true) && wire[1..] == [KeyExt(second)];
    assert TakeKeyExts(wire[1..], first) == Success((second, [])) by {
      assert wire[1..][1..] == [];
    }
  }

  /** The exception: of two WireExpr extensions the second one is taken, so that the
      undeclaration arrives with another expression and without its extension. */
  lemma SecondKeyExtWins(kind: EntityKind, id: uint32, first: WireExpr, second: WireExpr, suffix: bytes)
    requires EncodableDecl(UndeclareEntity(kind, id, first, [KeyExt(second)]))
    ensures var d := UndeclareEntity(kind, id, first, [KeyExt(second)]);
            && !NoStrayKeyExt(d)
            && DecodeUndeclareEntity(DeclHeader(d), kind, EncodedDeclFields(d) + suffix)
               == Ok(UndeclareEntity(kind, id, second, []), suffix)
  {
    var d := UndeclareEntity(kind, id, first, [KeyExt(second)]);
    var chain := [KeyExt(first), KeyExt(second)];
    assert [KeyExt(first)] + d.exts == chain && d.exts[0] == KeyExt(second);
    assert EncodableExt(KeyExt(first)) && EncodableExt(KeyExt(second));
    TwoKeyExts(first, second);
    hide EncodableExt, EncodedExts, WireExts, TakeKeyExts, Vle.Encoded, KeyExtBody, DecodeExts;
    var n, x := Vle.Encoded(id), EncodedExts(chain);
    Fields2(n, x, suffix);
    Vle.NarrowDecoders(id, x + suffix);
    ExtsRoundTrip(chain, suffix);
  }

  lemma DeclareKeyExprRoundTrip(d: DeclareBody, suffix: bytes)
    requires d.DeclareKeyExpr? && EncodableDecl(d)
    ensures DecodeDeclareKeyExpr(DeclHeader(d), EncodedDeclFields(d) + suffix) == Ok(WireDecl(d), suffix)
  {
    var a, b, t, x := Vle.Encoded(d.exprId), Vle.Encoded(d.scope), OptText(d.suffix), EncodedExts(d.exts);
    Fields4(a, b, t, x, suffix);
    Vle.NarrowDecoders(d.exprId, b + (t + (x + suffix)));
    Vle.NarrowDecoders(d.scope, t + (x + suffix));
    TextRoundTrip(d.suffix, x + suffix);
    ExtsIfRoundTrip(d.exts, suffix);
  }

  lemma UndeclareKeyExprRoundTrip(d: DeclareBody, suffix: bytes)
    requires d.UndeclareKeyExpr? && EncodableDecl(d)
    ensures DecodeUndeclareKeyExpr(DeclHeader(d), EncodedDeclFields(d) + suffix) == Ok(WireDecl(d), suffix)
  {
    var a, x := Vle.Encoded(d.exprId), EncodedExts(d.exts);
    Fields2(a, x, suffix);
    Vle.NarrowDecoders(d.exprId, x + suffix);
    ExtsIfRoundTrip(d.exts, suffix);
  }

  lemma DeclareEntityRoundTrip(d: DeclareBody, suffix: bytes)
    requires d.DeclareEntity? && EncodableDecl(d)
    ensures DecodeDeclareEntity(DeclHeader(d), d.kind, EncodedDeclFields(d) + suffix) == Ok(WireDecl(d), suffix)
  {
    var n, k, x := Vle.Encoded(d.entityId), EncodedExpr(d.ke), EncodedExts(d.exts);
    Fields3(n, k, x, suffix);
    Vle.NarrowDecoders(d.entityId, k + (x + suffix));
    ExprRoundTrip(d.ke, x + suffix);
    ExtsIfRoundTrip(d.exts, suffix);
  }

  lemma DeclRoundTrip(d: DeclareBody, suffix: bytes)
    requires EncodableDecl(d)
    ensures DecodeDecl(EncodedDecl(d) + suffix) == Ok(WireDecl(d), suffix) <==> NoStrayKeyExt(d)
  {
    hide PackHeader, EncodedDeclFields, DecodeDeclareKeyExpr, DecodeUndeclareKeyExpr,
         DecodeDeclareEntity, DecodeUndeclareEntity;
    var h, fields := DeclHeader(d), EncodedDeclFields(d);
    Fields2([PackHeader(h)], fields, suffix);
    HeaderInFront(h, fields + suffix);
    match d
    case DeclareKeyExpr(_, _, _, _) => DeclareKeyExprRoundTrip(d, suffix);
    case UndeclareKeyExpr(_, _) => UndeclareKeyExprRoundTrip(d, suffix);
    case DeclareEntity(_, _, _, _) => DeclareEntityRoundTrip(d, suffix);
    case UndeclareEntity(_, _, _, _) => UndeclareRoundTrip(d, suffix);
    case DeclareFinal(exts) => DeclareFinalRoundTrip(d, suffix);
  }

  lemma DeclareFinalRoundTrip(d: DeclareBody, suffix: bytes)
    requires d.DeclareFinal? && EncodableDecl(d)
    ensures DecodeDeclFields(DeclHeader(d), EncodedDeclFields(d) + suffix) == Ok(WireDecl(d), suffix)
  {
    ExtsIfRoundTrip(d.exts, suffix);
  }

  // ----- INTEREST -----

  function OptionsByte(f: InterestFilter, restriction: Option<WireExpr>): byte {
    Bit(f.keyExprs, 1) + Bit(f.subscribers, 2) + Bit(f.queryables, 4) + Bit(f.tokens, 8)
    + Bit(restriction.Some?, 16) + Bit(restriction.Some? && restriction.value.Named(), 32)
    + Bit(restriction.Some? && restriction.value.mapping, 64) + Bit(f.aggregate, 128)
  }

  function FilterOf(b: byte): InterestFilter {
    InterestFilter(b % 2 == 1, b / 2 % 2 == 1, b / 4 % 2 == 1, b / 8 % 2 == 1, b / 128 == 1)
  }

  lemma HalfOf(bit: bool, high: nat, b: nat)
    requires b == Bit(bit, 1) + 2 * high
    ensures b / 2 == high && (b % 2 == 1 <==> bit)
  {
  }

  /** Eight flags packed into a byte can be read off it one by one. */
  lemma EightFlags(f: bool, g: bool, h: bool, i: bool, j: bool, k: bool, l: bool, m: bool, b: nat)
    requires b == Bit(f, 1) + Bit(g, 2) + Bit(h, 4) + Bit(i, 8) + Bit(j, 16) + Bit(k, 32) + Bit(l, 64) + Bit(m, 128)
    ensures (b % 2 == 1 <==> f) && (b / 2 % 2 == 1 <==> g) && (b / 4 % 2 == 1 <==> h) && (b / 8 % 2 == 1 <==> i)
    ensures (b / 16 % 2 == 1 <==> j) && (b / 32 % 2 == 1 <==> k) && (b / 64 % 2 == 1 <==> l) && (b / 128 == 1 <==> m)
  {
    var b6 := Bit(l, 1) + 2 * Bit(m, 1);
    var b5 := Bit(k, 1) + 2 * b6;
    var b4 := Bit(j, 1) + 2 * b5;
    var b3 := Bit(i, 1) + 2 * b4;
    var b2 := Bit(h, 1) + 2 * b3;
    var b1 := Bit(g, 1) + 2 * b2;
    HalfOf(f, b1, b);
    HalfOf(g, b2, b1);
    HalfOf(h, b3, b2);
    HalfOf(i, b4, b3);
    HalfOf(j, b5, b4);
    HalfOf(k, b6, b5);
    HalfOf(l, Bit(m, 1), b6);
    assert b / 4 == b / 2 / 2;
    assert b / 8 == b / 4 / 2;
    assert b / 16 == b / 8 / 2;
    assert b / 32 == b / 16 / 2;
    assert b / 64 == b / 32 / 2;
    assert b / 128 == b / 64 / 2;
  }

  lemma OptionsRoundTrip(f: InterestFilter, k: Option<WireExpr>)
    ensures var b := OptionsByte(f, k);
            && FilterOf(b) == f
            && (b / 16 % 2 == 1 <==> k.Some?)
            && (b / 32 % 2 == 1 <==> k.Some? && k.value.Named())
            && (b / 64 % 2 == 1 <==> k.Some? && k.value.mapping)
  {
    EightFlags(f.keyExprs, f.subscribers, f.queryables, f.tokens, k.Some?, k.Some? && k.value.Named(),
               k.Some? && k.value.mapping, f.aggregate, OptionsByte(f, k));
  }

  /** What follows the interest id unless the mode is Final. */
  function EncodedOptions(m: Message): bytes
    requires m.Interest? && (m.restriction.Some? ==> EncodableExpr(m.restriction.value))
  {
    if m.mode.Final? then []
    else [OptionsByte(m.filter, m.restriction)]
         + (if m.restriction.Some? then EncodedExpr(m.restriction.value) else [])
  }

  function DecodeRestriction(opts: byte, s: bytes): (p: Parse<Option<WireExpr>>)
    ensures p.Ok? ==> |p.rest| <= |s|
  {
    if opts / 16 % 2 == 1 then
      var (k, rest) :- DecodeExpr(s, opts / 32 % 2 == 1, opts / 64 % 2 == 1);
      Ok(Some(k), rest)
    else Ok(None, s)
  }

  function DecodeOptions(mode: InterestMode, s: bytes): (p: Parse<(InterestFilter, Option<WireExpr>)>)
    ensures p.Ok? ==> |p.rest| <= |s|
  {
    if mode.Final? then Ok((NoFilter, None), s)
    else
      var (opts, rest) :- TakeByte(s);
      var (k, rest) :- DecodeRestriction(opts, rest);
      Ok((FilterOf(opts), k), rest)
  }

  lemma OptionsBlockRoundTrip(m: Message, suffix: bytes)
    requires m.Interest? && (m.restriction.Some? ==> EncodableExpr(m.restriction.value))
    ensures DecodeOptions(m.mode, EncodedOptions(m) + suffix)
         == Ok(if m.mode.Final? then (NoFilter, None) else (m.filter, m.restriction), suffix)
  {
    var opts := OptionsByte(m.filter, m.restriction);
    OptionsRoundTrip(m.filter, m.restriction);
    if m.mode.Final? {
      assert EncodedOptions(m) + suffix == suffix;
    } else {
      var k := if m.restriction.Some? then EncodedExpr(m.restriction.value) else [];
      Fields2([opts], k, suffix);
      if m.restriction.Some? {
        ExprRoundTrip(m.restriction.value, suffix);
      } else {
        assert k + suffix == suffix;
      }
    }
  }

  // ----- whole messages -----

  function MessageHeader(m: Message): Header {
    match m
    case Push(ke, exts, _) => Header(IdPush, ke.Named(), ke.mapping, |exts| > 0)
    case Request(_, ke, exts, _) => Header(IdRequest, ke.Named(), ke.mapping, |exts| > 0)
    case Response(_, ke, exts, _) => Header(IdResponse, ke.Named(), ke.mapping, |exts| > 0)
    case ResponseFinal(_, exts) => Header(IdResponseFinal, false, false, |exts| > 0)
    case Declare(interestId, exts, _) => Header(IdDeclare, interestId.Some?, false, |exts| > 0)
    case Interest(_, mode, _, _, exts) =>
      Header(IdInterest, mode.Current? || mode.CurrentFuture?, mode.Future? || mode.CurrentFuture?, |exts| > 0)
  }

  predicate Encodable(m: Message) {
    EncodableExts(m.exts) &&
    match m
    case Push(ke, _, data) => EncodableExpr(ke) && EncodablePush(data)
    case Request(_, ke, _, query) => EncodableExpr(ke) && EncodableQuery(query)
    case Response(_, ke, _, answer) => EncodableExpr(ke) && EncodableAnswer(answer)
    case ResponseFinal(_, _) => true
    case Declare(_, _, decl) => EncodableDecl(decl)
    case Interest(_, mode, _, k, _) => !mode.Final? && k.Some? ==> EncodableExpr(k.value)
  }

  function OptZ32(v: Option<uint32>): bytes {
    match v case None => [] case Some(id) => Vle.Encoded(id)
  }

  function DecodeZ32If(present: bool, s: bytes): (p: Parse<Option<uint32>>)
    ensures p.Ok? ==> |p.rest| <= |s|
  {
    if present then
      var (v, rest) :- Vle.DecodeZ32(s);
      Ok(Some(v), rest)
    else Ok(None, s)
  }

  lemma Z32IfRoundTrip(v: Option<uint32>, suffix: bytes)
    ensures DecodeZ32If(v.Some?, OptZ32(v) + suffix) == Ok(v, suffix)
  {
    match v
    case None => assert OptZ32(v) + suffix == suffix;
    case Some(id) => Vle.NarrowDecoders(id, suffix);
  }

  /** The bytes after the header byte. */
  function EncodedFields(m: Message): bytes
    requires Encodable(m)
  {
    match m
    case Push(ke, exts, data) => EncodedExpr(ke) + EncodedExts(exts) + EncodedPush(data)
    case Request(id, ke, exts, query) =>
      Vle.Encoded(id) + EncodedExpr(ke) + EncodedExts(exts) + EncodedQuery(query)
    case Response(id, ke, exts, answer) =>
      Vle.Encoded(id) + EncodedExpr(ke) + EncodedExts(exts) + EncodedAnswer(answer)
    case ResponseFinal(id, exts) => Vle.Encoded(id) + EncodedExts(exts)
    case Declare(interestId, exts, decl) => OptZ32(interestId) + EncodedExts(exts) + EncodedDecl(decl)
    case Interest(id, _, _, _, exts) =>
      Vle.Encoded(id) + (if m.mode.Final? then [] else EncodedOptions(m)) + EncodedExts(exts)
  }

  function Encoded(m: Message): (s: bytes)
    requires Encodable(m)
    ensures |s| > 0
  {
    [PackHeader(MessageHeader(m))] + EncodedFields(m)
  }

  function DecodePush(h: Header, s: bytes): (p: Parse<Message>)
    ensures p.Ok? ==> |p.rest| < |s|
  {
    var (ke, rest) :- DecodeExpr(s, h.f1, h.f2);
    var (exts, rest) :- DecodeExtsIf(h.z, rest);
    var (data, rest) :- DecodePushBody(rest);
    Ok(Push(ke, exts, data), rest)
  }

  function DecodeRequest(h: Header, s: bytes): (p: Parse<Message>)
    ensures p.Ok? ==> |p.rest| < |s|
  {
    var (id, rest) :- Vle.DecodeZ32(s);
    var (ke, rest) :- DecodeExpr(rest, h.f1, h.f2);
    var (exts, rest) :- DecodeExtsIf(h.z, rest);
    var (query, rest) :- DecodeQueryBody(rest);
    Ok(Request(id, ke, exts, query), rest)
  }

  function DecodeResponse(h: Header, s: bytes): (p: Parse<Message>)
    ensures p.Ok? ==> |p.rest| < |s|
  {
    var (id, rest) :- Vle.DecodeZ32(s);
    var (ke, rest) :- DecodeExpr(rest, h.f1, h.f2);
    var (exts, rest) :- DecodeExtsIf(h.z, rest);
    var (answer, rest) :- DecodeAnswer(rest);
    Ok(Response(id, ke, exts, answer), rest)
  }

  function DecodeResponseFinal(h: Header, s: bytes): (p: Parse<Message>)
    ensures p.Ok? ==> |p.rest| < |s|
  {
    var (id, rest) :- Vle.DecodeZ32(s);
    var (exts, rest) :- DecodeExtsIf(h.z, rest);
    Ok(ResponseFinal(id, exts), rest)
  }

  function DecodeDeclare(h: Header, s: bytes): (p: Parse<Message>)
    ensures p.Ok? ==> |p.rest| < |s|
  {
    var (interestId, rest) :- DecodeZ32If(h.f1, s);
    var (exts, rest) :- DecodeExtsIf(h.z, rest);
    var (decl, rest) :- DecodeDecl(rest);
    Ok(Declare(interestId, exts, decl), rest)
  }

  function ModeOf(h: Header): InterestMode {
    if h.f1 then (if h.f2 then CurrentFuture else Current) else (if h.f2 then Future else Final)
  }

  function DecodeInterest(h: Header, s: bytes): (p: Parse<Message>)
    ensures p.Ok? ==> |p.rest| < |s|
  {
    var (id, rest) :- Vle.DecodeZ32(s);
    var ((filter, k), rest) :- DecodeOptions(ModeOf(h), rest);
    var (exts, rest) :- DecodeExtsIf(h.z, rest);
    Ok(Interest(id, ModeOf(h), filter, k, exts), rest)
  }

  /** The message that a decoded header announces. */
  function Decode(h: Header, s: bytes): (p: Parse<Message>)
    ensures p.Ok? ==> |p.rest| < |s|
  {
    if h.id == IdPush then DecodePush(h, s)
    else if h.id == IdRequest then DecodeRequest(h, s)
    else if h.id == IdResponse then DecodeResponse(h, s)
    else if h.id == IdResponseFinal then DecodeResponseFinal(h, s)
    else if h.id == IdDeclare then DecodeDeclare(h, s)
    else if h.id == IdInterest then DecodeInterest(h, s)
    else Bad(UnexpectedId)
  }

  /** The message as it arrives: More flags recomputed, ids cut to four bits,
      and the fields that the mode leaves out of an INTEREST at their defaults. */
  function OnWire(m: Message): Message {
    var exts := WireExts(m.exts);
    match m
    case Push(ke, _, data) => Push(ke, exts, WirePush(data))
    case Request(id, ke, _, query) => Request(id, ke, exts, query.(exts := WireExts(query.exts)))
    case Response(id, ke, _, answer) => Response(id, ke, exts, WireAnswer(answer))
    case ResponseFinal(id, _) => ResponseFinal(id, exts)
    case Declare(interestId, _, decl) => Declare(interestId, exts, WireDecl(decl))
    case Interest(id, mode, filter, k, _) =>
      if mode.Final? then Interest(id, mode, NoFilter, None, exts) else Interest(id, mode, filter, k, exts)
  }

  predicate Unambiguous(m: Message) {
    m.Declare? ==> NoStrayKeyExt(m.decl)
  }

  /** Request id, key and extensions in front of a REQUEST or RESPONSE body. */
  lemma KeyedFields(id: uint32, ke: WireExpr, exts: Exts, tail: bytes)
    requires EncodableExpr(ke) && EncodableExts(exts)
    ensures var x := EncodedExts(exts) + tail;
            && Vle.DecodeZ32(Vle.Encoded(id) + (EncodedExpr(ke) + x)) == Ok(id, EncodedExpr(ke) + x)
            && DecodeExpr(EncodedExpr(ke) + x, ke.Named(), ke.mapping) == Ok(ke, x)
            && DecodeExtsIf(|exts| > 0, x) == Ok(WireExts(exts), tail)
  {
    Vle.NarrowDecoders(id, EncodedExpr(ke) + (EncodedExts(exts) + tail));
    ExprRoundTrip(ke, EncodedExts(exts) + tail);
    ExtsIfRoundTrip(exts, tail);
  }

  lemma DeclareRoundTrip(m: Message, suffix: bytes)
    requires m.Declare? && Encodable(m)
    ensures DecodeDeclare(MessageHeader(m), EncodedFields(m) + suffix) == Ok(OnWire(m), suffix) <==> Unambiguous(m)
  {
    hide Vle.Encoded, PackHeader, UnpackHeader;
    var i, x, d := OptZ32(m.interestId), EncodedExts(m.exts), EncodedDecl(m.decl);
    Fields3(i, x, d, suffix);
    Z32IfRoundTrip(m.interestId, x + (d + suffix));
    ExtsIfRoundTrip(m.exts, d + suffix);
    DeclRoundTrip(m.decl, suffix);
  }

  lemma InterestRoundTrip(m: Message, suffix: bytes)
    requires m.Interest? && Encodable(m)
    ensures DecodeInterest(MessageHeader(m), EncodedFields(m) + suffix) == Ok(OnWire(m), suffix)
  {
    hide Vle.Encoded, EncodedExts, DecodeExtsIf, DecodeOptions, Vle.DecodeZ32, EncodedExpr, OptionsByte;
    var bare := if m.mode.Final? then m.(restriction := None) else m;
    var n, o, x := Vle.Encoded(m.id), EncodedOptions(bare), EncodedExts(m.exts);
    Fields3(n, o, x, suffix);
    Vle.NarrowDecoders(m.id, o + (x + suffix));
    OptionsBlockRoundTrip(bare, x + suffix);
    ExtsIfRoundTrip(m.exts, suffix);
  }

  lemma PushMessageRoundTrip(m: Message, suffix: bytes)
    requires m.Push? && Encodable(m)
    ensures DecodePush(MessageHeader(m), EncodedFields(m) + suffix) == Ok(OnWire(m), suffix)
  {
    var b := EncodedPush(m.data);
    Fields3(EncodedExpr(m.ke), EncodedExts(m.exts), b, suffix);
    KeyedFields(0, m.ke, m.exts, b + suffix);
    PushRoundTrip(m.data, suffix);
  }

  lemma RequestRoundTrip(m: Message, suffix: bytes)
    requires m.Request? && Encodable(m)
    ensures DecodeRequest(MessageHeader(m), EncodedFields(m) + suffix) == Ok(OnWire(m), suffix)
  {
    var b := EncodedQuery(m.query);
    Fields4(Vle.Encoded(m.requestId), EncodedExpr(m.ke), EncodedExts(m.exts), b, suffix);
    KeyedFields(m.requestId, m.ke, m.exts, b + suffix);
    QueryRoundTrip(m.query, suffix);
  }

  lemma ResponseRoundTrip(m: Message, suffix: bytes)
    requires m.Response? && Encodable(m)
    ensures DecodeResponse(MessageHeader(m), EncodedFields(m) + suffix) == Ok(OnWire(m), suffix)
  {
    var b := EncodedAnswer(m.answer);
    Fields4(Vle.Encoded(m.requestId), EncodedExpr(m.ke), EncodedExts(m.exts), b, suffix);
    KeyedFields(m.requestId, m.ke, m.exts, b + suffix);
    AnswerRoundTrip(m.answer, suffix);
  }

  lemma ResponseFinalRoundTrip(m: Message, suffix: bytes)
    requires m.ResponseFinal? && Encodable(m)
    ensures DecodeResponseFinal(MessageHeader(m), EncodedFields(m) + suffix) == Ok(OnWire(m), suffix)
  {
    Fields2(Vle.Encoded(m.requestId), EncodedExts(m.exts), suffix);
    Vle.NarrowDecoders(m.requestId, EncodedExts(m.exts) + suffix);
    ExtsIfRoundTrip(m.exts, suffix);
  }

  lemma FieldsRoundTrip(m: Message, suffix: bytes)
    requires Encodable(m)
    ensures Decode(MessageHeader(m), EncodedFields(m) + suffix) == Ok(OnWire(m), suffix) <==> Unambiguous(m)
  {
    hide EncodedFields, DecodePush, DecodeRequest, DecodeResponse, DecodeResponseFinal, DecodeDeclare,
         DecodeInterest, OnWire;
    match m
    case Push(_, _, _) => PushMessageRoundTrip(m, suffix);
    case Request(_, _, _, _) => RequestRoundTrip(m, suffix);
    case Response(_, _, _, _) => ResponseRoundTrip(m, suffix);
    case ResponseFinal(_, _) => ResponseFinalRoundTrip(m, suffix);
    case Declare(_, _, _) => DeclareRoundTrip(m, suffix);
    case Interest(_, _, _, _, _) => InterestRoundTrip(m, suffix);
  }

  function DecodeMessage(s: bytes): (p: Parse<Message>)
    ensures p.Ok? ==> |p.rest| < |s|
  {
    var (h, rest) :- DecodeHeader(s);
    Decode(h, rest)
  }

  lemma MessageInFront(m: Message, suffix: bytes)
    requires Encodable(m)
    ensures DecodeHeader(Encoded(m) + suffix) == Ok(MessageHeader(m), EncodedFields(m) + suffix)
    ensures IsNetworkId(MessageHeader(m).id) && MessageHeader(m).id != IdNetworkOam
  {
    hide PackHeader, EncodedFields;
    Fields2([PackHeader(MessageHeader(m))], EncodedFields(m), suffix);
    HeaderInFront(MessageHeader(m), EncodedFields(m) + suffix);
  }

  /** Every network message is self-delimiting: put before any suffix, it decodes
      to itself (as it arrives on the wire) and leaves exactly that suffix. The one
      exception is an undeclaration that carries a second WireExpr extension. */
  lemma SelfDelimiting(m: Message, suffix: bytes)
    requires Encodable(m)
    ensures DecodeMessage(Encoded(m) + suffix) == Ok(OnWire(m), suffix) <==> Unambiguous(m)
  {
    MessageInFront(m, suffix);
    FieldsRoundTrip(m, suffix);
  }
}
