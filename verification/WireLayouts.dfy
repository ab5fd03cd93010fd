/**
 The byte layouts of the remaining messages, with the ids and flag bits as the wire has
 them and all fields variable (internal/wire: push.go, data.go, request.go, response.go,
 declare.go, interest.go, frame.go, fragment.go, open.go; internal/codec/ext.go). A round
 trip alone would also hold with two ids exchanged or two fields permuted; these do not.
 */
module WireLayouts {
  import opened Wrappers
  import opened Buffer
  import opened Extensions
  import opened WireTypes
  import opened TransportMessages
  import opened NM = NetworkMessages
  import Vle

  /** A header byte: the id, the two flags of the message, and whether extensions follow. */
  function HeaderByte(id: nat, f1: bool, f2: bool, exts: Exts): nat {
    id + (if f1 then 0x20 else 0) + (if f2 then 0x40 else 0) + (if exts != [] then 0x80 else 0)
  }

  function WithLength(b: bytes): bytes {
    if |b| < U32 then Vle.Encoded(|b|) + b else b
  }

  lemma HeaderIs(id: byte, f1: bool, f2: bool, exts: Exts)
    requires id < 32
    ensures PackHeader(Header(id, f1, f2, |exts| > 0)) == HeaderByte(id, f1, f2, exts)
  {
  }

  // ----- fields -----

  lemma KeyBytes(k: WireExpr)
    requires EncodableExpr(k)
    ensures EncodedExpr(k) == Vle.Encoded(k.scope) + if k.suffix == [] then [] else WithLength(k.suffix)
  {
  }

  lemma TimestampBytes(t: Timestamp)
    requires EncodableTs(Some(t))
    ensures EncodedTs(Some(t)) == Vle.Encoded(t.ntp64) + WithLength(t.zid)
  {
  }

  lemma EncodingBytes(e: Encoding)
    requires EncodableEnc(Some(e))
    ensures e.schema == [] ==> EncodedEnc(Some(e)) == Vle.Encoded(2 * e.id)
    ensures e.schema != [] ==> EncodedEnc(Some(e)) == Vle.Encoded(2 * e.id + 1) + WithLength(e.schema)
  {
  }

  /** Id, M flag, encoding and More flag share the header of an extension. */
  lemma ExtensionBytes(id: byte, mandatory: bool, more: bool, v: uint64, data: bytes)
    requires id < 16 && |data| < U32
    ensures var h := id + (if mandatory then 0x10 else 0) + (if more then 0x80 else 0);
            && EncodedExt(Extension(id, mandatory, more, Unit)) == [h]
            && EncodedExt(Extension(id, mandatory, more, Z64(v))) == [h + 0x20] + Vle.Encoded(v)
            && EncodedExt(Extension(id, mandatory, more, ZBuf(data))) == [h + 0x40] + WithLength(data)
  {
  }

  // ----- transport messages -----

  lemma FrameBytes(f: Frame)
    requires EncodableExts(f.exts)
    ensures EncodedFrame(f)
         == [HeaderByte(0x05, f.reliable, false, f.exts)] + Vle.Encoded(f.sn) + EncodedExts(f.exts)
  {
    hide PackHeader, HeaderByte, Vle.Encoded, EncodedExts;
    HeaderIs(0x05, f.reliable, false, f.exts);
  }

  lemma FragmentBytes(f: Fragment)
    requires EncodableExts(f.exts)
    ensures EncodedFragment(f)
         == [HeaderByte(0x06, f.reliable, f.more, f.exts)] + Vle.Encoded(f.sn) + EncodedExts(f.exts) + f.body
  {
    hide PackHeader, HeaderByte, Vle.Encoded, EncodedExts;
    HeaderIs(0x06, f.reliable, f.more, f.exts);
  }

  /** An OPEN SYN carries the cookie, an OPEN ACK does not. */
  lemma OpenBytes(m: Open)
    requires EncodableOpen(m)
    ensures EncodedOpen(m)
         == [HeaderByte(0x02, m.ack, m.leaseSeconds, m.exts)]
            + (Vle.Encoded(m.lease) + Vle.Encoded(m.initialSn) + (if m.ack then [] else WithLength(m.cookie))
               + EncodedExts(m.exts))
  {
    hide PackHeader, HeaderByte, Vle.Encoded, EncodedExts;
    HeaderIs(0x02, m.ack, m.leaseSeconds, m.exts);
  }

  // ----- network messages -----

  lemma PushBytes(ke: WireExpr, exts: Exts, data: PushBody)
    requires NM.Encodable(Push(ke, exts, data))
    ensures NM.Encoded(Push(ke, exts, data))
         == [HeaderByte(0x1D, ke.suffix != [], ke.mapping, exts)]
            + (EncodedExpr(ke) + EncodedExts(exts) + EncodedPush(data))
  {
    hide PackHeader, HeaderByte, Vle.Encoded, EncodedExts, EncodedExpr, EncodedPush, EncodablePush;
    HeaderIs(0x1D, ke.suffix != [], ke.mapping, exts);
  }

  lemma RequestBytes(id: uint32, ke: WireExpr, exts: Exts, query: QueryBody)
    requires NM.Encodable(Request(id, ke, exts, query))
    ensures NM.Encoded(Request(id, ke, exts, query))
         == [HeaderByte(0x1C, ke.suffix != [], ke.mapping, exts)]
            + (Vle.Encoded(id) + EncodedExpr(ke) + EncodedExts(exts) + EncodedQuery(query))
  {
    hide PackHeader, HeaderByte, Vle.Encoded, EncodedExts, EncodedExpr, EncodedQuery, EncodableQuery;
    HeaderIs(0x1C, ke.suffix != [], ke.mapping, exts);
  }

  lemma ResponseBytes(id: uint32, ke: WireExpr, exts: Exts, answer: ResponseBody)
    requires NM.Encodable(Response(id, ke, exts, answer))
    ensures NM.Encoded(Response(id, ke, exts, answer))
         == [HeaderByte(0x1B, ke.suffix != [], ke.mapping, exts)]
            + (Vle.Encoded(id) + EncodedExpr(ke) + EncodedExts(exts) + EncodedAnswer(answer))
  {
    hide PackHeader, HeaderByte, Vle.Encoded, EncodedExts, EncodedExpr, EncodedAnswer, EncodableAnswer;
    HeaderIs(0x1B, ke.suffix != [], ke.mapping, exts);
  }

  lemma ResponseFinalBytes(id: uint32, exts: Exts)
    requires EncodableExts(exts)
    ensures NM.Encoded(ResponseFinal(id, exts))
         == [HeaderByte(0x1A, false, false, exts)] + (Vle.Encoded(id) + EncodedExts(exts))
  {
    hide PackHeader, HeaderByte, Vle.Encoded, EncodedExts, EncodedExpr;
    HeaderIs(0x1A, false, false, exts);
  }

  lemma DeclareBytes(id: Option<uint32>, exts: Exts, decl: DeclareBody)
    requires NM.Encodable(Declare(id, exts, decl))
    ensures NM.Encoded(Declare(id, exts, decl))
         == [HeaderByte(0x1E, id.Some?, false, exts)]
            + ((if id.Some? then Vle.Encoded(id.value) else []) + EncodedExts(exts) + EncodedDecl(decl))
  {
    hide PackHeader, HeaderByte, Vle.Encoded, EncodedExts, EncodedExpr, EncodedDecl, EncodableDecl;
    HeaderIs(0x1E, id.Some?, false, exts);
  }

  function Options(f: InterestFilter, k: Option<WireExpr>): nat {
    (if f.keyExprs then 0x01 else 0) + (if f.subscribers then 0x02 else 0)
    + (if f.queryables then 0x04 else 0) + (if f.tokens then 0x08 else 0)
    + (if k.Some? then 0x10 else 0) + (if k.Some? && k.value.suffix != [] then 0x20 else 0)
    + (if k.Some? && k.value.mapping then 0x40 else 0) + (if f.aggregate then 0x80 else 0)
  }

  /** The mode is in the header; the options byte and the restriction are left out for a
      Final INTEREST. */
  lemma InterestBytes(id: uint32, mode: InterestMode, f: InterestFilter, k: Option<WireExpr>, exts: Exts)
    requires NM.Encodable(Interest(id, mode, f, k, exts))
    ensures NM.Encoded(Interest(id, mode, f, k, exts))
         == [HeaderByte(0x19, mode in {Current, CurrentFuture}, mode in {Future, CurrentFuture}, exts)]
            + (Vle.Encoded(id)
               + (if mode.Final? then [] else [Options(f, k)] + (if k.Some? then EncodedExpr(k.value) else []))
               + EncodedExts(exts))
  {
    hide PackHeader, HeaderByte, Vle.Encoded, EncodedExts, EncodedExpr;
    HeaderIs(0x19, mode in {Current, CurrentFuture}, mode in {Future, CurrentFuture}, exts);
  }

  // ----- what PUSH, REQUEST, RESPONSE and DECLARE carry -----

  lemma PutBytes(ts: Option<Timestamp>, encoding: Option<Encoding>, exts: Exts, payload: bytes)
    requires EncodablePush(Put(ts, encoding, exts, payload))
    ensures EncodedPush(Put(ts, encoding, exts, payload))
         == [HeaderByte(0x01, ts.Some?, encoding.Some?, exts)]
            + EncodedTs(ts) + EncodedEnc(encoding) + EncodedExts(exts) + WithLength(payload)
  {
    hide PackHeader, HeaderByte, Vle.Encoded, EncodedExts, EncodedExpr, EncodedTs, EncodedEnc;
    HeaderIs(0x01, ts.Some?, encoding.Some?, exts);
  }

  lemma DelBytes(ts: Option<Timestamp>, exts: Exts)
    requires EncodablePush(Del(ts, exts))
    ensures EncodedPush(Del(ts, exts)) == [HeaderByte(0x02, ts.Some?, false, exts)] + EncodedTs(ts) + EncodedExts(exts)
  {
    hide PackHeader, HeaderByte, Vle.Encoded, EncodedExts, EncodedExpr, EncodedTs;
    HeaderIs(0x02, ts.Some?, false, exts);
  }

  lemma QueryBytes(q: QueryBody)
    requires EncodableQuery(q)
    ensures EncodedQuery(q)
         == [HeaderByte(0x03, q.consolidation.Some?, q.parameters != [], q.exts)]
            + (if q.consolidation.Some? then [q.consolidation.value] else [])
            + (if q.parameters == [] then [] else WithLength(q.parameters)) + EncodedExts(q.exts)
  {
    hide PackHeader, HeaderByte, Vle.Encoded, EncodedExts, EncodedExpr;
    HeaderIs(0x03, q.consolidation.Some?, q.parameters != [], q.exts);
  }

  lemma ReplyBytes(consolidation: Option<byte>, exts: Exts, inner: PushBody)
    requires EncodableAnswer(Reply(consolidation, exts, inner))
    ensures EncodedAnswer(Reply(consolidation, exts, inner))
         == [HeaderByte(0x04, consolidation.Some?, false, exts)]
            + (if consolidation.Some? then [consolidation.value] else []) + EncodedExts(exts) + EncodedPush(inner)
  {
    hide PackHeader, HeaderByte, Vle.Encoded, EncodedExts, EncodedExpr, EncodedPush, EncodablePush;
    HeaderIs(0x04, consolidation.Some?, false, exts);
  }

  lemma ErrBytes(encoding: Option<Encoding>, exts: Exts, payload: bytes)
    requires EncodableAnswer(Err(encoding, exts, payload))
    ensures EncodedAnswer(Err(encoding, exts, payload))
         == [HeaderByte(0x05, false, encoding.Some?, exts)]
            + EncodedEnc(encoding) + EncodedExts(exts) + WithLength(payload)
  {
    hide PackHeader, HeaderByte, Vle.Encoded, EncodedExts, EncodedExpr, EncodedEnc;
    HeaderIs(0x05, false, encoding.Some?, exts);
  }

  /** Declarations have even ids, their undeclarations the next odd one; an undeclaration
      names its key in a mandatory extension in front of all others. */
  lemma DeclBytes(d: DeclareBody)
    requires EncodableDecl(d)
    ensures EncodedDecl(d) ==
            match d
            case DeclareKeyExpr(id, scope, suffix, exts) =>
              [HeaderByte(0x00, suffix != [], false, exts)]
              + (Vle.Encoded(id) + Vle.Encoded(scope) + (if suffix == [] then [] else WithLength(suffix))
                 + EncodedExts(exts))
            case UndeclareKeyExpr(id, exts) =>
              [HeaderByte(0x01, false, false, exts)] + (Vle.Encoded(id) + EncodedExts(exts))
            case DeclareEntity(kind, id, ke, exts) =>
              [HeaderByte(match kind case Subscriber => 0x02 case Queryable => 0x04 case Token => 0x06,
                          ke.suffix != [], ke.mapping, exts)]
              + (Vle.Encoded(id) + EncodedExpr(ke) + EncodedExts(exts))
            case UndeclareEntity(kind, id, ke, exts) =>
              [0x80 + match kind case Subscriber => 0x03 case Queryable => 0x05 case Token => 0x07]
              + (Vle.Encoded(id) + EncodedExts([KeyExt(ke)] + exts))
            case DeclareFinal(exts) => [HeaderByte(0x1A, false, false, exts)] + EncodedExts(exts)
  {
    hide PackHeader, HeaderByte, Vle.Encoded, EncodedExts, EncodedExpr, KeyExt;
    match d
    case DeclareKeyExpr(_, _, suffix, exts) => HeaderIs(0x00, suffix != [], false, exts);
    case UndeclareKeyExpr(_, exts) => HeaderIs(0x01, false, false, exts);
    case DeclareEntity(kind, _, ke, exts) => HeaderIs(DeclareId(kind), ke.suffix != [], ke.mapping, exts);
    case UndeclareEntity(kind, _, ke, exts) => UndeclareHeaderIs(kind);
    case DeclareFinal(exts) => HeaderIs(0x1A, false, false, exts);
  }

  lemma UndeclareHeaderIs(kind: EntityKind)
    ensures PackHeader(Header(UndeclareId(kind), false, false, true))
         == 0x80 + match kind case Subscriber => 0x03 case Queryable => 0x05 case Token => 0x07
  {
  }

  lemma KeyExtensionBytes(k: WireExpr)
    ensures KeyExt(k) == Extension(0x0F, true, false,
                                   ZBuf([(if k.suffix != [] then 0x01 else 0) + (if k.mapping then 0x02 else 0)]
                                        + Vle.Encoded(k.scope) + k.suffix))
  {
  }
}
