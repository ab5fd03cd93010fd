/**
 Transport messages (internal/wire: frame.go, fragment.go, keepalive.go, close.go,
 init.go, open.go, zid.go) and the lane a message travels on.
 */
module TransportMessages {
  import opened Wrappers
  import opened Buffer
  import opened Extensions
  import opened WireTypes
  import Vle

  type Exts = seq<Extension>

  // ----- lanes -----

  /** One of the sixteen lanes: eight priorities, each reliable or best-effort. */
  datatype LaneKey = LaneKey(priority: Priority, reliable: bool)

  function LaneExts(attachQoS: bool, p: Priority): Exts {
    if attachQoS then [NewZ64Ext(ExtIdQoS, true, EncodeQoS(QoS(p, false, false, false)))] else []
  }

  function LanePriority(exts: Exts): Priority {
    match FindExt(exts, ExtIdQoS)
    case Some(Extension(_, _, _, Z64(v))) => DecodeQoS(v).priority
    case _ => PriorityData
  }

  /** The receiver keys a lane by what the sender attached, or by Data if nothing was. */
  lemma LaneOfExts(attachQoS: bool, p: Priority)
    ensures LanePriority(WireExts(LaneExts(attachQoS, p))) == if attachQoS then p else PriorityData
    ensures EncodableExts(LaneExts(attachQoS, p))
    ensures |EncodedExts(LaneExts(attachQoS, p))| == if attachQoS then 2 else 0
  {
    QoSRoundTrip(QoS(p, false, false, false));
    if attachQoS {
      var e := NewZ64Ext(ExtIdQoS, true, p);
      assert WireExts([e]) == [e];
      assert EncodedExts([e]) == EncodedExt(e) + [];
      Vle.CapacityIsU64();
      assert Vle.Encoded(p) == [p];
    }
  }

  // ----- FRAME and FRAGMENT -----

  datatype Frame = Frame(reliable: bool, sn: uint64, exts: Exts)

  datatype Fragment = Fragment(reliable: bool, more: bool, sn: uint64, exts: Exts, body: bytes)

  function FrameHeader(f: Frame): Header {
    Header(IdFrame, f.reliable, false, |f.exts| > 0)
  }

  /** A FRAME up to its body: header, sequence number, extensions. */
  function EncodedFrame(f: Frame): (s: bytes)
    requires EncodableExts(f.exts)
    ensures |s| > 0
  {
    [PackHeader(FrameHeader(f))] + Vle.Encoded(f.sn) + EncodedExts(f.exts)
  }

  function DecodeFrame(h: Header, s: bytes): (p: Parse<Frame>)
    ensures p.Ok? ==> |p.rest| < |s|
  {
    var (sn, rest) :- Vle.DecodeZ64(s);
    var (exts, rest) :- DecodeExtsIf(h.z, rest);
    Ok(Frame(h.f1, sn, exts), rest)
  }

  lemma FrameRoundTrip(f: Frame, body: bytes)
    requires EncodableExts(f.exts)
    ensures DecodeHeader(EncodedFrame(f) + body) == Ok(FrameHeader(f), Vle.Encoded(f.sn) + (EncodedExts(f.exts) + body))
    ensures DecodeFrame(FrameHeader(f), Vle.Encoded(f.sn) + (EncodedExts(f.exts) + body))
         == Ok(f.(exts := WireExts(f.exts)), body)
  {
    hide PackHeader;
    var n, x := Vle.Encoded(f.sn), EncodedExts(f.exts);
    Fields3([PackHeader(FrameHeader(f))], n, x, body);
    HeaderInFront(FrameHeader(f), n + (x + body));
    Vle.Z64RoundTrip(f.sn, x + body);
    ExtsIfRoundTrip(f.exts, body);
  }

  function FragmentHeader(f: Fragment): Header {
    Header(IdFragment, f.reliable, f.more, |f.exts| > 0)
  }

  function EncodedFragment(f: Fragment): (s: bytes)
    requires EncodableExts(f.exts)
    ensures |s| > 0
  {
    [PackHeader(FragmentHeader(f))] + Vle.Encoded(f.sn) + EncodedExts(f.exts) + f.body
  }

  /** The body of a FRAGMENT runs to the end of the batch. */
  function DecodeFragment(h: Header, s: bytes): (p: Parse<Fragment>)
    ensures p.Ok? ==> p.rest == []
  {
    var (sn, rest) :- Vle.DecodeZ64(s);
    var (exts, rest) :- DecodeExtsIf(h.z, rest);
    Ok(Fragment(h.f1, h.f2, sn, exts, rest), [])
  }

  lemma FragmentRoundTrip(f: Fragment)
    requires EncodableExts(f.exts)
    ensures DecodeHeader(EncodedFragment(f))
         == Ok(FragmentHeader(f), Vle.Encoded(f.sn) + (EncodedExts(f.exts) + f.body))
    ensures DecodeFragment(FragmentHeader(f), Vle.Encoded(f.sn) + (EncodedExts(f.exts) + f.body))
         == Ok(f.(exts := WireExts(f.exts)), [])
  {
    hide PackHeader;
    var n, x := Vle.Encoded(f.sn), EncodedExts(f.exts);
    Fields3([PackHeader(FragmentHeader(f))], n, x, f.body);
    HeaderInFront(FragmentHeader(f), n + (x + f.body));
    Vle.Z64RoundTrip(f.sn, x + f.body);
    ExtsIfRoundTrip(f.exts, f.body);
  }

  method WriteFrame(w: Writer, f: Frame) returns (ok: bool)
    modifies w
    ensures ok <==> EncodableExts(f.exts)
    ensures ok ==> w.buf == old(w.buf) + EncodedFrame(f)
  {
    hide PackHeader, Vle.Encoded, EncodedExts;
    EncodeHeader(w, FrameHeader(f));
    Vle.EncodeZ64(w, f.sn);
    ok := true;
    if |f.exts| > 0 {
      ok := EncodeExtensions(w, f.exts);
    } else {
      NoExts();
    }
  }

  lemma NoExts()
    ensures EncodedExts([]) == []
  {
  }

  method WriteFragment(w: Writer, f: Fragment) returns (ok: bool)
    modifies w
    ensures ok <==> EncodableExts(f.exts)
    ensures ok ==> w.buf == old(w.buf) + EncodedFragment(f)
  {
    hide PackHeader, Vle.Encoded, EncodedExts;
    EncodeHeader(w, FragmentHeader(f));
    Vle.EncodeZ64(w, f.sn);
    if |f.exts| > 0 {
      ok := EncodeExtensions(w, f.exts);
      if !ok { return; }
    } else {
      NoExts();
    }
    w.AppendBytes(f.body);
    ok := true;
  }

  method ReadFrame(r: Reader, h: Header) returns (res: Result<Frame, CodecError>)
    requires r.Valid()
    modifies r
    ensures r.Agrees(res, DecodeFrame(h, old(r.Rest())))
  {
    var sn :- Vle.DecodeVle(r, Vle.MaxZ64Bytes);
    Vle.CapacityIsU64();
    var exts :- ReadExtensionsIf(r, h.z);
    res := Success(Frame(h.f1, sn, exts));
  }

  method ReadFragment(r: Reader, h: Header) returns (res: Result<Fragment, CodecError>)
    requires r.Valid()
    modifies r
    ensures r.Agrees(res, DecodeFragment(h, old(r.Rest())))
  {
    var sn :- Vle.DecodeVle(r, Vle.MaxZ64Bytes);
    Vle.CapacityIsU64();
    var exts :- ReadExtensionsIf(r, h.z);
    var body := r.Rest();
    r.SkipRest();
    res := Success(Fragment(h.f1, h.f2, sn, exts, body));
  }

  // ----- KEEPALIVE and CLOSE -----

  function KeepAliveHeader(exts: Exts): Header {
    Header(IdKeepAlive, false, false, |exts| > 0)
  }

  function EncodedKeepAlive(exts: Exts): (s: bytes)
    requires EncodableExts(exts)
    ensures |s| > 0
  {
    [PackHeader(KeepAliveHeader(exts))] + EncodedExts(exts)
  }

  lemma KeepAliveRoundTrip(exts: Exts, suffix: bytes)
    requires EncodableExts(exts)
    ensures DecodeHeader(EncodedKeepAlive(exts) + suffix) == Ok(KeepAliveHeader(exts), EncodedExts(exts) + suffix)
    ensures DecodeExtsIf(|exts| > 0, EncodedExts(exts) + suffix) == Ok(WireExts(exts), suffix)
  {
    hide PackHeader;
    Fields2([PackHeader(KeepAliveHeader(exts))], EncodedExts(exts), suffix);
    HeaderInFront(KeepAliveHeader(exts), EncodedExts(exts) + suffix);
    ExtsIfRoundTrip(exts, suffix);
  }

  function CloseHeader(session: bool, exts: Exts): Header {
    Header(IdClose, session, false, |exts| > 0)
  }

  function EncodedClose(session: bool, reason: byte, exts: Exts): (s: bytes)
    requires EncodableExts(exts)
    ensures |s| > 0
  {
    [PackHeader(CloseHeader(session, exts))] + ([reason] + EncodedExts(exts))
  }

  lemma CloseRoundTrip(session: bool, reason: byte, exts: Exts, suffix: bytes)
    requires EncodableExts(exts)
    ensures var fields := [reason] + (EncodedExts(exts) + suffix);
            && DecodeHeader(EncodedClose(session, reason, exts) + suffix) == Ok(CloseHeader(session, exts), fields)
            && DecodeClose(CloseHeader(session, exts), fields) == Ok(reason, suffix)
  {
    hide PackHeader, DecodeExtsIf;
    var fields := [reason] + (EncodedExts(exts) + suffix);
    assert EncodedClose(session, reason, exts) + suffix == [PackHeader(CloseHeader(session, exts))] + fields;
    HeaderInFront(CloseHeader(session, exts), fields);
    ExtsIfRoundTrip(exts, suffix);
    assert TakeByte(fields) == Ok(reason, EncodedExts(exts) + suffix);
  }

  /** Reason byte and extensions of a CLOSE. */
  function DecodeClose(h: Header, s: bytes): (p: Parse<byte>)
    ensures p.Ok? ==> |p.rest| < |s|
  {
    var (reason, rest) :- TakeByte(s);
    var (exts, rest) :- DecodeExtsIf(h.z, rest);
    Ok(reason, rest)
  }

  method ReadClose(r: Reader, h: Header) returns (res: Result<byte, CodecError>)
    requires r.Valid()
    modifies r
    ensures r.Agrees(res, DecodeClose(h, old(r.Rest())))
  {
    var reason :- r.ReadByte();
    var exts :- ReadExtensionsIf(r, h.z);
    res := Success(reason);
  }

  // ----- INIT and OPEN -----

  datatype SizeInfo = SizeInfo(resolution: byte, batchSize: uint16)

  datatype Init = Init(ack: bool, version: byte, zid: bytes, whatAmI: byte,
                       sizeInfo: Option<SizeInfo>, cookie: bytes, exts: Exts)

  datatype Open = Open(ack: bool, leaseSeconds: bool, lease: uint64, initialSn: uint64, cookie: bytes, exts: Exts)

  predicate EncodableInit(m: Init) {
    ValidZid(m.zid) && m.whatAmI < 4 && EncodableExts(m.exts) && (m.ack ==> |m.cookie| < U16)
  }

  function InitHeader(m: Init): Header {
    Header(IdInit, m.ack, m.sizeInfo.Some?, |m.exts| > 0)
  }

  function PackZid(len: nat, whatAmI: byte): byte
    requires 1 <= len <= 16 && whatAmI < 4
  {
    16 * (len - 1) + whatAmI
  }

  function EncodedSize(s: Option<SizeInfo>): bytes {
    match s case None => [] case Some(SizeInfo(res, size)) => [res] + U16LE(size)
  }

  function CookieIf(present: bool, cookie: bytes): bytes
    requires present ==> |cookie| < U16
  {
    if present then Prefixed(cookie) else []
  }

  function EncodedInit(m: Init): (s: bytes)
    requires EncodableInit(m)
    ensures |s| > 0
  {
    [PackHeader(InitHeader(m))] + EncodedInitFields(m)
  }

  function EncodedInitFields(m: Init): bytes
    requires EncodableInit(m)
  {
    [m.version, PackZid(|m.zid|, m.whatAmI)] + m.zid + EncodedSize(m.sizeInfo)
    + CookieIf(m.ack, m.cookie) + EncodedExts(m.exts)
  }

  function DecodeSizeIf(present: bool, s: bytes): Parse<Option<SizeInfo>> {
    if !present then Ok(None, s)
    else
      var (res, rest) :- TakeByte(s);
      var (size, rest) :- TakeU16LE(rest);
      Ok(Some(SizeInfo(res, size)), rest)
  }

  function DecodeCookieIf(present: bool, s: bytes): Parse<bytes> {
    if present then DecodePrefixed(s, W16) else Ok([], s)
  }

  function DecodeInit(h: Header, s: bytes): Parse<Init> {
    var (version, rest) :- TakeByte(s);
    var (packed, rest) :- TakeByte(rest);
    var (zid, rest) :- TakeN(rest, packed / 16 + 1);
    var (sizeInfo, rest) :- DecodeSizeIf(h.f2, rest);
    var (cookie, rest) :- DecodeCookieIf(h.f1, rest);
    var (exts, rest) :- DecodeExtsIf(h.z, rest);
    Ok(Init(h.f1, version, zid, packed % 4, sizeInfo, cookie, exts), rest)
  }

  function WireInit(m: Init): Init {
    m.(cookie := if m.ack then m.cookie else [], exts := WireExts(m.exts))
  }

  lemma SizeRoundTrip(s: Option<SizeInfo>, suffix: bytes)
    ensures DecodeSizeIf(s.Some?, EncodedSize(s) + suffix) == Ok(s, suffix)
  {
    match s
    case None => assert EncodedSize(s) + suffix == suffix;
    case Some(SizeInfo(res, size)) =>
      Fields2([res], U16LE(size), suffix);
      assert ([res] + (U16LE(size) + suffix))[1..] == U16LE(size) + suffix;
      U16LERoundTrip(size, suffix);
  }

  lemma CookieRoundTrip(present: bool, cookie: bytes, suffix: bytes)
    requires present ==> |cookie| < U16
    ensures DecodeCookieIf(present, CookieIf(present, cookie) + suffix) == Ok(if present then cookie else [], suffix)
  {
    if present {
      PrefixedRoundTrip(cookie, W16, suffix);
    } else {
      assert CookieIf(present, cookie) + suffix == suffix;
    }
  }

  lemma InitFieldsRoundTrip(m: Init, suffix: bytes)
    requires EncodableInit(m)
    ensures DecodeInit(InitHeader(m), EncodedInitFields(m) + suffix) == Ok(WireInit(m), suffix)
  {
    hide Prefixed, EncodedSize, CookieIf, EncodedExts, DecodeSizeIf, DecodeCookieIf, DecodeExtsIf;
    var packed := PackZid(|m.zid|, m.whatAmI);
    var z, i, c, x := m.zid, EncodedSize(m.sizeInfo), CookieIf(m.ack, m.cookie), EncodedExts(m.exts);
    var tail := z + (i + (c + (x + suffix)));
    Fields5([m.version, packed], z, i, c, x, suffix);
    assert ([m.version, packed] + tail)[1..] == [packed] + tail;
    assert ([packed] + tail)[1..] == tail;
    assert packed / 16 + 1 == |z| && packed % 4 == m.whatAmI;
    TakeNOfBlock(z, i + (c + (x + suffix)));
    SizeRoundTrip(m.sizeInfo, c + (x + suffix));
    CookieRoundTrip(m.ack, m.cookie, x + suffix);
    ExtsIfRoundTrip(m.exts, suffix);
  }

  predicate EncodableOpen(m: Open) {
    EncodableExts(m.exts) && (!m.ack ==> |m.cookie| < U16)
  }

  function OpenHeader(m: Open): Header {
    Header(IdOpen, m.ack, m.leaseSeconds, |m.exts| > 0)
  }

  function EncodedOpenFields(m: Open): bytes
    requires EncodableOpen(m)
  {
    Vle.Encoded(m.lease) + Vle.Encoded(m.initialSn) + CookieIf(!m.ack, m.cookie) + EncodedExts(m.exts)
  }

  function EncodedOpen(m: Open): (s: bytes)
    requires EncodableOpen(m)
    ensures |s| > 0
  {
    [PackHeader(OpenHeader(m))] + EncodedOpenFields(m)
  }

  function DecodeOpen(h: Header, s: bytes): Parse<Open> {
    var (lease, rest) :- Vle.DecodeZ64(s);
    var (sn, rest) :- Vle.DecodeZ64(rest);
    var (cookie, rest) :- DecodeCookieIf(!h.f1, rest);
    var (exts, rest) :- DecodeExtsIf(h.z, rest);
    Ok(Open(h.f1, h.f2, lease, sn, cookie, exts), rest)
  }

  function WireOpen(m: Open): Open {
    m.(cookie := if m.ack then [] else m.cookie, exts := WireExts(m.exts))
  }

  lemma OpenFieldsRoundTrip(m: Open, suffix: bytes)
    requires EncodableOpen(m)
    ensures DecodeOpen(OpenHeader(m), EncodedOpenFields(m) + suffix) == Ok(WireOpen(m), suffix)
  {
    hide Vle.Encoded, CookieIf, EncodedExts, DecodeCookieIf, DecodeExtsIf, Vle.DecodeZ64;
    var l, n, c, x := Vle.Encoded(m.lease), Vle.Encoded(m.initialSn), CookieIf(!m.ack, m.cookie), EncodedExts(m.exts);
    Fields4(l, n, c, x, suffix);
    Vle.Z64RoundTrip(m.lease, n + (c + (x + suffix)));
    Vle.Z64RoundTrip(m.initialSn, c + (x + suffix));
    CookieRoundTrip(!m.ack, m.cookie, x + suffix);
    ExtsIfRoundTrip(m.exts, suffix);
  }

  method WriteInit(w: Writer, m: Init) returns (ok: bool)
    modifies w
    ensures ok <==> EncodableInit(m)
    ensures ok ==> w.buf == old(w.buf) + EncodedInit(m)
  {
    hide PackHeader, EncodedExts, Prefixed, U16LE;
    ghost var before, header := w.buf, [PackHeader(InitHeader(m))];
    EncodeHeader(w, InitHeader(m));
    w.AppendByte(m.version);
    if !ValidZid(m.zid) || m.whatAmI >= 4 {
      return false;
    }
    ghost var head := [m.version, PackZid(|m.zid|, m.whatAmI)];
    w.AppendByte(PackZid(|m.zid|, m.whatAmI));
    assert w.buf == before + header + head;
    w.AppendBytes(m.zid);
    ghost var sized := before + header + head + m.zid + EncodedSize(m.sizeInfo);
    if m.sizeInfo.Some? {
      w.AppendByte(m.sizeInfo.value.resolution);
      w.AppendU16LE(m.sizeInfo.value.batchSize);
    }
    assert w.buf == sized;
    if m.ack {
      ok := EncodePrefixed(w, m.cookie, W16);
      if !ok { return; }
    } else {
      assert w.buf + [] == w.buf;
    }
    assert w.buf == sized + CookieIf(m.ack, m.cookie);
    ok := EncodeExtensions(w, m.exts);
    if ok {
      var size, cookie := EncodedSize(m.sizeInfo), CookieIf(m.ack, m.cookie);
      Append4(before + header + head, m.zid, size, cookie, EncodedExts(m.exts));
      Append4(head, m.zid, size, cookie, EncodedExts(m.exts));
      Append2(before + header, head, m.zid + size + cookie + EncodedExts(m.exts));
      Append2(before, header, EncodedInitFields(m));
    }
  }

  method WriteOpen(w: Writer, m: Open) returns (ok: bool)
    modifies w
    ensures ok <==> EncodableOpen(m)
    ensures ok ==> w.buf == old(w.buf) + EncodedOpen(m)
  {
    hide PackHeader, EncodedExts, Prefixed, Vle.Encoded;
    ghost var before, header := w.buf, [PackHeader(OpenHeader(m))];
    EncodeHeader(w, OpenHeader(m));
    Vle.EncodeZ64(w, m.lease);
    Vle.EncodeZ64(w, m.initialSn);
    if !m.ack {
      ok := EncodePrefixed(w, m.cookie, W16);
      if !ok { return; }
    } else {
      assert w.buf + [] == w.buf;
    }
    ok := EncodeExtensions(w, m.exts);
    if ok {
      var fields := EncodedOpenFields(m);
      Append4(before + header, Vle.Encoded(m.lease), Vle.Encoded(m.initialSn), CookieIf(!m.ack, m.cookie),
              EncodedExts(m.exts));
      Append2(before, header, fields);
    }
  }

  method ReadInit(r: Reader, h: Header) returns (res: Result<Init, CodecError>)
    requires r.Valid()
    modifies r
    ensures r.Agrees(res, DecodeInit(h, old(r.Rest())))
  {
    hide DecodeExtsIf, DecodePrefixed, TakeU16LE, TakeN;
    var version :- r.ReadByte();
    var packed :- r.ReadByte();
    var zid :- r.ReadN(packed / 16 + 1);
    var sizeInfo := None;
    if h.f2 {
      var resolution :- r.ReadByte();
      var batchSize :- r.ReadU16LE();
      sizeInfo := Some(SizeInfo(resolution, batchSize));
    }
    var cookie := [];
    if h.f1 {
      cookie :- ReadPrefixed(r, W16);
    }
    var exts :- ReadExtensionsIf(r, h.z);
    res := Success(Init(h.f1, version, zid, packed % 4, sizeInfo, cookie, exts));
  }

  method ReadOpen(r: Reader, h: Header) returns (res: Result<Open, CodecError>)
    requires r.Valid()
    modifies r
    ensures r.Agrees(res, DecodeOpen(h, old(r.Rest())))
  {
    hide DecodeExtsIf, DecodePrefixed;
    var lease :- Vle.DecodeVle(r, Vle.MaxZ64Bytes);
    Vle.CapacityIsU64();
    var sn :- Vle.DecodeVle(r, Vle.MaxZ64Bytes);
    var cookie := [];
    if !h.f1 {
      cookie :- ReadPrefixed(r, W16);
    }
    var exts :- ReadExtensionsIf(r, h.z);
    res := Success(Open(h.f1, h.f2, lease, sn, cookie, exts));
  }
}
