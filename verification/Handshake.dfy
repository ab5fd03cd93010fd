/**
 The four-message INIT/OPEN handshake (internal/session/handshake.go,
 handshake_responder.go, initial_sn.go, internal/wire/resolution.go): both roles over
 the bytes they exchange, and what the two sides hold in common afterwards.
 */
module Handshake {
  import opened Wrappers
  import opened Buffer
  import opened Extensions
  import opened WireTypes
  import opened TransportMessages
  import opened SequenceNumbers
  import Vle

  const ProtoVersion: byte := 0x09
  const ReasonInvalid: byte := 0x02
  const ReasonConnectionToSelf: byte := 0x07

  // ----- resolutions -----

  datatype Field = FrameSn | RequestId

  /** The two-bit width code of a field. */
  function Code(r: byte, f: Field): (c: byte)
    ensures c < 4
  {
    match f case FrameSn => r % 4 case RequestId => r / 4 % 4
  }

  function WidthBits(code: nat): (n: nat)
    ensures n <= 63
  {
    match code case 0 => 7 case 1 => 14 case 2 => 28 case _ => 63
  }

  function Bits(r: byte, f: Field): (n: nat)
    ensures n <= 63
  {
    WidthBits(Code(r, f))
  }

  function WidthMask(code: nat): uint64 {
    BitsFit();
    Vle.Pow2(WidthBits(code)) - 1
  }

  function Mask(r: byte, f: Field): uint64 {
    WidthMask(Code(r, f))
  }

  lemma BitsFit()
    ensures Vle.Pow2(7) == 0x80 && Vle.Pow2(14) == 0x4000 && Vle.Pow2(28) == 0x1000_0000
    ensures Vle.Pow2(63) == 0x8000_0000_0000_0000
  {
    hide Vle.Pow2;
    PowerOf16();
    PowerOf8();
    Pow2Splits(4, 3);
    Pow2Splits(7, 7);
    Pow2Splits(14, 14);
    Pow2Splits(28, 28);
    Pow2Splits(56, 7);
  }

  lemma PowerOf8()
    ensures Vle.Pow2(3) == 8
  {
  }

  lemma WiderIsMore(a: nat, b: nat)
    requires a <= b < 4
    ensures WidthMask(a) <= WidthMask(b)
  {
    hide Vle.Pow2;
    BitsFit();
  }

  function NewResolution(fsn: byte, rid: byte): byte {
    rid % 4 * 4 + fsn % 4
  }

  function Min(a: int, b: int): int {
    if a <= b then a else b
  }

  function MinResolution(a: byte, b: byte): byte {
    NewResolution(Min(Code(a, FrameSn), Code(b, FrameSn)), Min(Code(a, RequestId), Code(b, RequestId)))
  }

  lemma NewResolutionCodes(fsn: byte, rid: byte)
    requires fsn < 4 && rid < 4
    ensures Code(NewResolution(fsn, rid), FrameSn) == fsn && Code(NewResolution(fsn, rid), RequestId) == rid
  {
  }

  /** Field by field the smaller width, hence never above what either side offered. */
  lemma MinResolutionByField(a: byte, b: byte, f: Field)
    ensures Code(MinResolution(a, b), f) == Min(Code(a, f), Code(b, f))
    ensures Mask(MinResolution(a, b), f) == Min(Mask(a, f), Mask(b, f))
  {
    hide Code, NewResolution, WidthMask;
    NewResolutionCodes(Min(Code(a, FrameSn), Code(b, FrameSn)), Min(Code(a, RequestId), Code(b, RequestId)));
    if Code(a, f) <= Code(b, f) {
      WiderIsMore(Code(a, f), Code(b, f));
    } else {
      WiderIsMore(Code(b, f), Code(a, f));
    }
  }

  // ----- initial sequence numbers -----

  /** `hash` stands for the first eight bytes of SHAKE128 of its argument. */
  function InitialSn(hash: bytes -> uint64, mine: bytes, peer: bytes, resolution: byte): uint64 {
    BitAnd(hash(mine + peer), Mask(resolution, FrameSn))
  }

  lemma InitialSnFits(hash: bytes -> uint64, mine: bytes, peer: bytes, resolution: byte)
    ensures InitialSn(hash, mine, peer, resolution) == hash(mine + peer) % Vle.Pow2(Bits(resolution, FrameSn))
    ensures InitialSn(hash, mine, peer, resolution) <= Mask(resolution, FrameSn)
  {
    hide Vle.Pow2, BitAnd, Code;
    AndOfOnes(hash(mine + peer), Bits(resolution, FrameSn));
  }

  // ----- configuration and outcome -----

  /** What one side proposes or is ready to accept. */
  datatype Config = Config(zid: bytes, whatAmI: byte, batchSize: uint16, lease: uint64, resolution: byte, qos: bool) {
    function Fault(): Option<HandshakeError> {
      if !ValidZid(zid) then Some(BadZid)
      else if batchSize == 0 then Some(BadBatchSize)
      else if lease == 0 then Some(BadLease)
      else None
    }

    /** It passes the checks and its INIT can be encoded. */
    predicate Proper() {
      Fault().None? && whatAmI < 4
    }
  }

  datatype HandshakeError =
    | BadZid | BadBatchSize | BadLease
    | NotEncodable
    | LinkDown
    | Garbled(error: CodecError)
    | ClosedFor(reason: byte)
    | WrongMessage
    | WrongDirection
    | WrongVersion
    | RaisedResolution
    | CookieMismatch

  datatype Session = Session(peerZid: bytes, peerWhatAmI: byte, batchSize: uint16, resolution: byte,
                             myLease: uint64, peerLease: uint64, mySn: uint64, peerSn: uint64, qos: bool)

  type Outcome = Result<Session, HandshakeError>

  /** The batches a side has written, those it has left unread, and how it ended. */
  datatype Exchange = Exchange(sent: seq<bytes>, unread: seq<bytes>, outcome: Outcome)

  function FailedWith(sent: seq<bytes>, unread: seq<bytes>, e: HandshakeError): Exchange {
    Exchange(sent, unread, Failure(e))
  }

  const QoSOffer: Extension := NewUnitExt(ExtIdQoS)

  function QoSExts(offer: bool): Exts {
    if offer then [QoSOffer] else []
  }

  predicate HasQoSExt(exts: Exts) {
    exists i :: 0 <= i < |exts| && exts[i].id == ExtIdQoS && exts[i].body == Unit
  }

  lemma QoSExtTravels(offer: bool)
    ensures EncodableExts(QoSExts(offer)) && WireExts(QoSExts(offer)) == QoSExts(offer)
    ensures HasQoSExt(QoSExts(offer)) == offer
  {
    if offer {
      assert [QoSOffer][1..] == [] && WireExts([]) == [];
      assert [QoSOffer][0] == QoSOffer;
    }
  }

  // ----- reading -----

  function CloseBatch(reason: byte): bytes {
    [PackHeader(Header(IdClose, true, false, false)), reason]
  }

  /** The header of the awaited kind, unless the peer sent a CLOSE or something else. */
  function Awaited(batch: bytes, id: byte): Result<(Header, bytes), HandshakeError> {
    match DecodeHeader(batch)
    case Bad(e) => Failure(Garbled(e))
    case Ok(h, rest) =>
      if h.id == IdClose then
        match DecodeClose(h, rest)
        case Bad(e) => Failure(Garbled(e))
        case Ok(reason, _) => Failure(ClosedFor(reason))
      else if h.id != id then Failure(WrongMessage)
      else Success((h, rest))
  }

  function TakeInit(inbound: seq<bytes>, ack: bool): Result<Init, HandshakeError> {
    if |inbound| == 0 then Failure(LinkDown)
    else
      var (h, rest) :- Awaited(inbound[0], IdInit);
      match DecodeInit(h, rest)
      case Bad(e) => Failure(Garbled(e))
      case Ok(m, _) => if m.ack != ack then Failure(WrongDirection) else Success(m)
  }

  function TakeOpen(inbound: seq<bytes>, ack: bool): Result<Open, HandshakeError> {
    if |inbound| == 0 then Failure(LinkDown)
    else
      var (h, rest) :- Awaited(inbound[0], IdOpen);
      match DecodeOpen(h, rest)
      case Bad(e) => Failure(Garbled(e))
      case Ok(m, _) => if m.ack != ack then Failure(WrongDirection) else Success(m)
  }

  function Rest(inbound: seq<bytes>): seq<bytes> {
    if |inbound| == 0 then [] else inbound[1..]
  }

  lemma InitArrives(m: Init, inbound: seq<bytes>)
    requires EncodableInit(m) && |inbound| > 0 && inbound[0] == EncodedInit(m)
    ensures TakeInit(inbound, m.ack) == Success(WireInit(m))
  {
    hide PackHeader, EncodedInitFields, DecodeInit;
    var fields := EncodedInitFields(m);
    HeaderInFront(InitHeader(m), fields);
    InitFieldsRoundTrip(m, []);
    assert fields + [] == fields;
  }

  lemma OpenArrives(m: Open, inbound: seq<bytes>)
    requires EncodableOpen(m) && |inbound| > 0 && inbound[0] == EncodedOpen(m)
    ensures TakeOpen(inbound, m.ack) == Success(WireOpen(m))
  {
    hide PackHeader, EncodedOpenFields, DecodeOpen;
    var fields := EncodedOpenFields(m);
    HeaderInFront(OpenHeader(m), fields);
    OpenFieldsRoundTrip(m, []);
    assert fields + [] == fields;
  }

  function LeaseMillis(m: Open): uint64 {
    if m.leaseSeconds then m.lease * 1000 % U64 else m.lease
  }

  // ----- the initiator -----

  function InitSyn(c: Config): Init {
    Init(false, ProtoVersion, c.zid, c.whatAmI, Some(SizeInfo(c.resolution, c.batchSize)), [], QoSExts(c.qos))
  }

  predicate Raises(offered: byte, answered: byte) {
    Code(answered, FrameSn) > Code(offered, FrameSn) || Code(answered, RequestId) > Code(offered, RequestId)
  }

  function NegotiatedBatch(c: Config, m: Init): uint16 {
    if m.sizeInfo.Some? && m.sizeInfo.value.batchSize < c.batchSize then m.sizeInfo.value.batchSize else c.batchSize
  }

  function OpenSyn(c: Config, hash: bytes -> uint64, ack: Init, resolution: byte): Open {
    Open(false, false, c.lease, InitialSn(hash, c.zid, ack.zid, resolution), ack.cookie,
         QoSExts(c.qos && HasQoSExt(ack.exts)))
  }

  /** A CLOSE is written if the link still takes it; a failure to write it is ignored. */
  function Closing(sent: seq<bytes>, room: nat, reason: byte): seq<bytes> {
    if room > 0 then sent + [CloseBatch(reason)] else sent
  }

  /** `room` is how many batches the link takes before a write fails. */
  function Initiate(c: Config, hash: bytes -> uint64, inbound: seq<bytes>, room: nat): Exchange {
    if c.Fault().Some? then FailedWith([], inbound, c.Fault().value)
    else if !EncodableInit(InitSyn(c)) then FailedWith([], inbound, NotEncodable)
    else if room == 0 then FailedWith([], inbound, LinkDown)
    else
      var sent := [EncodedInit(InitSyn(c))];
      match TakeInit(inbound, true)
      case Failure(e) => FailedWith(sent, Rest(inbound), e)
      case Success(ack) => AfterInitAck(c, hash, sent, ack, Rest(inbound), room - 1)
  }

  function AfterInitAck(c: Config, hash: bytes -> uint64, sent: seq<bytes>, ack: Init, inbound: seq<bytes>,
                        room: nat): Exchange {
    if ack.version != ProtoVersion then FailedWith(sent, inbound, WrongVersion)
    else if ack.zid == c.zid then
      FailedWith(Closing(sent, room, ReasonConnectionToSelf), inbound, ClosedFor(ReasonConnectionToSelf))
    else if ack.sizeInfo.Some? && Raises(c.resolution, ack.sizeInfo.value.resolution) then
      FailedWith(Closing(sent, room, ReasonInvalid), inbound, RaisedResolution)
    else
      var resolution := if ack.sizeInfo.Some? then ack.sizeInfo.value.resolution else c.resolution;
      var syn := OpenSyn(c, hash, ack, resolution);
      if !EncodableOpen(syn) then FailedWith(sent, inbound, NotEncodable)
      else if room == 0 then FailedWith(sent, inbound, LinkDown)
      else
        var sent' := sent + [EncodedOpen(syn)];
        match TakeOpen(inbound, true)
        case Failure(e) => FailedWith(sent', Rest(inbound), e)
        case Success(openAck) =>
          Exchange(sent', Rest(inbound), Success(
            Session(ack.zid, ack.whatAmI, NegotiatedBatch(c, ack), resolution, c.lease, LeaseMillis(openAck),
                    syn.initialSn, openAck.initialSn, c.qos && HasQoSExt(ack.exts))))
  }

  // ----- the responder -----

  function AgreedResolution(c: Config, syn: Init): byte {
    if syn.sizeInfo.Some? then MinResolution(c.resolution, syn.sizeInfo.value.resolution) else c.resolution
  }

  function InitAck(c: Config, syn: Init, cookie: bytes): Init {
    Init(true, ProtoVersion, c.zid, c.whatAmI, Some(SizeInfo(AgreedResolution(c, syn), NegotiatedBatch(c, syn))),
         cookie, QoSExts(c.qos && HasQoSExt(syn.exts)))
  }

  function OpenAck(c: Config, hash: bytes -> uint64, syn: Init): Open {
    Open(true, false, c.lease, InitialSn(hash, c.zid, syn.zid, AgreedResolution(c, syn)), [],
         QoSExts(c.qos && HasQoSExt(syn.exts)))
  }

  /** `cookie` is the random value the responder draws. */
  function Respond(c: Config, hash: bytes -> uint64, cookie: bytes, inbound: seq<bytes>, room: nat): Exchange {
    if c.Fault().Some? then FailedWith([], inbound, c.Fault().value)
    else
      match TakeInit(inbound, false)
      case Failure(e) => FailedWith([], Rest(inbound), e)
      case Success(syn) => AfterInitSyn(c, hash, cookie, syn, Rest(inbound), room)
  }

  function AfterInitSyn(c: Config, hash: bytes -> uint64, cookie: bytes, syn: Init, inbound: seq<bytes>,
                        room: nat): Exchange {
    if syn.version != ProtoVersion then FailedWith(Closing([], room, ReasonInvalid), inbound, WrongVersion)
    else if syn.zid == c.zid then
      FailedWith(Closing([], room, ReasonConnectionToSelf), inbound, ClosedFor(ReasonConnectionToSelf))
    else
      var ack := InitAck(c, syn, cookie);
      if !EncodableInit(ack) then FailedWith([], inbound, NotEncodable)
      else if room == 0 then FailedWith([], inbound, LinkDown)
      else
        var sent := [EncodedInit(ack)];
        match TakeOpen(inbound, false)
        case Failure(e) => FailedWith(sent, Rest(inbound), e)
        case Success(openSyn) => AfterOpenSyn(c, hash, cookie, syn, sent, openSyn, Rest(inbound), room - 1)
  }

  function AfterOpenSyn(c: Config, hash: bytes -> uint64, cookie: bytes, syn: Init, sent: seq<bytes>,
                        openSyn: Open, inbound: seq<bytes>, room: nat): Exchange {
    if openSyn.cookie != cookie then FailedWith(Closing(sent, room, ReasonInvalid), inbound, CookieMismatch)
    else if room == 0 then FailedWith(sent, inbound, LinkDown)
    else
      var ack := OpenAck(c, hash, syn);
      QoSExtTravels(c.qos && HasQoSExt(syn.exts));
      Exchange(sent + [EncodedOpen(ack)], inbound, Success(
        Session(syn.zid, syn.whatAmI, NegotiatedBatch(c, syn), AgreedResolution(c, syn), c.lease, LeaseMillis(openSyn),
                ack.initialSn, openSyn.initialSn, c.qos && HasQoSExt(syn.exts))))
  }

  // ----- agreement -----

  /** The two sides of a link: each has read a front part of what the other wrote. */
  predicate Crossed(p: Pair) {
    p.toInitiator <= p.Responder().sent && p.toResponder <= p.Initiator().sent
  }

  /** Two configurations, the cookie, what has reached either side so far, and how many
      batches each side can write before its writes fail. */
  datatype Pair = Pair(ci: Config, cr: Config, hash: bytes -> uint64, cookie: bytes,
                       toInitiator: seq<bytes>, toResponder: seq<bytes>,
                       initiatorRoom: nat, responderRoom: nat) {
    function Initiator(): Exchange {
      Initiate(ci, hash, toInitiator, initiatorRoom)
    }

    function Responder(): Exchange {
      Respond(cr, hash, cookie, toResponder, responderRoom)
    }

    predicate Proper() {
      ci.Proper() && cr.Proper() && |cookie| == 16
    }

    function Ack(): Init {
      InitAck(cr, InitSyn(ci), cookie)
    }

    function Syn2(): Open {
      OpenSyn(ci, hash, Ack(), AgreedResolution(cr, InitSyn(ci)))
    }

    function Ack2(): Open {
      OpenAck(cr, hash, InitSyn(ci))
    }
  }

  /** The values that must match after a handshake. */
  predicate Agree(ci: Config, cr: Config, a: Session, b: Session) {
    && a.batchSize == b.batchSize == Min(ci.batchSize, cr.batchSize)
    && a.resolution == b.resolution == MinResolution(cr.resolution, ci.resolution)
    && a.qos == b.qos == (ci.qos && cr.qos)
    && a.peerZid == cr.zid && b.peerZid == ci.zid && a.peerWhatAmI == cr.whatAmI && b.peerWhatAmI == ci.whatAmI
    && a.myLease == b.peerLease == ci.lease && b.myLease == a.peerLease == cr.lease
    && a.mySn == b.peerSn <= Mask(a.resolution, FrameSn)
    && b.mySn == a.peerSn <= Mask(b.resolution, FrameSn)
  }

  lemma SynTravels(c: Config)
    ensures WireInit(InitSyn(c)) == InitSyn(c) && HasQoSExt(InitSyn(c).exts) == c.qos
    ensures EncodableInit(InitSyn(c)) <==> ValidZid(c.zid) && c.whatAmI < 4
  {
    QoSExtTravels(c.qos);
  }

  lemma AckTravels(c: Config, syn: Init, cookie: bytes)
    ensures WireInit(InitAck(c, syn, cookie)) == InitAck(c, syn, cookie)
    ensures HasQoSExt(InitAck(c, syn, cookie).exts) == (c.qos && HasQoSExt(syn.exts))
    ensures EncodableInit(InitAck(c, syn, cookie)) <==> ValidZid(c.zid) && c.whatAmI < 4 && |cookie| < U16
  {
    QoSExtTravels(c.qos && HasQoSExt(syn.exts));
  }

  lemma OpensTravel(p: Pair)
    requires p.Proper()
    ensures EncodableOpen(p.Syn2()) && WireOpen(p.Syn2()) == p.Syn2()
    ensures EncodableOpen(p.Ack2()) && WireOpen(p.Ack2()) == p.Ack2()
  {
    QoSExtTravels(p.ci.qos && HasQoSExt(p.Ack().exts));
    QoSExtTravels(p.cr.qos && HasQoSExt(InitSyn(p.ci).exts));
  }

  lemma NothingRaised(p: Pair)
    ensures !Raises(p.ci.resolution, p.Ack().sizeInfo.value.resolution)
  {
    MinResolutionByField(p.cr.resolution, p.ci.resolution, FrameSn);
    MinResolutionByField(p.cr.resolution, p.ci.resolution, RequestId);
  }

  /** The initiator, given how much of the responder's answers has arrived. */
  lemma InitiatorSide(p: Pair)
    requires p.Proper() && p.ci.zid != p.cr.zid
    requires |p.toInitiator| > 0 ==> p.toInitiator[0] == EncodedInit(p.Ack())
    ensures var i := p.Initiator();
            && (p.initiatorRoom == 0 ==> i.sent == [] && i.outcome == Failure(LinkDown))
            && (p.initiatorRoom > 0 && (|p.toInitiator| == 0 || p.initiatorRoom == 1) ==>
                  i.sent == [EncodedInit(InitSyn(p.ci))] && i.outcome == Failure(LinkDown))
            && (p.initiatorRoom > 1 && |p.toInitiator| > 0 ==>
                  i.sent == [EncodedInit(InitSyn(p.ci)), EncodedOpen(p.Syn2())])
            && (|p.toInitiator| == 1 ==> i.outcome == Failure(LinkDown))
            && (p.initiatorRoom > 1 && |p.toInitiator| > 1 && p.toInitiator[1] == EncodedOpen(p.Ack2()) ==>
                  i.outcome == Success(
                    Session(p.cr.zid, p.cr.whatAmI, p.Ack().sizeInfo.value.batchSize, p.Ack().sizeInfo.value.resolution,
                            p.ci.lease, p.cr.lease, p.Syn2().initialSn, p.Ack2().initialSn, p.ci.qos && p.cr.qos)))
  {
    hide EncodedInit, EncodedOpen, EncodableInit, EncodableOpen, InitialSn, WireInit, WireOpen, HasQoSExt, Raises,
         MinResolution;
    SynTravels(p.ci);
    AckTravels(p.cr, InitSyn(p.ci), p.cookie);
    OpensTravel(p);
    NothingRaised(p);
    if |p.toInitiator| > 0 {
      InitArrives(p.Ack(), p.toInitiator);
      if |p.toInitiator| > 1 && p.toInitiator[1] == EncodedOpen(p.Ack2()) {
        OpenArrives(p.Ack2(), p.toInitiator[1..]);
      }
    }
  }

  /** After the INIT SYN the responder answers and waits for the OPEN SYN. */
  lemma ResponderAnswers(p: Pair)
    requires p.Proper() && p.ci.zid != p.cr.zid && p.responderRoom > 0
    requires |p.toResponder| > 0 && p.toResponder[0] == EncodedInit(InitSyn(p.ci))
    ensures var sent, rest := [EncodedInit(p.Ack())], p.toResponder[1..];
            p.Responder() ==
            match TakeOpen(rest, false)
            case Failure(e) => FailedWith(sent, Rest(rest), e)
            case Success(m) =>
              AfterOpenSyn(p.cr, p.hash, p.cookie, InitSyn(p.ci), sent, m, Rest(rest), p.responderRoom - 1)
  {
    hide EncodedInit, EncodableInit, TakeOpen, AfterOpenSyn, WireInit, AgreedResolution, NegotiatedBatch;
    SynTravels(p.ci);
    AckTravels(p.cr, InitSyn(p.ci), p.cookie);
    InitArrives(InitSyn(p.ci), p.toResponder);
  }

  lemma NoMore()
    ensures TakeInit([], false) == TakeInit([], true) == Failure(LinkDown)
    ensures TakeOpen([], false) == TakeOpen([], true) == Failure(LinkDown)
  {
  }

  /** The OPEN SYN it waits for. */
  lemma ResponderFinishes(p: Pair)
    requires p.Proper() && p.ci.zid != p.cr.zid && p.responderRoom > 0
    requires |p.toResponder| > 1 && p.toResponder[0] == EncodedInit(InitSyn(p.ci)) && EncodableOpen(p.Syn2())
    requires p.toResponder[1] == EncodedOpen(p.Syn2())
    ensures var r := p.Responder();
            if p.responderRoom == 1 then r.sent == [EncodedInit(p.Ack())] && r.outcome == Failure(LinkDown)
            else
              && r.sent == [EncodedInit(p.Ack()), EncodedOpen(p.Ack2())]
              && r.outcome == Success(
                   Session(p.ci.zid, p.ci.whatAmI, p.Ack().sizeInfo.value.batchSize,
                           p.Ack().sizeInfo.value.resolution, p.cr.lease, p.ci.lease, p.Ack2().initialSn,
                           p.Syn2().initialSn, p.ci.qos && p.cr.qos))
  {
    ResponderAnswers(p);
    hide EncodedInit, EncodedOpen, EncodableInit, InitialSn, TakeOpen, AgreedResolution, NegotiatedBatch, HasQoSExt;
    hide Respond;
    OpensTravel(p);
    SynTravels(p.ci);
    OpenArrives(p.Syn2(), p.toResponder[1..]);
  }

  /** The responder, given how much of the initiator's messages has arrived. */
  lemma ResponderSide(p: Pair)
    requires p.Proper() && p.ci.zid != p.cr.zid
    requires |p.toResponder| > 0 ==> p.toResponder[0] == EncodedInit(InitSyn(p.ci))
    ensures var r := p.Responder();
            && (|p.toResponder| == 0 || p.responderRoom == 0 ==> r.sent == [] && r.outcome == Failure(LinkDown))
            && (|p.toResponder| > 0 && p.responderRoom > 0 ==> |r.sent| > 0 && r.sent[0] == EncodedInit(p.Ack()))
            && (|p.toResponder| == 1 && p.responderRoom > 0 ==>
                  r.sent == [EncodedInit(p.Ack())] && r.outcome == Failure(LinkDown))
            && (|p.toResponder| > 1 && p.toResponder[1] == EncodedOpen(p.Syn2()) ==>
                  && (p.responderRoom == 1 ==>
                        r.sent == [EncodedInit(p.Ack())] && r.outcome == Failure(LinkDown))
                  && (p.responderRoom > 1 ==>
                        && r.sent == [EncodedInit(p.Ack()), EncodedOpen(p.Ack2())]
                        && r.outcome == Success(
                             Session(p.ci.zid, p.ci.whatAmI, p.Ack().sizeInfo.value.batchSize,
                                     p.Ack().sizeInfo.value.resolution, p.cr.lease, p.ci.lease, p.Ack2().initialSn,
                                     p.Syn2().initialSn, p.ci.qos && p.cr.qos))))
  {
    hide EncodedInit, EncodedOpen, EncodableInit, EncodableOpen, InitialSn, TakeOpen, AgreedResolution, NegotiatedBatch;
    OpensTravel(p);
    SynTravels(p.ci);
    AckTravels(p.cr, InitSyn(p.ci), p.cookie);
    if |p.toResponder| > 0 && p.responderRoom > 0 {
      ResponderAnswers(p);
      NoMore();
      if |p.toResponder| > 1 && p.toResponder[1] == EncodedOpen(p.Syn2()) {
        ResponderFinishes(p);
      }
    } else if |p.toResponder| > 0 {
      InitArrives(InitSyn(p.ci), p.toResponder);
    }
  }

  /** What has arrived on either side of a crossed exchange is what was meant to. */
  lemma CrossedArrivals(p: Pair)
    requires p.Proper() && p.ci.zid != p.cr.zid && Crossed(p)
    ensures |p.toResponder| > 0 ==> p.toResponder[0] == EncodedInit(InitSyn(p.ci))
    ensures |p.toInitiator| > 0 ==> p.toInitiator[0] == EncodedInit(p.Ack())
    ensures |p.toResponder| > 1 ==> p.toResponder[1] == EncodedOpen(p.Syn2())
    ensures |p.toInitiator| > 1 ==> p.toInitiator[1] == EncodedOpen(p.Ack2())
  {
    hide EncodedInit, EncodedOpen, EncodableInit, EncodableOpen, InitialSn, TakeInit, TakeOpen, AfterInitAck,
         AfterInitSyn, HasQoSExt, MinResolution;
    FirstIsInit(p);
    ResponderSide(p);
    InitiatorSide(p);
  }

  lemma FirstIsInit(p: Pair)
    requires p.Proper()
    ensures |p.Initiator().sent| > 0 <==> p.initiatorRoom > 0
    ensures p.initiatorRoom > 0 ==> p.Initiator().sent[0] == EncodedInit(InitSyn(p.ci))
  {
    hide EncodedInit, EncodedOpen, EncodableOpen, InitialSn, TakeInit, TakeOpen, HasQoSExt, MinResolution;
    SynTravels(p.ci);
  }

  /** Whenever both sides finish, they agree. */
  lemma HandshakeAgreement(p: Pair)
    requires p.Proper() && p.ci.zid != p.cr.zid && Crossed(p)
    requires p.Initiator().outcome.Success? && p.Responder().outcome.Success?
    ensures Agree(p.ci, p.cr, p.Initiator().outcome.value, p.Responder().outcome.value)
  {
    hide EncodedInit, EncodedOpen, EncodableInit, EncodableOpen, TakeInit, TakeOpen, InitialSn, Initiate, Respond,
         HasQoSExt, MinResolution;
    CrossedArrivals(p);
    InitiatorSide(p);
    ResponderSide(p);
    SynTravels(p.ci);
    AckTravels(p.cr, InitSyn(p.ci), p.cookie);
    var resolution := AgreedResolution(p.cr, InitSyn(p.ci));
    InitialSnFits(p.hash, p.ci.zid, p.cr.zid, resolution);
    InitialSnFits(p.hash, p.cr.zid, p.ci.zid, resolution);
  }

  /** Between two proper sides the handshake fails only when a read or a write does: in
      particular the initiator never sees a raised resolution. With everything delivered
      either side finishes if and only if both can write their two messages. */
  lemma OnlyTheLinkCanFail(p: Pair)
    requires p.Proper() && p.ci.zid != p.cr.zid && Crossed(p)
    ensures p.Initiator().outcome.Failure? ==> p.Initiator().outcome.error == LinkDown
    ensures p.Responder().outcome.Failure? ==> p.Responder().outcome.error == LinkDown
    ensures p.toInitiator == p.Responder().sent && p.toResponder == p.Initiator().sent ==>
              && (p.Initiator().outcome.Success? <==> p.initiatorRoom >= 2 && p.responderRoom >= 2)
              && (p.Responder().outcome.Success? <==> p.initiatorRoom >= 2 && p.responderRoom >= 2)
  {
    hide EncodedInit, EncodedOpen, EncodableInit, EncodableOpen, TakeInit, TakeOpen, InitialSn, Initiate, Respond,
         HasQoSExt, MinResolution;
    CrossedArrivals(p);
    InitiatorSide(p);
    ResponderSide(p);
    FirstIsInit(p);
  }

  /** Such an exchange exists for any two proper configurations with different ZIDs. */
  lemma HandshakeCompletes(ci: Config, cr: Config, hash: bytes -> uint64, cookie: bytes) returns (p: Pair)
    requires ci.Proper() && cr.Proper() && ci.zid != cr.zid && |cookie| == 16
    ensures p.ci == ci && p.cr == cr && p.hash == hash && p.cookie == cookie && Crossed(p)
    ensures p.Initiator().outcome.Success? && p.Responder().outcome.Success?
  {
    hide EncodedInit, EncodedOpen, EncodableInit, EncodableOpen, TakeInit, TakeOpen, InitialSn, Initiate, Respond,
         HasQoSExt, MinResolution;
    p := Pair(ci, cr, hash, cookie, [], [], 2, 2);
    SynTravels(ci);
    AckTravels(cr, InitSyn(ci), cookie);
    OpensTravel(p);
    p := Pair(ci, cr, hash, cookie, [EncodedInit(p.Ack()), EncodedOpen(p.Ack2())],
              [EncodedInit(InitSyn(ci)), EncodedOpen(p.Syn2())], 2, 2);
    InitiatorSide(p);
    ResponderSide(p);
  }

  /** A peer that reaches itself never gets a session, on either side. */
  lemma NoSessionWithSelf(p: Pair)
    requires p.Proper() && p.ci.zid == p.cr.zid && Crossed(p)
    ensures p.Initiator().outcome in {Failure(LinkDown), Failure(ClosedFor(ReasonConnectionToSelf))}
    ensures p.Responder().outcome in {Failure(LinkDown), Failure(ClosedFor(ReasonConnectionToSelf))}
    ensures |p.toResponder| > 0 ==>
              p.Responder().sent == if p.responderRoom > 0 then [CloseBatch(ReasonConnectionToSelf)] else []
  {
    hide EncodedInit, EncodedOpen, EncodableInit, EncodableOpen, InitialSn, HasQoSExt, MinResolution, PackHeader,
         Awaited;
    FirstIsInit(p);
    SynTravels(p.ci);
    CloseArrives(ReasonConnectionToSelf);
    if |p.toResponder| > 0 {
      InitArrives(InitSyn(p.ci), p.toResponder);
    }
  }

  lemma CloseArrives(reason: byte)
    ensures Awaited(CloseBatch(reason), IdInit) == Failure(ClosedFor(reason))
    ensures Awaited(CloseBatch(reason), IdOpen) == Failure(ClosedFor(reason))
  {
    hide PackHeader;
    var h := Header(IdClose, true, false, false);
    HeaderInFront(h, [reason]);
    assert [PackHeader(h)] + [reason] == CloseBatch(reason);
    assert TakeByte([reason]) == Ok(reason, []);
  }

  // ----- the two roles as they run -----

  /** One end of a link during the handshake: batches still to be read, batches written,
      and how many more can be written. */
  class Pipe {
    var inbound: seq<bytes>
    var outbound: seq<bytes>
    var room: nat

    constructor (inbound: seq<bytes>, room: nat)
      ensures this.inbound == inbound && outbound == [] && this.room == room
    {
      this.inbound, outbound, this.room := inbound, [], room;
    }

    method WriteBatch(batch: bytes) returns (ok: bool)
      modifies this`outbound, this`room
      ensures ok <==> old(room) > 0
      ensures outbound == old(outbound) + (if ok then [batch] else []) && room == old(room) - if ok then 1 else 0
    {
      ok := room > 0;
      if ok {
        outbound, room := outbound + [batch], room - 1;
      }
    }

    method ReadBatch() returns (batch: Option<bytes>)
      modifies this`inbound
      ensures inbound == Rest(old(inbound))
      ensures batch == if |old(inbound)| == 0 then None else Some(old(inbound)[0])
    {
      batch := None;
      if |inbound| > 0 {
        batch := Some(inbound[0]);
        inbound := inbound[1..];
      }
    }

    method SendInit(m: Init) returns (res: Result<bytes, HandshakeError>)
      modifies this`outbound, this`room
      ensures res == if !EncodableInit(m) then Failure(NotEncodable)
                     else if old(room) == 0 then Failure(LinkDown) else Success(EncodedInit(m))
      ensures outbound == old(outbound) + if res.Success? then [EncodedInit(m)] else []
      ensures room == old(room) - if res.Success? then 1 else 0
    {
      hide EncodedInit, EncodableInit;
      var w := new Writer([]);
      var encoded := WriteInit(w, m);
      if !encoded {
        return Failure(NotEncodable);
      }
      assert [] + EncodedInit(m) == EncodedInit(m);
      var ok := WriteBatch(w.buf);
      res := if ok then Success(w.buf) else Failure(LinkDown);
    }

    method SendOpen(m: Open) returns (res: Result<bytes, HandshakeError>)
      modifies this`outbound, this`room
      ensures res == if !EncodableOpen(m) then Failure(NotEncodable)
                     else if old(room) == 0 then Failure(LinkDown) else Success(EncodedOpen(m))
      ensures outbound == old(outbound) + if res.Success? then [EncodedOpen(m)] else []
      ensures room == old(room) - if res.Success? then 1 else 0
    {
      hide EncodedOpen, EncodableOpen;
      var w := new Writer([]);
      var encoded := WriteOpen(w, m);
      if !encoded {
        return Failure(NotEncodable);
      }
      assert [] + EncodedOpen(m) == EncodedOpen(m);
      var ok := WriteBatch(w.buf);
      res := if ok then Success(w.buf) else Failure(LinkDown);
    }

    /** Errors are ignored: the handshake has already failed. */
    method SendClose(reason: byte)
      modifies this`outbound, this`room
      ensures outbound == Closing(old(outbound), old(room), reason)
    {
      var w := new Writer([]);
      EncodeHeader(w, Header(IdClose, true, false, false));
      w.AppendByte(reason);
      assert w.buf == CloseBatch(reason);
      var _ := WriteBatch(w.buf);
    }

    /** Reads one batch and its header; a CLOSE or an unexpected message is an error. */
    method AwaitMessage(id: byte) returns (r: Reader, res: Result<Header, HandshakeError>)
      modifies this`inbound
      ensures fresh(r) && r.Valid() && inbound == Rest(old(inbound))
      ensures |old(inbound)| == 0 ==> res == Failure(LinkDown)
      ensures |old(inbound)| > 0 ==>
                match Awaited(old(inbound)[0], id)
                case Failure(e) => res == Failure(e)
                case Success((h, rest)) => res == Success(h) && r.Rest() == rest
    {
      hide PackHeader, DecodeClose;
      var batch := ReadBatch();
      r := new Reader(batch.GetOr([]));
      if batch.None? {
        return r, Failure(LinkDown);
      }
      var h := ReadHeader(r);
      if h.Failure? {
        return r, Failure(Garbled(h.error));
      }
      if h.value.id == IdClose {
        var reason := ReadClose(r, h.value);
        return r, Failure(if reason.Success? then ClosedFor(reason.value) else Garbled(reason.error));
      }
      if h.value.id != id {
        return r, Failure(WrongMessage);
      }
      return r, Success(h.value);
    }

    method AwaitInit(ack: bool) returns (res: Result<Init, HandshakeError>)
      modifies this`inbound
      ensures res == TakeInit(old(inbound), ack)
      ensures inbound == Rest(old(inbound))
    {
      hide Awaited, DecodeInit;
      var r, h := AwaitMessage(IdInit);
      if h.Failure? {
        return Failure(h.error);
      }
      var m := ReadInit(r, h.value);
      if m.Failure? {
        return Failure(Garbled(m.error));
      }
      res := if m.value.ack != ack then Failure(WrongDirection) else Success(m.value);
    }

    method AwaitOpen(ack: bool) returns (res: Result<Open, HandshakeError>)
      modifies this`inbound
      ensures res == TakeOpen(old(inbound), ack)
      ensures inbound == Rest(old(inbound))
    {
      hide Awaited, DecodeOpen;
      var r, h := AwaitMessage(IdOpen);
      if h.Failure? {
        return Failure(h.error);
      }
      var m := ReadOpen(r, h.value);
      if m.Failure? {
        return Failure(Garbled(m.error));
      }
      res := if m.value.ack != ack then Failure(WrongDirection) else Success(m.value);
    }
  }

  method DoHandshake(link: Pipe, c: Config, hash: bytes -> uint64) returns (res: Outcome)
    modifies link
    ensures var x := Initiate(c, hash, old(link.inbound), old(link.room));
            res == x.outcome && link.inbound == x.unread && link.outbound == old(link.outbound) + x.sent
  {
    hide TakeInit, TakeOpen, EncodedInit, EncodedOpen, EncodableInit, EncodableOpen, HasQoSExt, InitialSn, CloseBatch;
    if !ValidZid(c.zid) {
      return Failure(BadZid);
    }
    if c.batchSize == 0 {
      return Failure(BadBatchSize);
    }
    if c.lease == 0 {
      return Failure(BadLease);
    }
    var _ :- link.SendInit(InitSyn(c));
    var ack :- link.AwaitInit(true);
    if ack.version != ProtoVersion {
      return Failure(WrongVersion);
    }
    if ack.zid == c.zid {
      link.SendClose(ReasonConnectionToSelf);
      return Failure(ClosedFor(ReasonConnectionToSelf));
    }
    var batchSize, resolution := c.batchSize, c.resolution;
    if ack.sizeInfo.Some? {
      if ack.sizeInfo.value.batchSize < batchSize {
        batchSize := ack.sizeInfo.value.batchSize;
      }
      var offered := ack.sizeInfo.value.resolution;
      var fields := [FrameSn, RequestId];
      for k := 0 to |fields|
        invariant forall j :: 0 <= j < k ==> Code(offered, fields[j]) <= Code(c.resolution, fields[j])
        invariant link.inbound == Rest(old(link.inbound))
        invariant link.outbound == old(link.outbound) + [EncodedInit(InitSyn(c))] && link.room == old(link.room) - 1
      {
        if Code(offered, fields[k]) > Code(c.resolution, fields[k]) {
          assert Raises(c.resolution, offered);
          link.SendClose(ReasonInvalid);
          return Failure(RaisedResolution);
        }
      }
      assert Code(offered, fields[0]) <= Code(c.resolution, fields[0]);
      assert Code(offered, fields[1]) <= Code(c.resolution, fields[1]);
      resolution := offered;
    }
    var syn := OpenSyn(c, hash, ack, resolution);
    var _ :- link.SendOpen(syn);
    var openAck :- link.AwaitOpen(true);
    res := Success(Session(ack.zid, ack.whatAmI, batchSize, resolution, c.lease, LeaseMillis(openAck),
                           syn.initialSn, openAck.initialSn, c.qos && HasQoSExt(ack.exts)));
  }

  method DoHandshakeResponder(link: Pipe, c: Config, hash: bytes -> uint64, cookie: bytes) returns (res: Outcome)
    modifies link
    ensures var x := Respond(c, hash, cookie, old(link.inbound), old(link.room));
            res == x.outcome && link.inbound == x.unread && link.outbound == old(link.outbound) + x.sent
  {
    hide TakeInit, TakeOpen, EncodedInit, EncodedOpen, EncodableInit, HasQoSExt, InitialSn, CloseBatch, MinResolution;
    if !ValidZid(c.zid) {
      return Failure(BadZid);
    }
    if c.batchSize == 0 {
      return Failure(BadBatchSize);
    }
    if c.lease == 0 {
      return Failure(BadLease);
    }
    var syn :- link.AwaitInit(false);
    if syn.version != ProtoVersion {
      link.SendClose(ReasonInvalid);
      return Failure(WrongVersion);
    }
    if syn.zid == c.zid {
      link.SendClose(ReasonConnectionToSelf);
      return Failure(ClosedFor(ReasonConnectionToSelf));
    }
    var batchSize, resolution := c.batchSize, c.resolution;
    if syn.sizeInfo.Some? {
      if syn.sizeInfo.value.batchSize < batchSize {
        batchSize := syn.sizeInfo.value.batchSize;
      }
      resolution := MinResolution(c.resolution, syn.sizeInfo.value.resolution);
    }
    var qos := c.qos && HasQoSExt(syn.exts);
    var _ :- link.SendInit(Init(true, ProtoVersion, c.zid, c.whatAmI, Some(SizeInfo(resolution, batchSize)), cookie,
                                QoSExts(qos)));
    var openSyn :- link.AwaitOpen(false);
    if openSyn.cookie != cookie {
      link.SendClose(ReasonInvalid);
      return Failure(CookieMismatch);
    }
    var sn := InitialSn(hash, c.zid, syn.zid, resolution);
    QoSExtTravels(qos);
    var _ :- link.SendOpen(Open(true, false, c.lease, sn, [], QoSExts(qos)));
    res := Success(Session(syn.zid, syn.whatAmI, batchSize, resolution, c.lease, LeaseMillis(openSyn),
                           sn, openSyn.initialSn, qos));
  }
}
