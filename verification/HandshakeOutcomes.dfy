/**
 What each role of the handshake makes of any peer, proper or not
 (internal/session/handshake.go:68-182, handshake_responder.go:52-168): which INIT and
 OPEN it accepts, what the session then holds, and how it turns the others down.
 */
module HandshakeOutcomes {
  import opened Wrappers
  import opened Buffer
  import opened Extensions
  import opened WireTypes
  import opened TransportMessages
  import opened Handshake
  import Vle

  /** A lease in milliseconds; the wire may give it in seconds. */
  predicate IsLeaseOf(millis: uint64, o: Open) {
    (o.leaseSeconds ==> millis == 1000 * o.lease % U64) && (!o.leaseSeconds ==> millis == o.lease)
  }

  /** What a session takes from the INIT and the OPEN of the peer, in either role. */
  predicate TakenFrom(c: Config, hash: bytes -> uint64, i: Init, o: Open, s: Session) {
    && s.peerZid == i.zid && s.peerWhatAmI == i.whatAmI
    && s.batchSize == (if i.sizeInfo.Some? then Min(c.batchSize, i.sizeInfo.value.batchSize) else c.batchSize)
    && s.myLease == c.lease && IsLeaseOf(s.peerLease, o)
    && s.peerSn == o.initialSn && s.mySn == hash(c.zid + i.zid) % Vle.Pow2(Bits(s.resolution, FrameSn))
    && s.qos == (c.qos && HasQoSExt(WireInit(i).exts))
  }

  // ----- the initiator -----

  /** The INIT ACK of another node that speaks our version and raises nothing. */
  predicate AcceptsAck(c: Config, a: Init) {
    && a.ack && a.version == ProtoVersion && a.zid != c.zid
    && (a.sizeInfo.Some? ==> forall f: Field :: Code(a.sizeInfo.value.resolution, f) <= Code(c.resolution, f))
  }

  lemma RaisesIffAbove(offered: byte, answered: byte)
    ensures Raises(offered, answered) <==> !forall f: Field :: Code(answered, f) <= Code(offered, f)
  {
    hide Code;
    if !Raises(offered, answered) {
      forall f: Field
        ensures Code(answered, f) <= Code(offered, f)
      {
        match f
        case FrameSn =>
        case RequestId =>
      }
    }
  }

  lemma NextBatches(i: bytes, o: bytes, more: seq<bytes>)
    ensures var inbound := [i, o] + more;
            inbound[0] == i && Rest(inbound)[0] == o && Rest(Rest(inbound)) == more && |Rest(inbound)| > 0
  {
  }

  /** The initiator succeeds exactly on an acceptable INIT ACK followed by an OPEN ACK. */
  lemma InitiatorOutcome(c: Config, hash: bytes -> uint64, a: Init, o: Open, more: seq<bytes>, room: nat)
    requires c.Proper() && EncodableInit(a) && EncodableOpen(o) && room >= 2
    ensures var x := Initiate(c, hash, [EncodedInit(a), EncodedOpen(o)] + more, room);
            && (x.outcome.Success? <==> AcceptsAck(c, a) && o.ack)
            && (x.outcome.Success? ==>
                  && |x.sent| == 2 && x.unread == more && TakenFrom(c, hash, a, o, x.outcome.value)
                  && x.outcome.value.resolution
                     == if a.sizeInfo.Some? then a.sizeInfo.value.resolution else c.resolution)
  {
    hide EncodedInit, EncodedOpen, EncodableInit, EncodableOpen, InitialSn, TakeInit, TakeOpen, HasQoSExt, Vle.Pow2,
         Bits, Raises, Code;
    var inbound := [EncodedInit(a), EncodedOpen(o)] + more;
    NextBatches(EncodedInit(a), EncodedOpen(o), more);
    SynTravels(c);
    InitTaken(a, true, inbound);
    OpenTaken(o, true, Rest(inbound));
    if AcceptsAck(c, a) || (a.ack && a.sizeInfo.Some?) {
      var resolution := if a.sizeInfo.Some? then a.sizeInfo.value.resolution else c.resolution;
      RaisesIffAbove(c.resolution, resolution);
      SynIsEncodable(c, hash, a, resolution);
      InitialSnFits(hash, c.zid, a.zid, resolution);
    } else {
      SynIsEncodable(c, hash, a, c.resolution);
      InitialSnFits(hash, c.zid, a.zid, c.resolution);
    }
  }

  lemma InitTaken(i: Init, ack: bool, inbound: seq<bytes>)
    requires EncodableInit(i) && |inbound| > 0 && inbound[0] == EncodedInit(i)
    ensures TakeInit(inbound, ack) == if i.ack == ack then Success(WireInit(i)) else Failure(WrongDirection)
  {
    hide EncodedInit, EncodableInit, WireInit, Awaited, DecodeInit;
    InitArrives(i, inbound);
  }

  lemma OpenTaken(o: Open, ack: bool, inbound: seq<bytes>)
    requires EncodableOpen(o) && |inbound| > 0 && inbound[0] == EncodedOpen(o)
    ensures TakeOpen(inbound, ack) == if o.ack == ack then Success(WireOpen(o)) else Failure(WrongDirection)
  {
    hide EncodedOpen, EncodableOpen, WireOpen, Awaited, DecodeOpen;
    OpenArrives(o, inbound);
  }

  lemma SynIsEncodable(c: Config, hash: bytes -> uint64, a: Init, resolution: byte)
    requires EncodableInit(a)
    ensures a.ack ==> EncodableOpen(OpenSyn(c, hash, WireInit(a), resolution))
  {
    hide InitialSn, HasQoSExt;
    QoSExtTravels(c.qos && HasQoSExt(WireInit(a).exts));
  }

  /** An INIT ACK that is not acceptable ends the exchange without an OPEN; towards itself
      and against a raised resolution the initiator writes a CLOSE if it still can. */
  lemma InitiatorRejects(c: Config, hash: bytes -> uint64, a: Init, more: seq<bytes>, room: nat)
    requires c.Proper() && EncodableInit(a) && room >= 1 && !AcceptsAck(c, a)
    ensures var x := Initiate(c, hash, [EncodedInit(a)] + more, room);
            var (error, closing) :=
              if !a.ack then (WrongDirection, None)
              else if a.version != ProtoVersion then (WrongVersion, None)
              else if a.zid == c.zid then (ClosedFor(ReasonConnectionToSelf), Some(ReasonConnectionToSelf))
              else (RaisedResolution, Some(ReasonInvalid));
            && x.outcome == Failure(error) && x.unread == more
            && x.sent == [EncodedInit(InitSyn(c))]
                         + if closing.Some? && room >= 2 then [CloseBatch(closing.value)] else []
  {
    hide EncodedInit, EncodedOpen, EncodableInit, EncodableOpen, InitialSn, TakeInit, TakeOpen, HasQoSExt, Raises, Code;
    var inbound := [EncodedInit(a)] + more;
    assert inbound[0] == EncodedInit(a) && Rest(inbound) == more;
    SynTravels(c);
    InitTaken(a, true, inbound);
    if a.sizeInfo.Some? {
      RaisesIffAbove(c.resolution, a.sizeInfo.value.resolution);
    }
  }

  /** Whatever bytes it reads: a session is with another node that speaks our version, and
      no field of its resolution, nor its batch size, is above the offer. */
  lemma InitiatorIsCareful(c: Config, hash: bytes -> uint64, inbound: seq<bytes>, room: nat)
    requires Initiate(c, hash, inbound, room).outcome.Success?
    ensures var s := Initiate(c, hash, inbound, room).outcome.value;
            && (forall f: Field :: Code(s.resolution, f) <= Code(c.resolution, f))
            && s.batchSize <= c.batchSize && s.peerZid != c.zid
            && ValidZid(c.zid) && c.batchSize > 0 && c.lease > 0
            && TakeInit(inbound, true).Success? && TakeInit(inbound, true).value.version == ProtoVersion
            && TakeInit(inbound, true).value.zid == s.peerZid
  {
    hide EncodedInit, EncodedOpen, EncodableInit, EncodableOpen, InitialSn, TakeInit, TakeOpen, HasQoSExt, Raises, Code;
    var ack := TakeInit(inbound, true).value;
    if ack.sizeInfo.Some? {
      RaisesIffAbove(c.resolution, ack.sizeInfo.value.resolution);
    }
  }

  // ----- the responder -----

  /** The INIT SYN of another node that speaks our version. */
  predicate AcceptsSyn(c: Config, i: Init) {
    !i.ack && i.version == ProtoVersion && i.zid != c.zid
  }

  /** The lower of the two offers, field by field. */
  predicate IsLower(resolution: byte, c: Config, i: Init) {
    forall f: Field :: Code(resolution, f) ==
      if i.sizeInfo.Some? then Min(Code(c.resolution, f), Code(i.sizeInfo.value.resolution, f))
      else Code(c.resolution, f)
  }

  lemma AgreedIsLower(c: Config, i: Init)
    ensures IsLower(AgreedResolution(c, i), c, i)
  {
    hide Code, MinResolution;
    if i.sizeInfo.Some? {
      forall f: Field
        ensures Code(AgreedResolution(c, i), f) == Min(Code(c.resolution, f), Code(i.sizeInfo.value.resolution, f))
      {
        MinResolutionByField(c.resolution, i.sizeInfo.value.resolution, f);
      }
    }
  }

  /** The responder succeeds exactly on an acceptable INIT SYN followed by an OPEN SYN
      that returns the cookie. */
  lemma ResponderOutcome(c: Config, hash: bytes -> uint64, cookie: bytes, i: Init, o: Open, more: seq<bytes>, room: nat)
    requires c.Proper() && |cookie| == 16 && EncodableInit(i) && EncodableOpen(o) && room >= 2
    ensures var x := Respond(c, hash, cookie, [EncodedInit(i), EncodedOpen(o)] + more, room);
            && (x.outcome.Success? <==> AcceptsSyn(c, i) && !o.ack && o.cookie == cookie)
            && (x.outcome.Success? ==>
                  && |x.sent| == 2 && x.unread == more && TakenFrom(c, hash, i, o, x.outcome.value)
                  && IsLower(x.outcome.value.resolution, c, i))
  {
    hide EncodedInit, EncodedOpen, EncodableInit, EncodableOpen, InitialSn, TakeInit, TakeOpen, HasQoSExt, Vle.Pow2,
         Bits, Code, IsLower, MinResolution;
    var inbound := [EncodedInit(i), EncodedOpen(o)] + more;
    NextBatches(EncodedInit(i), EncodedOpen(o), more);
    InitTaken(i, false, inbound);
    OpenTaken(o, false, Rest(inbound));
    AckTravels(c, WireInit(i), cookie);
    AgreedIsLower(c, i);
    InitialSnFits(hash, c.zid, i.zid, AgreedResolution(c, i));
    QoSExtTravels(c.qos && HasQoSExt(WireInit(i).exts));
  }

  /** How it turns an INIT SYN down: with a CLOSE, if it can write, and nothing else. */
  lemma ResponderRejects(c: Config, hash: bytes -> uint64, cookie: bytes, i: Init, more: seq<bytes>, room: nat)
    requires c.Proper() && |cookie| == 16 && EncodableInit(i) && !AcceptsSyn(c, i)
    ensures var x := Respond(c, hash, cookie, [EncodedInit(i)] + more, room);
            var (error, closing) :=
              if i.ack then (WrongDirection, None)
              else if i.version != ProtoVersion then (WrongVersion, Some(ReasonInvalid))
              else (ClosedFor(ReasonConnectionToSelf), Some(ReasonConnectionToSelf));
            && x.outcome == Failure(error) && x.unread == more
            && x.sent == if closing.Some? && room >= 1 then [CloseBatch(closing.value)] else []
  {
    hide EncodedInit, EncodedOpen, EncodableInit, EncodableOpen, InitialSn, TakeInit, TakeOpen, HasQoSExt,
         MinResolution;
    var inbound := [EncodedInit(i)] + more;
    assert inbound[0] == EncodedInit(i) && Rest(inbound) == more;
    InitTaken(i, false, inbound);
  }

  /** A cookie that is not the one it issued: no session, and a CLOSE after the INIT ACK. */
  lemma ForgedCookie(c: Config, hash: bytes -> uint64, cookie: bytes, i: Init, o: Open, more: seq<bytes>, room: nat)
    requires c.Proper() && |cookie| == 16 && EncodableInit(i) && EncodableOpen(o) && room >= 2
    requires AcceptsSyn(c, i) && !o.ack && o.cookie != cookie
    ensures var x := Respond(c, hash, cookie, [EncodedInit(i), EncodedOpen(o)] + more, room);
            x.outcome == Failure(CookieMismatch) && |x.sent| == 2 && x.sent[1] == CloseBatch(ReasonInvalid)
  {
    hide EncodedInit, EncodedOpen, EncodableInit, EncodableOpen, InitialSn, TakeInit, TakeOpen, HasQoSExt,
         MinResolution;
    NextBatches(EncodedInit(i), EncodedOpen(o), more);
    InitTaken(i, false, [EncodedInit(i), EncodedOpen(o)] + more);
    OpenTaken(o, false, Rest([EncodedInit(i), EncodedOpen(o)] + more));
    AckTravels(c, WireInit(i), cookie);
  }

  /** Whatever bytes it reads: a session is with another node that speaks our version and
      has returned the cookie, and nothing in it is above what either side offered. */
  lemma ResponderIsCareful(c: Config, hash: bytes -> uint64, cookie: bytes, inbound: seq<bytes>, room: nat)
    requires Respond(c, hash, cookie, inbound, room).outcome.Success?
    ensures var s := Respond(c, hash, cookie, inbound, room).outcome.value;
            && TakeInit(inbound, false).Success? && TakeOpen(Rest(inbound), false).Success?
            && TakeInit(inbound, false).value.version == ProtoVersion
            && TakeInit(inbound, false).value.zid == s.peerZid != c.zid
            && TakeOpen(Rest(inbound), false).value.cookie == cookie
            && IsLower(s.resolution, c, TakeInit(inbound, false).value) && s.batchSize <= c.batchSize
            && ValidZid(c.zid) && c.batchSize > 0 && c.lease > 0
  {
    hide EncodedInit, EncodedOpen, EncodableInit, EncodableOpen, InitialSn, TakeInit, TakeOpen, HasQoSExt, IsLower,
         MinResolution;
    if TakeInit(inbound, false).Success? {
      AgreedIsLower(c, TakeInit(inbound, false).value);
    }
  }

  /** A configuration without a valid ZID, a batch size or a lease fails before anything is
      read or written. */
  lemma FaultyConfig(c: Config, hash: bytes -> uint64, cookie: bytes, inbound: seq<bytes>, room: nat)
    requires !ValidZid(c.zid) || c.batchSize == 0 || c.lease == 0
    ensures var fault := if !ValidZid(c.zid) then BadZid else if c.batchSize == 0 then BadBatchSize else BadLease;
            Initiate(c, hash, inbound, room) == Respond(c, hash, cookie, inbound, room)
         == Exchange([], inbound, Failure(fault))
  {
  }

  // ----- a peer that refuses -----

  /** A CLOSE in place of an awaited message ends either role with its reason. */
  lemma CloseEndsHandshake(c: Config, hash: bytes -> uint64, cookie: bytes, session: bool, reason: byte, exts: Exts,
                           more: seq<bytes>, room: nat)
    requires c.Proper() && room >= 1 && EncodableExts(exts)
    ensures Initiate(c, hash, [EncodedClose(session, reason, exts)] + more, room).outcome == Failure(ClosedFor(reason))
    ensures Respond(c, hash, cookie, [EncodedClose(session, reason, exts)] + more, room).outcome
         == Failure(ClosedFor(reason))
  {
    hide EncodedInit, EncodedOpen, EncodableInit, EncodableOpen, EncodedClose, DecodeClose, DecodeHeader, HasQoSExt,
         DecodeInit, AfterInitAck, AfterInitSyn;
    var batch := EncodedClose(session, reason, exts);
    CloseRoundTrip(session, reason, exts, []);
    assert batch + [] == batch;
    SynTravels(c);
    assert Awaited(batch, IdInit) == Failure(ClosedFor(reason));
  }
}
