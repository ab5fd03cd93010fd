/**
 How a batch ends before its last byte (internal/session/reader.go:94-213): at a CLOSE, at
 a message that the reader does not know or cannot decode, at an OAM, or at a FRAGMENT.
 What came before has been dispatched; what comes after is not.
 */
module BatchEndings {
  import opened Wrappers
  import opened Buffer
  import opened Extensions
  import opened WireTypes
  import opened TransportMessages
  import opened Reassembly
  import opened InboundReader
  import opened BatchParsing
  import NM = NetworkMessages

  /** The units of a batch in front of any transport message. */
  lemma {:induction false} UnitsInFront(c: Limits, st: ReaderState, us: seq<Unit>, tail: bytes)
    requires ValidUnits(us) && !AtNetworkMessage(tail)
    ensures Processed(c, st, EncodedUnits(us) + tail) == Processed(c, st.(log := st.log + UnitsLog(us)), tail)
    ensures !AtNetworkMessage(EncodedUnits(us) + tail)
    decreases |us|
  {
    hide EncodedUnit, TakeTransport, UnpackHeader, Processed, UnitLog;
    if |us| == 0 {
      assert EncodedUnits(us) + tail == tail;
      assert st.log + [] == st.log;
    } else {
      var u, rest := us[0], EncodedUnits(us[1..]) + tail;
      Fields2(EncodedUnit(u), EncodedUnits(us[1..]), tail);
      UnitsInFront(c, st.(log := st.log + UnitLog(u)), us[1..], tail);
      UnitTaken(c, st, u, rest);
      ProcessedStep(c, st, EncodedUnit(u) + rest);
      assert st.log + (UnitLog(u) + UnitsLog(us[1..])) == (st.log + UnitLog(u)) + UnitsLog(us[1..]);
      FirstBytes(u, Fragment(false, false, 0, [], []));
    }
  }

  lemma CloseTaken(c: Limits, st: ReaderState, session: bool, reason: byte, exts: Exts, tail: bytes)
    requires EncodableExts(exts)
    ensures var s := EncodedClose(session, reason, exts) + tail;
            Processed(c, st, s) == (st, Closed(reason)) && !AtNetworkMessage(s)
  {
    hide PackHeader, DecodeClose, DecodeHeader, Processed, AtNetworkMessage, TakeFrame, TakeFragment, DecodeFragment,
         DecodeExtsIf, UnpackHeader, EncodedExts;
    CloseRoundTrip(session, reason, exts, tail);
    var s := EncodedClose(session, reason, exts) + tail;
    assert s[1..] == [reason] + (EncodedExts(exts) + tail);
    StopAt(c, st, s, CloseHeader(session, exts));
  }

  /** A first message that stops the reader. */
  lemma StopAt(c: Limits, st: ReaderState, s: bytes, h: Header)
    requires |s| > 0 && DecodeHeader(s) == Ok(h, s[1..])
    ensures TakeTransport(c, st, h, s[1..]).Stop? ==>
              var a := TakeTransport(c, st, h, s[1..]);
              Processed(c, st, s) == (a.st, a.status)
    ensures !IsNetworkId(h.id) ==> !AtNetworkMessage(s)
  {
    hide TakeTransport;
    HeaderId(s[0]);
  }

  /** At a CLOSE, whatever its scope and extensions, everything before it has been
      dispatched and the reader stops for its reason, whatever follows. */
  lemma CloseEndsBatch(c: Limits, st: ReaderState, us: seq<Unit>, session: bool, reason: byte, exts: Exts, tail: bytes)
    requires ValidUnits(us) && EncodableExts(exts)
    ensures Processed(c, st, EncodedUnits(us) + (EncodedClose(session, reason, exts) + tail))
         == (st.(log := st.log + UnitsLog(us)), Closed(reason))
  {
    hide EncodedUnits, EncodedClose, Processed, AtNetworkMessage, UnitsLog;
    var st' := st.(log := st.log + UnitsLog(us));
    CloseTaken(c, st', session, reason, exts, tail);
    UnitsInFront(c, st, us, EncodedClose(session, reason, exts) + tail);
  }

  /** ... and no later batch is looked at. */
  lemma CloseEndsReading(c: Limits, st: ReaderState, us: seq<Unit>, session: bool, reason: byte, exts: Exts,
                         tail: bytes, later: seq<bytes>)
    requires ValidUnits(us) && EncodableExts(exts)
    ensures Received(c, st, [EncodedUnits(us) + (EncodedClose(session, reason, exts) + tail)] + later)
         == (st.(log := st.log + UnitsLog(us)), Closed(reason))
  {
    hide EncodedUnits, EncodedClose, Processed, UnitsLog;
    CloseEndsBatch(c, st, us, session, reason, exts, tail);
  }

  /** The same for the object, which also records the reason. */
  method ReadUntilClose(inbound: Inbound, batches: seq<bytes>, ghost us: seq<Unit>, ghost session: bool,
                        ghost reason: byte, ghost exts: Exts, ghost tail: bytes)
    returns (status: Status)
    requires ValidUnits(us) && EncodableExts(exts) && |batches| > 0
    requires batches[0] == EncodedUnits(us) + (EncodedClose(session, reason, exts) + tail)
    modifies inbound, inbound.reassembler
    ensures status == Closed(reason) && inbound.closeReason == Some(reason)
    ensures inbound.log == old(inbound.log) + UnitsLog(us)
    ensures inbound.reassembler.lanes == old(inbound.reassembler.lanes)
  {
    hide EncodedUnits, EncodedClose, Received, UnitsLog;
    CloseEndsReading(inbound.Limits(), inbound.State(), us, session, reason, exts, tail, batches[1..]);
    assert batches == [batches[0]] + batches[1..];
    status := inbound.Run(batches);
  }

  /** A message of any other kind ends the batch, and the link, with an error. */
  lemma UnknownEndsBatch(c: Limits, st: ReaderState, us: seq<Unit>, tail: bytes)
    requires ValidUnits(us) && |tail| > 0
    requires !IsNetworkId(tail[0] % 32) && tail[0] % 32 !in {IdKeepAlive, IdClose, IdFrame, IdFragment}
    ensures Processed(c, st, EncodedUnits(us) + tail) == (st.(log := st.log + UnitsLog(us)), Failed(UnexpectedId))
  {
    hide EncodedUnits, UnitsLog, TakeTransport;
    UnitsInFront(c, st, us, tail);
    var st' := st.(log := st.log + UnitsLog(us));
    HeaderId(tail[0]);
    ProcessedStep(c, st', tail);
    UnknownTaken(c, st', UnpackHeader(tail[0]), tail[1..]);
  }

  lemma UnknownTaken(c: Limits, st: ReaderState, h: Header, s: bytes)
    requires h.id !in {IdKeepAlive, IdClose, IdFrame, IdFragment}
    ensures TakeTransport(c, st, h, s) == Stop(st, Failed(UnexpectedId))
  {
  }

  /** A message of a known kind that cannot be decoded up to the body it carries. */
  predicate Malformed(h: Header, s: bytes, e: CodecError) {
    || (h.id == IdKeepAlive && DecodeExtsIf(h.z, s) == Bad(e))
    || (h.id == IdClose && DecodeClose(h, s) == Bad(e))
    || (h.id == IdFrame && DecodeFrame(h, s) == Bad(e))
    || (h.id == IdFragment && DecodeFragment(h, s) == Bad(e))
  }

  /** So does one that is malformed. */
  lemma MalformedEndsBatch(c: Limits, st: ReaderState, us: seq<Unit>, tail: bytes, e: CodecError)
    requires ValidUnits(us) && |tail| > 0 && Malformed(UnpackHeader(tail[0]), tail[1..], e)
    ensures Processed(c, st, EncodedUnits(us) + tail) == (st.(log := st.log + UnitsLog(us)), Failed(e))
  {
    hide EncodedUnits, UnitsLog, TakeTransport, DecodeExtsIf, DecodeClose, DecodeFrame, DecodeFragment;
    HeaderId(tail[0]);
    UnitsInFront(c, st, us, tail);
    var st' := st.(log := st.log + UnitsLog(us));
    ProcessedStep(c, st', tail);
    MalformedTaken(c, st', UnpackHeader(tail[0]), tail[1..], e);
  }

  lemma MalformedTaken(c: Limits, st: ReaderState, h: Header, s: bytes, e: CodecError)
    requires Malformed(h, s, e)
    ensures TakeTransport(c, st, h, s) == Stop(st, Failed(e))
  {
    hide DecodeExtsIf, DecodeClose, DecodeFrame, DecodeFragment;
  }

  /** The reader goes on to the next batch exactly when the last one has left it running. */
  lemma ReadingGoesOn(c: Limits, st: ReaderState, batch: bytes, later: seq<bytes>)
    ensures var (st', status) := Processed(c, st, batch);
            Received(c, st, [batch] + later) == if status == Running then Received(c, st', later) else (st', status)
  {
    hide Processed;
    assert ([batch] + later)[1..] == later;
  }

  // ----- inside a FRAME or a reassembled body -----

  lemma {:induction false} MessagesInFront(ms: seq<Message>, tail: bytes)
    requires AllSendable(ms)
    ensures FrameMessages(EncodedMessages(ms) + tail) == Then(OnWireAll(ms), FrameMessages(tail))
    ensures BodyMessages(EncodedMessages(ms) + tail) == Then(OnWireAll(ms), BodyMessages(tail))
    decreases |ms|
  {
    hide NM.Encoded, NM.OnWire, Dispatched, UnpackHeader, AtNetworkMessage;
    if |ms| == 0 {
      assert EncodedMessages(ms) + tail == tail;
      assert OnWireAll(ms) == [];
    } else {
      var rest := EncodedMessages(ms[1..]) + tail;
      Fields2(NM.Encoded(ms[0]), EncodedMessages(ms[1..]), tail);
      DispatchOne(ms[0], rest);
      MessagesInFront(ms[1..], tail);
      assert OnWireAll(ms) == [NM.OnWire(ms[0])] + OnWireAll(ms[1..]);
      ThenThen([NM.OnWire(ms[0])], OnWireAll(ms[1..]), FrameMessages(tail));
      ThenThen([NM.OnWire(ms[0])], OnWireAll(ms[1..]), BodyMessages(tail));
    }
  }

  /** What a decoder makes of the first message of `s`. */
  predicate Undecodable(s: bytes, e: CodecError) {
    |s| > 0 && Dispatched(UnpackHeader(s[0]), s[1..]) == Bad(e)
  }

  /** Everything in front of an undecodable message counts, and nothing after it. */
  lemma ErrorEndsMessages(ms: seq<Message>, bad: bytes, e: CodecError)
    requires AllSendable(ms) && Undecodable(bad, e)
    ensures BodyMessages(EncodedMessages(ms) + bad) == Scan(OnWireAll(ms), [], Some(e))
    ensures AtNetworkMessage(bad) ==> FrameMessages(EncodedMessages(ms) + bad) == Scan(OnWireAll(ms), [], Some(e))
  {
    hide NM.Encoded, NM.OnWire, Dispatched, UnpackHeader, AtNetworkMessage, EncodedMessages;
    MessagesInFront(ms, bad);
    assert OnWireAll(ms) + [] == OnWireAll(ms);
  }

  /** An OAM has no length: it takes what is left, and is no error. */
  lemma OamEndsMessages(ms: seq<Message>, oam: bytes)
    requires AllSendable(ms) && |oam| > 0 && oam[0] % 32 == IdNetworkOam
    ensures FrameMessages(EncodedMessages(ms) + oam) == Scan(OnWireAll(ms), [], None)
    ensures BodyMessages(EncodedMessages(ms) + oam) == Scan(OnWireAll(ms), [], None)
  {
    hide NM.Encoded, NM.OnWire, EncodedMessages, UnpackHeader;
    MessagesInFront(ms, oam);
    HeaderId(oam[0]);
    assert OnWireAll(ms) + [] == OnWireAll(ms);
    assert FrameMessages([]) == Scan([], [], None);
  }

  function LaneOf(f: Frame): LaneKey {
    LaneKey(LanePriority(WireExts(f.exts)), f.reliable)
  }

  lemma FrameTaken(c: Limits, st: ReaderState, f: Frame, body: bytes)
    requires EncodableExts(f.exts)
    ensures var s := EncodedFrame(f) + body;
            var scan := FrameMessages(body);
            var st' := st.(log := st.log + Deliveries(LaneOf(f), scan.msgs));
            && !AtNetworkMessage(s)
            && Processed(c, st, s) == if scan.error.Some? then (st', Failed(scan.error.value))
                                      else Processed(c, st', scan.rest)
  {
    hide EncodedFrame, DecodeFrame, FrameMessages, Processed, LanePriority, UnpackHeader, Deliveries;
    var s := EncodedFrame(f) + body;
    FrameRoundTrip(f, body);
    ProcessedStep(c, st, s);
    FrameUnitFirst(f, body);
  }

  lemma FrameUnitFirst(f: Frame, body: bytes)
    requires EncodableExts(f.exts)
    ensures !AtNetworkMessage(EncodedFrame(f) + body)
  {
    hide PackHeader;
    PackedId(FrameHeader(f));
  }

  /** An undecodable message in a FRAME ends the batch with its error, after what came
      before it. */
  lemma ErrorEndsBatch(c: Limits, st: ReaderState, us: seq<Unit>, f: Frame, ms: seq<Message>, bad: bytes,
                       e: CodecError)
    requires ValidUnits(us) && EncodableExts(f.exts) && AllSendable(ms) && AtNetworkMessage(bad) && Undecodable(bad, e)
    ensures Processed(c, st, EncodedUnits(us) + (EncodedFrame(f) + (EncodedMessages(ms) + bad)))
         == (st.(log := st.log + UnitsLog(us) + Deliveries(LaneOf(f), OnWireAll(ms))), Failed(e))
  {
    hide EncodedUnits, UnitsLog, EncodedFrame, EncodedMessages, Processed, AtNetworkMessage, Undecodable, Deliveries,
         FrameMessages, OnWireAll, LaneOf;
    ErrorEndsMessages(ms, bad, e);
    FrameTaken(c, st.(log := st.log + UnitsLog(us)), f, EncodedMessages(ms) + bad);
    UnitsInFront(c, st, us, EncodedFrame(f) + (EncodedMessages(ms) + bad));
  }

  /** An OAM in a FRAME ends the batch quietly: the reader goes on with the next one. */
  lemma OamEndsBatch(c: Limits, st: ReaderState, us: seq<Unit>, f: Frame, ms: seq<Message>, oam: bytes)
    requires ValidUnits(us) && EncodableExts(f.exts) && AllSendable(ms) && |oam| > 0 && oam[0] % 32 == IdNetworkOam
    ensures Processed(c, st, EncodedUnits(us) + (EncodedFrame(f) + (EncodedMessages(ms) + oam)))
         == (st.(log := st.log + UnitsLog(us) + Deliveries(LaneOf(f), OnWireAll(ms))), Running)
  {
    hide EncodedUnits, UnitsLog, EncodedFrame, EncodedMessages, Processed, AtNetworkMessage, Deliveries, FrameMessages,
         OnWireAll, LaneOf;
    OamEndsMessages(ms, oam);
    FrameTaken(c, st.(log := st.log + UnitsLog(us)), f, EncodedMessages(ms) + oam);
    UnitsInFront(c, st, us, EncodedFrame(f) + (EncodedMessages(ms) + oam));
    NothingToProcess(c, st.(log := st.log + UnitsLog(us) + Deliveries(LaneOf(f), OnWireAll(ms))));
  }

  // ----- FRAGMENTs -----

  /** The fragment as the reassembler sees it. */
  function WireArrival(f: Fragment): Arrival {
    ArrivalOf(f.(exts := WireExts(f.exts)))
  }

  /** A fragment that completes nothing, be it for a gap or for the cap, dispatches nothing
      and leaves the reader running. */
  lemma FragmentKeepsRunning(c: Limits, st: ReaderState, us: seq<Unit>, f: Fragment)
    requires ValidUnits(us) && EncodableExts(f.exts)
    requires !Pushed(c, st.lanes, WireArrival(f)).1.Completed?
    ensures Processed(c, st, EncodedUnits(us) + EncodedFragment(f))
         == (ReaderState(Pushed(c, st.lanes, WireArrival(f)).0, st.log + UnitsLog(us)), Running)
  {
    hide EncodedUnits, UnitsLog, EncodedFragment, Processed, Pushed, ArrivalOf;
    BatchParses(c, st, us, Some(f));
  }

  /** A fragment that completes a body dispatches what is in it; an undecodable message
      in there is an error of the link. */
  lemma FragmentCompletes(c: Limits, st: ReaderState, us: seq<Unit>, f: Fragment, ms: seq<Message>, bad: bytes,
                          e: CodecError)
    requires ValidUnits(us) && EncodableExts(f.exts) && AllSendable(ms) && (bad == [] || Undecodable(bad, e))
    requires Pushed(c, st.lanes, WireArrival(f)).1 == Completed(EncodedMessages(ms) + bad)
    ensures Processed(c, st, EncodedUnits(us) + EncodedFragment(f))
         == (ReaderState(Pushed(c, st.lanes, WireArrival(f)).0,
                         st.log + UnitsLog(us) + Deliveries(WireArrival(f).lane, OnWireAll(ms))),
             if bad == [] then Running else Failed(e))
  {
    hide EncodedUnits, UnitsLog, EncodedFragment, Processed, Pushed, ArrivalOf, EncodedMessages, BodyMessages,
         OnWireAll, Deliveries, Undecodable;
    BatchParses(c, st, us, Some(f));
    if bad == [] {
      assert EncodedMessages(ms) + [] == EncodedMessages(ms);
      BodyMessagesParse(ms);
    } else {
      ErrorEndsMessages(ms, bad, e);
    }
  }
}
