/**
 What the reader makes of well-formed batches: any number of FRAMEs and KEEPALIVEs
 in any order, optionally ended by one FRAGMENT (internal/session/reader.go).
 */
module BatchParsing {
  import opened Wrappers
  import opened Buffer
  import opened Extensions
  import opened WireTypes
  import opened TransportMessages
  import opened Reassembly
  import opened InboundReader
  import NM = NetworkMessages

  /** A message that has a wire form which is read back unambiguously. */
  predicate Sendable(m: Message) {
    NM.Encodable(m) && NM.Unambiguous(m)
  }

  predicate AllSendable(ms: seq<Message>) {
    forall i :: 0 <= i < |ms| ==> Sendable(ms[i])
  }

  function EncodedMessages(ms: seq<Message>): bytes
    requires AllSendable(ms)
  {
    if |ms| == 0 then [] else NM.Encoded(ms[0]) + EncodedMessages(ms[1..])
  }

  function OnWireAll(ms: seq<Message>): (ws: seq<Message>)
    ensures |ws| == |ms|
  {
    seq(|ms|, i requires 0 <= i < |ms| => NM.OnWire(ms[i]))
  }

  /** The dispatcher takes one message and leaves exactly what follows it. */
  lemma DispatchOne(m: Message, suffix: bytes)
    requires Sendable(m)
    ensures var s := NM.Encoded(m) + suffix;
            && AtNetworkMessage(s)
            && Dispatched(UnpackHeader(s[0]), s[1..]) == Ok([NM.OnWire(m)], suffix)
  {
    hide NM.Encoded, NM.EncodedFields, NM.Decode, UnpackHeader, NM.OnWire;
    var s := NM.Encoded(m) + suffix;
    NM.MessageInFront(m, suffix);
    NM.FieldsRoundTrip(m, suffix);
    assert UnpackHeader(s[0]) == NM.MessageHeader(m) && s[1..] == NM.EncodedFields(m) + suffix;
    assert s[0] % 32 == NM.MessageHeader(m).id by { HeaderId(s[0]); }
  }

  lemma HeaderId(b: byte)
    ensures UnpackHeader(b).id == b % 32
  {
  }

  lemma {:induction false} FrameMessagesParse(ms: seq<Message>, tail: bytes)
    requires AllSendable(ms) && !AtNetworkMessage(tail)
    ensures FrameMessages(EncodedMessages(ms) + tail) == Scan(OnWireAll(ms), tail, None)
    decreases |ms|
  {
    hide NM.Encoded, NM.OnWire, Dispatched, UnpackHeader, AtNetworkMessage;
    if |ms| == 0 {
      assert EncodedMessages(ms) + tail == tail;
    } else {
      var rest := EncodedMessages(ms[1..]) + tail;
      Fields2(NM.Encoded(ms[0]), EncodedMessages(ms[1..]), tail);
      DispatchOne(ms[0], rest);
      FrameMessagesParse(ms[1..], tail);
      assert OnWireAll(ms) == [NM.OnWire(ms[0])] + OnWireAll(ms[1..]);
    }
  }

  lemma {:induction false} BodyMessagesParse(ms: seq<Message>)
    requires AllSendable(ms)
    ensures BodyMessages(EncodedMessages(ms)) == Scan(OnWireAll(ms), [], None)
    decreases |ms|
  {
    hide NM.Encoded, NM.OnWire, Dispatched, UnpackHeader;
    if |ms| > 0 {
      DispatchOne(ms[0], EncodedMessages(ms[1..]));
      BodyMessagesParse(ms[1..]);
      assert OnWireAll(ms) == [NM.OnWire(ms[0])] + OnWireAll(ms[1..]);
    }
  }

  // ----- transport messages -----

  datatype Unit = FrameUnit(frame: Frame, msgs: seq<Message>) | KeepAliveUnit(exts: Exts)

  predicate ValidUnit(u: Unit) {
    match u
    case FrameUnit(f, ms) => EncodableExts(f.exts) && AllSendable(ms)
    case KeepAliveUnit(exts) => EncodableExts(exts)
  }

  function EncodedUnit(u: Unit): bytes
    requires ValidUnit(u)
  {
    match u
    case FrameUnit(f, ms) => EncodedFrame(f) + EncodedMessages(ms)
    case KeepAliveUnit(exts) => EncodedKeepAlive(exts)
  }

  /** What a unit adds to the dispatch log. */
  function UnitLog(u: Unit): seq<Delivery> {
    match u
    case FrameUnit(f, ms) =>
      Deliveries(LaneKey(LanePriority(WireExts(f.exts)), f.reliable), OnWireAll(ms))
    case KeepAliveUnit(_) => []
  }

  predicate ValidUnits(us: seq<Unit>) {
    forall i :: 0 <= i < |us| ==> ValidUnit(us[i])
  }

  function EncodedUnits(us: seq<Unit>): bytes
    requires ValidUnits(us)
  {
    if |us| == 0 then [] else EncodedUnit(us[0]) + EncodedUnits(us[1..])
  }

  function UnitsLog(us: seq<Unit>): seq<Delivery> {
    if |us| == 0 then [] else UnitLog(us[0]) + UnitsLog(us[1..])
  }

  function EncodedLast(last: Option<Fragment>): bytes
    requires last.Some? ==> EncodableExts(last.value.exts)
  {
    match last case None => [] case Some(f) => EncodedFragment(f)
  }

  lemma PackedId(h: Header)
    requires h.id < 32
    ensures PackHeader(h) % 32 == h.id
  {
    HeaderRoundTrip(h);
  }

  /** The header byte that an encoded transport message starts with. */
  lemma FirstBytes(u: Unit, f: Fragment)
    requires ValidUnit(u) && EncodableExts(f.exts)
    ensures |EncodedUnit(u)| > 0 && EncodedUnit(u)[0] % 32 in {IdFrame, IdKeepAlive}
    ensures EncodedFragment(f)[0] % 32 == IdFragment
  {
    hide PackHeader;
    PackedId(FragmentHeader(f));
    match u
    case FrameUnit(g, ms) => PackedId(FrameHeader(g));
    case KeepAliveUnit(exts) => PackedId(KeepAliveHeader(exts));
  }

  /** Transport ids are disjoint from network ids, so a unit never continues the
      FRAME before it. */
  lemma TransportBoundary(us: seq<Unit>, last: Option<Fragment>)
    requires ValidUnits(us) && (last.Some? ==> EncodableExts(last.value.exts))
    ensures !AtNetworkMessage(EncodedUnits(us) + EncodedLast(last))
  {
    hide EncodedUnit, EncodedFragment;
    if |us| > 0 {
      FirstBytes(us[0], Fragment(false, false, 0, [], []));
    } else if last.Some? {
      FirstBytes(KeepAliveUnit([]), last.value);
      assert EncodedUnits(us) + EncodedLast(last) == EncodedFragment(last.value);
    }
  }

  lemma UnitTaken(c: Limits, st: ReaderState, u: Unit, tail: bytes)
    requires ValidUnit(u) && !AtNetworkMessage(tail)
    ensures var s := EncodedUnit(u) + tail;
            && |s| > 0
            && TakeTransport(c, st, UnpackHeader(s[0]), s[1..]) == Continue(st.(log := st.log + UnitLog(u)), tail)
  {
    hide EncodedFrame, EncodedKeepAlive, FrameMessages, DecodeFrame, DecodeExtsIf, LanePriority, EncodedMessages,
         AtNetworkMessage, UnpackHeader;
    var s := EncodedUnit(u) + tail;
    match u
    case FrameUnit(f, ms) =>
      Fields2(EncodedFrame(f), EncodedMessages(ms), tail);
      FrameRoundTrip(f, EncodedMessages(ms) + tail);
      FrameMessagesParse(ms, tail);
    case KeepAliveUnit(exts) =>
      KeepAliveRoundTrip(exts, tail);
      assert st.log + [] == st.log;
  }

  lemma FragmentTaken(c: Limits, st: ReaderState, f: Fragment)
    requires EncodableExts(f.exts)
    ensures Processed(c, st, EncodedFragment(f)) == TakeFragment(c, st, f.(exts := WireExts(f.exts)))
  {
    hide EncodedFragment, DecodeFragment, TakeFragment, UnpackHeader;
    FragmentRoundTrip(f);
    ProcessedStep(c, st, EncodedFragment(f));
  }

  /** Multi-frame batches parse exactly: the reader dispatches the concatenation of
      the messages of all FRAMEs, each under the lane of its own FRAME, and then
      treats a closing FRAGMENT as if it had come alone. */
  lemma {:induction false} BatchParses(c: Limits, st: ReaderState, us: seq<Unit>, last: Option<Fragment>)
    requires ValidUnits(us) && (last.Some? ==> EncodableExts(last.value.exts))
    ensures Processed(c, st, EncodedUnits(us) + EncodedLast(last))
         == match last
            case None => (st.(log := st.log + UnitsLog(us)), Running)
            case Some(f) => TakeFragment(c, st.(log := st.log + UnitsLog(us)), f.(exts := WireExts(f.exts)))
    decreases |us|
  {
    hide EncodedUnit, TakeTransport, UnpackHeader, Processed, UnitLog, EncodedFragment, TakeFragment, AtNetworkMessage;
    var tail := EncodedLast(last);
    if |us| == 0 {
      assert EncodedUnits(us) + tail == tail;
      assert st.log + [] == st.log;
      match last
      case None => NothingToProcess(c, st);
      case Some(f) => FragmentTaken(c, st, f);
    } else {
      var u, rest := us[0], EncodedUnits(us[1..]) + tail;
      Fields2(EncodedUnit(u), EncodedUnits(us[1..]), tail);
      TransportBoundary(us[1..], last);
      UnitTaken(c, st, u, rest);
      ProcessedStep(c, st, EncodedUnit(u) + rest);
      BatchParses(c, st.(log := st.log + UnitLog(u)), us[1..], last);
      assert st.log + (UnitLog(u) + UnitsLog(us[1..])) == (st.log + UnitLog(u)) + UnitsLog(us[1..]);
    }
  }
}
