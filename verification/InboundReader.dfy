/**
 The inbound side of a session (internal/session/reader.go, the decoding part of
 dispatch.go): batches are taken apart into FRAMEs, FRAGMENTs and signalling
 messages, and the network messages inside are dispatched in order.
 */
module InboundReader {
  import opened Wrappers
  import opened Buffer
  import opened Extensions
  import opened WireTypes
  import opened TransportMessages
  import opened Reassembly
  import NM = NetworkMessages
  import MessageCodec

  type Message = NM.Message

  /** A dispatched message and the lane of the FRAME or FRAGMENTs it came in. */
  datatype Delivery = Delivery(lane: LaneKey, msg: Message)

  datatype Status = Running | Closed(reason: byte) | Failed(error: CodecError)

  datatype ReaderState = ReaderState(lanes: States, log: seq<Delivery>)

  // ----- network messages -----

  /** One network message after its header. An OAM has no length, so the
      dispatcher skips everything that is left. */
  function Dispatched(h: Header, s: bytes): (p: Parse<seq<Message>>)
    ensures p.Ok? && |s| > 0 ==> |p.rest| < |s|
    ensures p.Ok? ==> |p.rest| <= |s|
  {
    if h.id == IdNetworkOam then Ok([], [])
    else
      var (m, rest) :- NM.Decode(h, s);
      Ok([m], rest)
  }

  /** The messages up to the end or to an error, and the bytes left unread. */
  datatype Scan = Scan(msgs: seq<Message>, rest: bytes, error: Option<CodecError>)

  function Then(msgs: seq<Message>, s: Scan): Scan {
    s.(msgs := msgs + s.msgs)
  }

  predicate AtNetworkMessage(s: bytes) {
    |s| > 0 && IsNetworkId(s[0] % 32)
  }

  /** A FRAME body ends with the batch or at the first byte that is no network
      message header. */
  function FrameMessages(s: bytes): (r: Scan)
    ensures |r.rest| <= |s|
    decreases |s|
  {
    if !AtNetworkMessage(s) then Scan([], s, None)
    else
      match Dispatched(UnpackHeader(s[0]), s[1..])
      case Bad(e) => Scan([], [], Some(e))
      case Ok(msgs, rest) => Then(msgs, FrameMessages(rest))
  }

  /** A reassembled body holds nothing but network messages. */
  function BodyMessages(s: bytes): Scan
    decreases |s|
  {
    if |s| == 0 then Scan([], [], None)
    else
      match Dispatched(UnpackHeader(s[0]), s[1..])
      case Bad(e) => Scan([], [], Some(e))
      case Ok(msgs, rest) => Then(msgs, BodyMessages(rest))
  }

  function Deliveries(lane: LaneKey, msgs: seq<Message>): (ds: seq<Delivery>)
    ensures |ds| == |msgs|
  {
    seq(|msgs|, i requires 0 <= i < |msgs| => Delivery(lane, msgs[i]))
  }

  function StatusOf(error: Option<CodecError>): Status {
    match error case None => Running case Some(e) => Failed(e)
  }

  // ----- batches -----

  function ArrivalOf(f: Fragment): Arrival {
    Arrival(LaneKey(LanePriority(f.exts), f.reliable), f.sn, f.more, f.body)
  }

  /** A gap or an oversized message resets the lane but keeps the link. */
  function TakeFragment(c: Limits, st: ReaderState, f: Fragment): (ReaderState, Status) {
    var a := ArrivalOf(f);
    var (lanes, r) := Pushed(c, st.lanes, a);
    match r
    case Completed(body) =>
      var scan := BodyMessages(body);
      (ReaderState(lanes, st.log + Deliveries(a.lane, scan.msgs)), StatusOf(scan.error))
    case _ => (st.(lanes := lanes), Running)
  }

  /** After one transport message the batch is either done with or goes on. */
  datatype Advance = Stop(st: ReaderState, status: Status) | Continue(st: ReaderState, rest: bytes)

  function TakeFrame(st: ReaderState, h: Header, s: bytes): (a: Advance)
    ensures a.Continue? ==> |a.rest| <= |s|
  {
    match DecodeFrame(h, s)
    case Bad(e) => Stop(st, Failed(e))
    case Ok(f, rest) =>
      var scan := FrameMessages(rest);
      var st' := st.(log := st.log + Deliveries(LaneKey(LanePriority(f.exts), f.reliable), scan.msgs));
      if scan.error.Some? then Stop(st', Failed(scan.error.value)) else Continue(st', scan.rest)
  }

  /** One transport message after its header. */
  function TakeTransport(c: Limits, st: ReaderState, h: Header, s: bytes): (a: Advance)
    ensures a.Continue? ==> |a.rest| <= |s|
  {
    if h.id == IdKeepAlive then
      match DecodeExtsIf(h.z, s)
      case Bad(e) => Stop(st, Failed(e))
      case Ok(_, rest) => Continue(st, rest)
    else if h.id == IdClose then
      match DecodeClose(h, s)
      case Bad(e) => Stop(st, Failed(e))
      case Ok(reason, _) => Stop(st, Closed(reason))
    else if h.id == IdFrame then TakeFrame(st, h, s)
    else if h.id == IdFragment then
      match DecodeFragment(h, s)
      case Bad(e) => Stop(st, Failed(e))
      case Ok(f, _) =>
        var (st', status) := TakeFragment(c, st, f);
        Stop(st', status)
    else Stop(st, Failed(UnexpectedId))
  }

  function Processed(c: Limits, st: ReaderState, s: bytes): (ReaderState, Status)
    decreases |s|
  {
    match DecodeHeader(s)
    case Bad(_) => (st, Running)
    case Ok(h, rest) =>
      match TakeTransport(c, st, h, rest)
      case Stop(st', status) => (st', status)
      case Continue(st', rest') => Processed(c, st', rest')
  }

  /** Batches as they come off the link, until one stops the reader. */
  function Received(c: Limits, st: ReaderState, batches: seq<bytes>): (ReaderState, Status)
    decreases |batches|
  {
    if |batches| == 0 then (st, Running)
    else
      var (st', status) := Processed(c, st, batches[0]);
      if status.Running? then Received(c, st', batches[1..]) else (st', status)
  }

  class Inbound {
    const reassembler: Reassembler
    var log: seq<Delivery>
    var closeReason: Option<byte>

    constructor (maxSize: nat, snMask: uint64)
      ensures fresh(reassembler) && State() == ReaderState(map[], []) && closeReason == None
      ensures Limits() == Reassembly.Limits(maxSize, SequenceNumbers.NormalizeMask(snMask))
    {
      reassembler := new Reassembler(maxSize, snMask);
      log, closeReason := [], None;
    }

    function Limits(): Limits {
      reassembler.limits
    }

    function State(): ReaderState
      reads this, reassembler
    {
      ReaderState(reassembler.lanes, log)
    }

    /** Decodes one network message and hands it to the session. */
    method Dispatch(lane: LaneKey, h: Header, r: Reader) returns (res: Result<seq<Message>, CodecError>)
      requires r.Valid()
      modifies this`log, r
      ensures r.Agrees(res, Dispatched(h, old(r.Rest())))
      ensures log == old(log) + if res.Success? then Deliveries(lane, res.value) else []
    {
      if h.id == IdNetworkOam {
        r.SkipRest();
        return Success([]);
      }
      var m :- MessageCodec.ReadMessage(r, h);
      log := log + [Delivery(lane, m)];
      res := Success([m]);
    }

    method DispatchFrameMessages(lane: LaneKey, r: Reader) returns (error: Option<CodecError>)
      requires r.Valid()
      modifies this`log, r
      ensures r.Valid()
      ensures var scan := FrameMessages(old(r.Rest()));
              && error == scan.error
              && log == old(log) + Deliveries(lane, scan.msgs)
              && (error.None? ==> r.Rest() == scan.rest)
    {
      hide Dispatched, UnpackHeader, Deliveries;
      ghost var done: seq<Message> := [];
      NoDeliveries(lane);
      while r.Len() > 0
        invariant r.Valid() && log == old(log) + Deliveries(lane, done)
        invariant FrameMessages(old(r.Rest())) == Then(done, FrameMessages(r.Rest()))
        decreases r.Len()
      {
        assert done + [] == done;
        var b := r.PeekByte();
        if !IsNetworkId(b.value % 32) {
          return None;
        }
        var h := ReadHeader(r);
        ghost var before := r.Len();
        var res := Dispatch(lane, h.value, r);
        if res.Failure? {
          return Some(res.error);
        }
        // The safety net against a dispatcher that consumes nothing never fires.
        assert !(r.Len() > 0 && r.Len() == before);
        ThenThen(done, res.value, FrameMessages(r.Rest()));
        DeliveriesAppend(lane, done, res.value);
        done := done + res.value;
      }
      assert done + [] == done;
      error := None;
    }

    method DispatchFrameBody(lane: LaneKey, body: bytes) returns (error: Option<CodecError>)
      modifies this`log
      ensures var scan := BodyMessages(body);
              error == scan.error && log == old(log) + Deliveries(lane, scan.msgs)
    {
      hide Dispatched, UnpackHeader, Deliveries;
      var r := new Reader(body);
      ghost var done: seq<Message> := [];
      NoDeliveries(lane);
      while r.Len() > 0
        invariant r.Valid() && log == old(log) + Deliveries(lane, done)
        invariant BodyMessages(body) == Then(done, BodyMessages(r.Rest()))
        decreases r.Len()
      {
        assert done + [] == done;
        var h := ReadHeader(r);
        var res := Dispatch(lane, h.value, r);
        if res.Failure? {
          return Some(res.error);
        }
        ThenThen(done, res.value, BodyMessages(r.Rest()));
        DeliveriesAppend(lane, done, res.value);
        done := done + res.value;
      }
      assert done + [] == done;
      error := None;
    }

    method TakeFragmentIn(f: Fragment) returns (status: Status)
      modifies this`log, reassembler
      ensures (State(), status) == TakeFragment(Limits(), old(State()), f) && !status.Closed?
    {
      var a := ArrivalOf(f);
      var res := reassembler.Push(a);
      if !res.Completed? {
        return Running;
      }
      var error := DispatchFrameBody(a.lane, res.body);
      status := StatusOf(error);
    }

    /** The stopping status, or none if the batch goes on where the reader stands. */
    ghost predicate Took(stop: Option<Status>, a: Advance, r: Reader)
      reads this, reassembler, r
    {
      r.Valid() &&
      match a
      case Stop(st, status) => stop == Some(status) && State() == st
      case Continue(st, rest) => stop == None && State() == st && r.Rest() == rest
    }

    method ReadTransport(h: Header, r: Reader) returns (stop: Option<Status>)
      requires r.Valid()
      modifies this`log, this`closeReason, reassembler, r
      ensures Took(stop, TakeTransport(Limits(), old(State()), h, old(r.Rest())), r)
      ensures closeReason == if stop.Some? && stop.value.Closed? then Some(stop.value.reason) else old(closeReason)
    {
      hide DecodeExtsIf, DecodeClose, DecodeFrame, DecodeFragment, TakeFragment, FrameMessages, Deliveries;
      if h.id == IdKeepAlive {
        var exts := ReadExtensionsIf(r, h.z);
        return if exts.Failure? then Some(Failed(exts.error)) else None;
      } else if h.id == IdClose {
        var reason := ReadClose(r, h);
        if reason.Failure? {
          return Some(Failed(reason.error));
        }
        closeReason := Some(reason.value);
        return Some(Closed(reason.value));
      } else if h.id == IdFrame {
        var f := ReadFrame(r, h);
        if f.Failure? {
          return Some(Failed(f.error));
        }
        var error := DispatchFrameMessages(LaneKey(LanePriority(f.value.exts), f.value.reliable), r);
        return if error.Some? then Some(Failed(error.value)) else None;
      } else if h.id == IdFragment {
        var f := ReadFragment(r, h);
        if f.Failure? {
          return Some(Failed(f.error));
        }
        var status := TakeFragmentIn(f.value);
        return Some(status);
      }
      stop := Some(Failed(UnexpectedId));
    }

    /** One batch: transport messages one after another. */
    method ProcessBatch(batch: bytes) returns (status: Status)
      modifies this, reassembler
      ensures State() == Processed(Limits(), old(State()), batch).0
      ensures status == Processed(Limits(), old(State()), batch).1
      ensures closeReason == if status.Closed? then Some(status.reason) else old(closeReason)
    {
      hide TakeTransport, Processed;
      var r := new Reader(batch);
      ghost var goal := Processed(Limits(), State(), batch);
      while r.Len() > 0
        invariant r.Valid() && closeReason == old(closeReason)
        invariant goal == Processed(Limits(), State(), r.Rest())
        decreases r.Len()
      {
        ProcessedStep(Limits(), State(), r.Rest());
        var h := ReadHeader(r);
        var stop := ReadTransport(h.value, r);
        if stop.Some? {
          return stop.value;
        }
      }
      assert r.Rest() == [];
      NothingToProcess(Limits(), State());
      status := Running;
    }

    /** The reader loop over the batches a link yields; it ends with the link or at
        the first batch that stops it. */
    method Run(batches: seq<bytes>) returns (status: Status)
      modifies this, reassembler
      ensures State() == Received(Limits(), old(State()), batches).0
      ensures status == Received(Limits(), old(State()), batches).1
      ensures closeReason == if status.Closed? then Some(status.reason) else old(closeReason)
    {
      hide Processed;
      ghost var goal := Received(Limits(), State(), batches);
      for i := 0 to |batches|
        invariant goal == Received(Limits(), State(), batches[i..]) && closeReason == old(closeReason)
      {
        assert batches[i..][0] == batches[i] && batches[i..][1..] == batches[i + 1..];
        status := ProcessBatch(batches[i]);
        if !status.Running? {
          return;
        }
      }
      status := Running;
    }
  }

  lemma ProcessedStep(c: Limits, st: ReaderState, s: bytes)
    requires |s| > 0
    ensures var h := UnpackHeader(s[0]);
            Processed(c, st, s) == match TakeTransport(c, st, h, s[1..])
                                   case Stop(st', status) => (st', status)
                                   case Continue(st', rest) => Processed(c, st', rest)
  {
    hide TakeTransport, UnpackHeader;
  }

  lemma NothingToProcess(c: Limits, st: ReaderState)
    ensures Processed(c, st, []) == (st, Running)
  {
  }

  lemma ThenThen(a: seq<Message>, b: seq<Message>, s: Scan)
    ensures Then(a, Then(b, s)) == Then(a + b, s)
  {
    assert a + (b + s.msgs) == a + b + s.msgs;
  }

  lemma NoDeliveries(lane: LaneKey)
    ensures Deliveries(lane, []) == []
  {
  }

  lemma DeliveriesAppend(lane: LaneKey, a: seq<Message>, b: seq<Message>)
    ensures Deliveries(lane, a + b) == Deliveries(lane, a) + Deliveries(lane, b)
  {
  }
}
