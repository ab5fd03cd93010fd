/**
 The outbound and the inbound pipeline put together: what is enqueued on one side
 is what is dispatched on the other, lane by lane.
 */
module EndToEnd {
  import opened Wrappers
  import opened Buffer
  import opened Extensions
  import opened TransportMessages
  import opened SequenceNumbers
  import opened Lanes
  import opened Batching
  import opened OutboundWriter
  import opened Reassembly
  import opened InboundReader
  import opened BatchParsing
  import NM = NetworkMessages

  // ----- what the session sends -----

  datatype Outgoing =
    | Send(msg: Message, lane: LaneKey, express: bool)
    | KeepAlive(exts: Exts)
    | Nothing

  /** A session may send this: the message is encodable and within the peer's
      reassembly cap. */
  predicate Admissible(lim: Limits, o: Outgoing) {
    match o
    case Send(m, _, _) => Sendable(m) && |NM.Encoded(m)| <= lim.maxSize
    case KeepAlive(exts) => EncodableExts(exts)
    case Nothing => true
  }

  function ItemOf(o: Outgoing): OutboundItem
    requires o.Send? ==> NM.Encodable(o.msg)
    requires o.KeepAlive? ==> EncodableExts(o.exts)
  {
    match o
    case Send(m, k, express) => NetworkItem(OutboundMessage(NM.Encoded(m), k.priority, k.reliable, express))
    case KeepAlive(exts) => RawItem(EncodedKeepAlive(exts))
    case Nothing => EmptyItem
  }

  /** The messages sent on one lane, in order. */
  function SentOn(os: seq<Outgoing>, k: LaneKey): seq<Message> {
    if |os| == 0 then []
    else SentOn(os[..|os| - 1], k) + match os[|os| - 1] case Send(m, j, _) => (if j == k then [m] else []) case _ => []
  }

  /** The messages dispatched on one lane, in order. */
  function LoggedOn(log: seq<Delivery>, k: LaneKey): seq<Message> {
    if |log| == 0 then []
    else LoggedOn(log[..|log| - 1], k) + if log[|log| - 1].lane == k then [log[|log| - 1].msg] else []
  }

  lemma {:induction false} LoggedAppend(a: seq<Delivery>, b: seq<Delivery>, k: LaneKey)
    ensures LoggedOn(a + b, k) == LoggedOn(a, k) + LoggedOn(b, k)
    decreases |b|
  {
    if |b| == 0 {
      assert a + b == a;
    } else {
      assert (a + b)[..|a + b| - 1] == a + b[..|b| - 1];
      LoggedAppend(a, b[..|b| - 1], k);
    }
  }

  lemma LastDelivery(lane: LaneKey, ms: seq<Message>)
    requires |ms| > 0
    ensures var n := |ms| - 1;
            Deliveries(lane, ms)[..n] == Deliveries(lane, ms[..n]) && Deliveries(lane, ms)[n] == Delivery(lane, ms[n])
  {
  }

  lemma {:induction false} LoggedDeliveries(lane: LaneKey, ms: seq<Message>, k: LaneKey)
    ensures LoggedOn(Deliveries(lane, ms), k) == if lane == k then ms else []
    decreases |ms|
  {
    if |ms| > 0 {
      var n := |ms| - 1;
      hide Deliveries;
      LastDelivery(lane, ms);
      LoggedDeliveries(lane, ms[..n], k);
      assert ms == ms[..n] + [ms[n]];
    }
  }

  lemma OnWireAppend(a: seq<Message>, b: seq<Message>)
    ensures OnWireAll(a + b) == OnWireAll(a) + OnWireAll(b)
  {
  }

  lemma {:induction false} EncodedAppend(a: seq<Message>, b: seq<Message>)
    requires AllSendable(a) && AllSendable(b)
    ensures AllSendable(a + b) && EncodedMessages(a + b) == EncodedMessages(a) + EncodedMessages(b)
    decreases |a|
  {
    hide NM.Encoded, NM.Encodable, NM.Unambiguous;
    if |a| == 0 {
      assert a + b == b;
    } else {
      var rest := a[1..];
      EncodedAppend(rest, b);
      assert (a + b)[0] == a[0] && (a + b)[1..] == rest + b;
      Fields2(NM.Encoded(a[0]), EncodedMessages(rest), EncodedMessages(b));
    }
  }

  // ----- the receiver -----

  predicate Quiet(lanes: States) {
    forall k :: k in lanes ==> lanes[k] == Cleared
  }

  lemma {:induction false} ReceivedAppend(lim: Limits, st: ReaderState, a: seq<bytes>, b: seq<bytes>)
    requires Received(lim, st, a).1.Running?
    ensures Received(lim, st, a + b) == Received(lim, Received(lim, st, a).0, b)
    decreases |a|
  {
    hide Processed;
    if |a| == 0 {
      assert a + b == b;
    } else {
      assert (a + b)[0] == a[0] && (a + b)[1..] == a[1..] + b;
      ReceivedAppend(lim, Processed(lim, st, a[0]).0, a[1..], b);
    }
  }

  lemma ReceivedOne(lim: Limits, st: ReaderState, batch: bytes)
    requires Processed(lim, st, batch).1.Running?
    ensures Received(lim, st, [batch]) == (Processed(lim, st, batch).0, Running)
  {
    hide Processed;
    assert [batch][1..] == [];
  }

  /** A batch that is a single FRAME of lane `k` holding `ms`. */
  lemma FrameReceived(c: Settings, lim: Limits, st: ReaderState, k: LaneKey, seqNum: uint64, ms: seq<Message>)
    requires AllSendable(ms)
    ensures Received(lim, st, [FrameStart(c, k, seqNum) + EncodedMessages(ms)])
         == (st.(log := st.log + Deliveries(WireLane(c, k), OnWireAll(ms))), Running)
  {
    hide EncodedFrame, EncodedMessages, Processed, LaneExts, OnWireAll, Deliveries;
    LaneOfExts(c.attachQoS, k.priority);
    var u := FrameUnit(FrameOf(c, k, seqNum), ms);
    var batch := FrameStart(c, k, seqNum) + EncodedMessages(ms);
    OneUnit(u);
    BatchParses(lim, st, [u], None);
    ReceivedOne(lim, st, batch);
  }

  lemma OneUnit(u: Unit)
    requires ValidUnit(u)
    ensures ValidUnits([u]) && EncodedUnits([u]) + EncodedLast(None) == EncodedUnit(u)
    ensures UnitsLog([u]) == UnitLog(u)
  {
    hide EncodedUnit, UnitLog;
    assert [u][1..] == [];
  }

  lemma KeepAliveReceived(lim: Limits, st: ReaderState, exts: Exts)
    requires EncodableExts(exts)
    ensures Received(lim, st, [EncodedKeepAlive(exts)]) == (st, Running)
  {
    hide EncodedKeepAlive, Processed;
    OneUnit(KeepAliveUnit(exts));
    BatchParses(lim, st, [KeepAliveUnit(exts)], None);
    assert st.log + [] == st.log;
    ReceivedOne(lim, st, EncodedKeepAlive(exts));
  }

  // ----- fragmented messages -----

  /** The receiver has collected `got` on lane `k`, or is idle there. */
  predicate Collecting(lanes: States, k: LaneKey, got: bytes, next: uint64) {
    StateOf(lanes, k) == if got == [] then Cleared else ReassemblyState(true, next, got)
  }

  lemma FragmentReceived(c: Settings, lim: Limits, st: ReaderState, k: LaneKey, seqNum: uint64,
                         got: bytes, body: bytes, more: bool)
    requires lim.snMask == c.snMask
    requires Collecting(st.lanes, WireLane(c, k), got, seqNum) && |got| + |body| <= lim.maxSize
    ensures var w := WireLane(c, k);
            var scan := BodyMessages(got + body);
            Processed(lim, st, FragmentBatch(c, k, seqNum, more, body)) == (
              if more then
                (st.(lanes := st.lanes[w := ReassemblyState(true, Next(seqNum, c.snMask), got + body)]), Running)
              else
                (ReaderState(st.lanes[w := Cleared], st.log + Deliveries(w, scan.msgs)), StatusOf(scan.error)))
  {
    hide EncodedFragment, Processed, LaneExts, LanePriority, Next, BodyMessages;
    LaneOfExts(c.attachQoS, k.priority);
    var f := FragmentOf(c, k, seqNum, more, body);
    FragmentTaken(lim, st, f);
  }

  /** All fragments of `got ++ rest` from the point where `got` has been received:
      the receiver ends up idle on the lane and has dispatched the messages inside. */
  lemma {:induction false} FragmentsReceived(c: Settings, lim: Limits, st: ReaderState, k: LaneKey, seqNum: uint64,
                                             got: bytes, rest: bytes)
    requires c.batchSize > FragmentOverhead && lim.snMask == c.snMask
    requires Collecting(st.lanes, WireLane(c, k), got, seqNum) && |got| + |rest| <= lim.maxSize && |rest| > 0
    requires BodyMessages(got + rest).error.None?
    ensures var w := WireLane(c, k);
            Received(lim, st, Fragmented(c, k, seqNum, rest).0)
            == (ReaderState(st.lanes[w := Cleared], st.log + Deliveries(w, BodyMessages(got + rest).msgs)), Running)
    decreases |rest|
  {
    hide FragmentBatch, Processed, Next, BodyMessages, Deliveries, WireLane;
    var w, n := WireLane(c, k), Chunk(c, rest);
    var batch := FragmentBatch(c, k, seqNum, n < |rest|, rest[..n]);
    var next := Next(seqNum, c.snMask);
    var later := Fragmented(c, k, next, rest[n..]).0;
    FragmentReceived(c, lim, st, k, seqNum, got, rest[..n], n < |rest|);
    assert got + rest == (got + rest[..n]) + rest[n..];
    assert ([batch] + later)[1..] == later;
    var st' := Processed(lim, st, batch).0;
    if n < |rest| {
      FragmentsReceived(c, lim, st', k, next, got + rest[..n], rest[n..]);
      assert st'.lanes[w := Cleared] == st.lanes[w := Cleared];
    } else {
      assert rest[n..] == [] && got + rest[..n] == got + rest;
    }
  }

  // ----- one lane between sender and receiver -----

  /** The open FRAME of a lane holds exactly the pending messages. */
  predicate Carries(c: Settings, k: LaneKey, l: LaneState, pending: seq<Message>) {
    && AllSendable(pending)
    && if pending == [] then l.batch == [] && l.bodyStart == 0
       else
         && l.batch == FrameStart(c, k, l.seqNum) + EncodedMessages(pending)
         && l.bodyStart == |FrameStart(c, k, l.seqNum)|
         && |l.batch| > l.bodyStart
  }

  /** The batches make any idle receiver dispatch exactly `ms` on (wire) lane `k`, and
      leave it idle. */
  ghost predicate Delivers(lim: Limits, k: LaneKey, batches: seq<bytes>, ms: seq<Message>) {
    forall st: ReaderState | Quiet(st.lanes) ::
      var (st', status) := Received(lim, st, batches);
      status.Running? && Quiet(st'.lanes) && st'.log == st.log + Deliveries(k, OnWireAll(ms))
  }

  lemma DeliversNothing(lim: Limits, k: LaneKey)
    ensures Delivers(lim, k, [], [])
  {
    forall st: ReaderState
      ensures st.log + Deliveries(k, OnWireAll([])) == st.log
    {
    }
  }

  lemma DeliversBoth(lim: Limits, k: LaneKey, a: seq<bytes>, b: seq<bytes>, ms: seq<Message>, ns: seq<Message>)
    requires Delivers(lim, k, a, ms) && Delivers(lim, k, b, ns)
    ensures Delivers(lim, k, a + b, ms + ns)
  {
    hide Received;
    forall st: ReaderState | Quiet(st.lanes)
      ensures var (st', status) := Received(lim, st, a + b);
              status.Running? && Quiet(st'.lanes) && st'.log == st.log + Deliveries(k, OnWireAll(ms + ns))
    {
      ReceivedAppend(lim, st, a, b);
      OnWireAppend(ms, ns);
      DeliveriesAppend(k, OnWireAll(ms), OnWireAll(ns));
      var x, y := Deliveries(k, OnWireAll(ms)), Deliveries(k, OnWireAll(ns));
      assert st.log + x + y == st.log + (x + y);
    }
  }

  lemma FlushDelivers(c: Settings, lim: Limits, k: LaneKey, l: LaneState, pending: seq<Message>)
    requires Carries(c, k, l, pending)
    ensures Delivers(lim, WireLane(c, k), Flushed(c, l).emitted, pending)
    ensures Carries(c, k, Flushed(c, l).lane, [])
  {
    hide FrameStart, EncodedMessages, Next, Received, WireLane;
    var w := WireLane(c, k);
    if pending == [] {
      DeliversNothing(lim, w);
    } else {
      forall st: ReaderState | Quiet(st.lanes)
        ensures Received(lim, st, [l.batch]) == (st.(log := st.log + Deliveries(w, OnWireAll(pending))), Running)
      {
        FrameReceived(c, lim, st, k, l.seqNum, pending);
      }
    }
  }

  lemma OneMessage(m: Message)
    requires Sendable(m)
    ensures AllSendable([m]) && EncodedMessages([m]) == NM.Encoded(m)
    ensures OnWireAll([m]) == [NM.OnWire(m)]
  {
    hide NM.Encoded, NM.OnWire;
    assert [m][1..] == [];
    assert NM.Encoded(m) + [] == NM.Encoded(m);
  }

  lemma AppendCarries(c: Settings, k: LaneKey, l: LaneState, pending: seq<Message>, m: Message)
    requires Carries(c, k, l, pending) && Sendable(m)
    ensures Carries(c, k, Appended(c, k, l, NM.Encoded(m)), pending + [m])
  {
    hide FrameStart, NM.Encoded;
    OneMessage(m);
    EncodedAppend(pending, [m]);
    var start := FrameStart(c, k, l.seqNum);
    if pending == [] {
      assert pending + [m] == [m];
    } else {
      Fields2(start, EncodedMessages(pending), NM.Encoded(m));
    }
  }

  lemma FragmentsDeliver(c: Settings, lim: Limits, k: LaneKey, seqNum: uint64, m: Message)
    requires c.batchSize > FragmentOverhead && lim.snMask == c.snMask
    requires Sendable(m) && |NM.Encoded(m)| <= lim.maxSize
    ensures Delivers(lim, WireLane(c, k), Fragmented(c, k, seqNum, NM.Encoded(m)).0, [m])
  {
    hide NM.Encoded, Fragmented, Received, BodyMessages, WireLane;
    var s, w := NM.Encoded(m), WireLane(c, k);
    OneMessage(m);
    BodyMessagesParse([m]);
    forall st: ReaderState | Quiet(st.lanes)
      ensures Received(lim, st, Fragmented(c, k, seqNum, s).0)
           == (ReaderState(st.lanes[w := Cleared], st.log + Deliveries(w, OnWireAll([m]))), Running)
    {
      assert [] + s == s;
      FragmentsReceived(c, lim, st, k, seqNum, [], s);
    }
  }

  /** Enqueue on one lane: what it emits makes the receiver dispatch a front part of
      the pending messages followed by the new one, and what remains pending is the rest. */
  lemma EnqueueDelivers(c: Settings, lim: Limits, k: LaneKey, l: LaneState, pending: seq<Message>,
                        m: Message, express: bool)
    returns (out: seq<Message>, still: seq<Message>)
    requires c.batchSize > FragmentOverhead && lim.snMask == c.snMask
    requires Carries(c, k, l, pending) && Sendable(m) && |NM.Encoded(m)| <= lim.maxSize
    ensures var step := Enqueued(c, k, l, NM.Encoded(m), express);
            step.ok && Carries(c, k, step.lane, still) && Delivers(lim, WireLane(c, k), step.emitted, out)
    ensures out + still == pending + [m]
  {
    hide NM.Encoded, Flushed, Appended, Fragmented, Delivers, Carries, WireLane;
    var s, flush, w := NM.Encoded(m), Flushed(c, l), WireLane(c, k);
    assert flush.ok by { FlushIsOk(c, l); }
    if |s| > c.batchSize - FragmentOverhead {
      FlushDelivers(c, lim, k, l, pending);
      FragmentsDeliver(c, lim, k, flush.lane.seqNum, m);
      var (batches, next) := Fragmented(c, k, flush.lane.seqNum, s);
      DeliversBoth(lim, w, flush.emitted, batches, pending, [m]);
      IdleCarries(c, k, next);
      out, still := pending + [m], [];
    } else if express {
      FlushDelivers(c, lim, k, l, pending);
      var filled := Appended(c, k, flush.lane, s);
      AppendCarries(c, k, flush.lane, [], m);
      assert [] + [m] == [m];
      FlushDelivers(c, lim, k, filled, [m]);
      DeliversBoth(lim, w, flush.emitted, Flushed(c, filled).emitted, pending, [m]);
      out, still := pending + [m], [];
    } else if |l.batch| > 0 && |l.batch| + |s| > c.batchSize {
      FlushDelivers(c, lim, k, l, pending);
      AppendCarries(c, k, flush.lane, [], m);
      assert [] + [m] == [m];
      out, still := pending, [m];
    } else {
      DeliversNothing(lim, w);
      AppendCarries(c, k, l, pending, m);
      out, still := [], pending + [m];
    }
  }

  lemma FlushIsOk(c: Settings, l: LaneState)
    ensures Flushed(c, l).ok
  {
  }

  lemma IdleCarries(c: Settings, k: LaneKey, seqNum: uint64)
    ensures Carries(c, k, Idle(seqNum), [])
  {
  }

  // ----- the whole sender and the receiver -----

  const Fresh := ReaderState(map[], [])

  /** What is still in open FRAMEs, and what has been dispatched, the latter under the
      lanes on which it was sent. */
  datatype Flow = Flow(pending: map<LaneKey, seq<Message>>, trail: seq<Delivery>)

  /** Without QoS the receiver sees all lanes of a reliability as one. */
  function OnWireLanes(c: Settings, trail: seq<Delivery>): (log: seq<Delivery>)
    ensures |log| == |trail|
  {
    seq(|trail|, i requires 0 <= i < |trail| => Delivery(WireLane(c, trail[i].lane), trail[i].msg))
  }

  lemma OnWireLanesAppend(c: Settings, trail: seq<Delivery>, k: LaneKey, ms: seq<Message>)
    ensures OnWireLanes(c, trail + Deliveries(k, ms)) == OnWireLanes(c, trail) + Deliveries(WireLane(c, k), ms)
  {
  }

  /** After sending `os` by plan `p`: a receiver that has read all batches so far is
      running, has no half-collected message, has dispatched the trail, each message under
      its wire lane, and on each lane lacks only the pending messages. */
  ghost predicate InStep(c: Settings, lim: Limits, p: Plan, f: Flow, os: seq<Outgoing>) {
    var (st, status) := Received(lim, Fresh, p.sent);
    && !p.refused && Complete(p.lanes)
    && status.Running? && Quiet(st.lanes) && st.log == OnWireLanes(c, f.trail)
    && forall k: LaneKey :: k in f.pending && LaneInStep(c, p, k, f.pending[k], f.trail, os)
  }

  ghost predicate LaneInStep(c: Settings, p: Plan, k: LaneKey, pending: seq<Message>, trail: seq<Delivery>,
                             os: seq<Outgoing>)
    requires Complete(p.lanes)
  {
    && Carries(c, k, p.lanes[k], pending)
    && LoggedOn(trail, k) + OnWireAll(pending) == OnWireAll(SentOn(os, k))
  }

  /** One lane moves: it emits batches that deliver `out` and keeps `still` pending. */
  function FlowAfter(f: Flow, k: LaneKey, out: seq<Message>, still: seq<Message>): Flow {
    Flow(f.pending[k := still], f.trail + Deliveries(k, OnWireAll(out)))
  }

  lemma LaneMoves(c: Settings, lim: Limits, p: Plan, f: Flow, os: seq<Outgoing>, k: LaneKey, step: LaneStep,
                  out: seq<Message>, still: seq<Message>, news: seq<Message>, os': seq<Outgoing>)
    requires InStep(c, lim, p, f, os)
    requires Delivers(lim, WireLane(c, k), step.emitted, out) && Carries(c, k, step.lane, still)
    requires out + still == f.pending[k] + news
    requires forall j: LaneKey :: SentOn(os', j) == SentOn(os, j) + if j == k then news else []
    ensures var p' := Plan(p.lanes[k := step.lane], p.sent + step.emitted, false);
            InStep(c, lim, p', FlowAfter(f, k, out, still), os')
  {
    hide Received, OnWireAll, LoggedOn, SentOn, Carries, OnWireLanes, WireLane, Deliveries;
    ReceivedAppend(lim, Fresh, p.sent, step.emitted);
    OnWireLanesAppend(c, f.trail, k, OnWireAll(out));
    var next, f' := Plan(p.lanes[k := step.lane], p.sent + step.emitted, false), FlowAfter(f, k, out, still);
    forall j: LaneKey
      ensures LaneInStep(c, next, j, f'.pending[j], f'.trail, os')
    {
      assert LaneInStep(c, p, j, f.pending[j], f.trail, os);
      LoggedAppend(f.trail, Deliveries(k, OnWireAll(out)), j);
      LoggedDeliveries(k, OnWireAll(out), j);
      if j == k {
        LaneBalance(LoggedOn(f.trail, k), out, still, f.pending[k], news, SentOn(os, k));
      } else {
        assert LoggedOn(f'.trail, j) == LoggedOn(f.trail, j) + [];
        assert SentOn(os', j) == SentOn(os, j);
      }
    }
  }

  lemma LaneBalance(logged: seq<Message>, out: seq<Message>, still: seq<Message>,
                    pending: seq<Message>, news: seq<Message>, sent: seq<Message>)
    requires logged + OnWireAll(pending) == OnWireAll(sent) && out + still == pending + news
    ensures logged + OnWireAll(out) + OnWireAll(still) == OnWireAll(sent + news)
  {
    hide OnWireAll;
    OnWireAppend(out, still);
    OnWireAppend(pending, news);
    OnWireAppend(sent, news);
    var a, b, x, y := OnWireAll(out), OnWireAll(still), OnWireAll(pending), OnWireAll(news);
    assert logged + a + b == logged + (a + b);
    assert logged + x + y == logged + (x + y);
  }

  /** Flushing the lanes from the i-th on delivers everything pending there. */
  lemma {:induction false} FlushLanesInStep(c: Settings, lim: Limits, p: Plan, f: Flow, os: seq<Outgoing>, i: nat)
    returns (left: Flow)
    requires InStep(c, lim, p, f, os) && i <= 16
    requires forall k: LaneKey :: Index(k) < i ==> f.pending[k] == []
    ensures var (lanes, batches) := FlushedFrom(c, p.lanes, i);
            InStep(c, lim, Plan(lanes, p.sent + batches, false), left, os)
    ensures forall k: LaneKey :: k in left.pending && left.pending[k] == []
    decreases 16 - i
  {
    hide Flushed, Delivers, Carries, Received, SentOn, LoggedOn, OnWireAll, OnWireLanes, WireLane, Deliveries;
    if i == 16 {
      assert p.sent + [] == p.sent;
      return f;
    }
    var k := LaneAt(i);
    assert Index(k) == i;
    var step := Flushed(c, p.lanes[k]);
    assert LaneInStep(c, p, k, f.pending[k], f.trail, os);
    FlushDelivers(c, lim, k, p.lanes[k], f.pending[k]);
    NoNews(f.pending[k], os);
    LaneMoves(c, lim, p, f, os, k, step, f.pending[k], [], [], os);
    var next := Plan(p.lanes[k := step.lane], p.sent + step.emitted, false);
    left := FlushLanesInStep(c, lim, next, FlowAfter(f, k, f.pending[k], []), os, i + 1);
    var later := FlushedFrom(c, next.lanes, i + 1).1;
    assert p.sent + step.emitted + later == p.sent + (step.emitted + later);
  }

  lemma NoNews(ms: seq<Message>, os: seq<Outgoing>)
    ensures ms + [] == ms
    ensures forall j: LaneKey :: SentOn(os, j) + [] == SentOn(os, j)
  {
  }

  lemma FlushInStep(c: Settings, lim: Limits, p: Plan, f: Flow, os: seq<Outgoing>)
    returns (left: Flow)
    requires InStep(c, lim, p, f, os)
    ensures InStep(c, lim, FlushedPlan(c, p), left, os)
    ensures forall k: LaneKey :: k in left.pending && left.pending[k] == []
  {
    hide FlushedFrom, LaneInStep, Received, OnWireLanes, Quiet;
    left := FlushLanesInStep(c, lim, p, f, os, 0);
  }

  lemma SentStep(os: seq<Outgoing>, o: Outgoing)
    ensures forall j: LaneKey :: SentOn(os + [o], j) == SentOn(os, j) + if o.Send? && j == o.lane then [o.msg] else []
  {
    assert (os + [o])[..|os|] == os;
  }

  /** Items without a message do not change what was sent. */
  lemma SilentInStep(c: Settings, lim: Limits, p: Plan, f: Flow, os: seq<Outgoing>, o: Outgoing)
    requires InStep(c, lim, p, f, os) && !o.Send?
    ensures InStep(c, lim, p, f, os + [o])
  {
    hide SentOn, LoggedOn, OnWireAll, Carries, Received;
    SentStep(os, o);
    forall j: LaneKey
      ensures LaneInStep(c, p, j, f.pending[j], f.trail, os + [o])
    {
      assert LaneInStep(c, p, j, f.pending[j], f.trail, os);
      assert SentOn(os, j) + [] == SentOn(os, j);
    }
  }

  lemma KeepAliveInStep(c: Settings, lim: Limits, p: Plan, f: Flow, os: seq<Outgoing>, exts: Exts)
    requires InStep(c, lim, p, f, os) && EncodableExts(exts)
    ensures InStep(c, lim, p.(sent := p.sent + [EncodedKeepAlive(exts)]), f, os)
  {
    hide SentOn, LoggedOn, OnWireAll, Carries, Received, EncodedKeepAlive;
    ReceivedAppend(lim, Fresh, p.sent, [EncodedKeepAlive(exts)]);
    KeepAliveReceived(lim, Received(lim, Fresh, p.sent).0, exts);
    var next := p.(sent := p.sent + [EncodedKeepAlive(exts)]);
    forall j: LaneKey
      ensures LaneInStep(c, next, j, f.pending[j], f.trail, os)
    {
      assert LaneInStep(c, p, j, f.pending[j], f.trail, os);
    }
  }

  /** Handling one item keeps sender and receiver in step. */
  lemma ItemInStep(c: Settings, lim: Limits, p: Plan, f: Flow, os: seq<Outgoing>, o: Outgoing)
    returns (left: Flow)
    requires c.batchSize > FragmentOverhead && lim.snMask == c.snMask
    requires InStep(c, lim, p, f, os) && Admissible(lim, o)
    ensures InStep(c, lim, Act(c, p, Handle(ItemOf(o))), left, os + [o])
  {
    hide SentOn, LoggedOn, OnWireAll, Carries, Delivers, Enqueued, FlushedFrom, NM.Encoded, EncodedKeepAlive;
    match o
    case Send(m, k, express) =>
      SentStep(os, o);
      assert LaneInStep(c, p, k, f.pending[k], f.trail, os);
      var out, still := EnqueueDelivers(c, lim, k, p.lanes[k], f.pending[k], m, express);
      var step := Enqueued(c, k, p.lanes[k], NM.Encoded(m), express);
      LaneMoves(c, lim, p, f, os, k, step, out, still, [m], os + [o]);
      left := FlowAfter(f, k, out, still);
    case KeepAlive(exts) =>
      left := FlushInStep(c, lim, p, f, os);
      KeepAliveInStep(c, lim, FlushedPlan(c, p), left, os, exts);
      SilentInStep(c, lim, Act(c, p, Handle(ItemOf(o))), left, os, o);
    case Nothing =>
      SilentInStep(c, lim, p, f, os, o);
      left := f;
  }

  // ----- the main theorem -----

  predicate AllAdmissible(lim: Limits, os: seq<Outgoing>) {
    forall i :: 0 <= i < |os| ==> Admissible(lim, os[i])
  }

  function Items(c: Settings, lim: Limits, os: seq<Outgoing>): (items: seq<OutboundItem>)
    requires AllAdmissible(lim, os)
    ensures |items| == |os|
  {
    seq(|os|, i requires 0 <= i < |os| => ItemOf(os[i]))
  }

  function ItemBursts(c: Settings, lim: Limits, bursts: seq<seq<Outgoing>>): (b: seq<seq<OutboundItem>>)
    requires forall i :: 0 <= i < |bursts| ==> AllAdmissible(lim, bursts[i])
    ensures |b| == |bursts|
  {
    seq(|bursts|, i requires 0 <= i < |bursts| => Items(c, lim, bursts[i]))
  }

  function Joined(bursts: seq<seq<Outgoing>>): seq<Outgoing> {
    if |bursts| == 0 then [] else bursts[0] + Joined(bursts[1..])
  }

  function Handles(items: seq<OutboundItem>): seq<Action> {
    seq(|items|, i requires 0 <= i < |items| => Handle(items[i]))
  }

  lemma {:induction false} ItemsInStep(c: Settings, lim: Limits, p: Plan, f: Flow,
                                       os: seq<Outgoing>, burst: seq<Outgoing>)
    returns (left: Flow)
    requires c.batchSize > FragmentOverhead && lim.snMask == c.snMask
    requires InStep(c, lim, p, f, os) && AllAdmissible(lim, burst)
    ensures InStep(c, lim, ActAll(c, p, Handles(Items(c, lim, burst))), left, os + burst)
    decreases |burst|
  {
    hide LaneInStep, Received, OnWireLanes, Quiet;
    if |burst| == 0 {
      assert os + burst == os;
      return f;
    }
    var actions := Handles(Items(c, lim, burst));
    assert actions[0] == Handle(ItemOf(burst[0]));
    assert actions[1..] == Handles(Items(c, lim, burst[1..]));
    left := ItemInStep(c, lim, p, f, os, burst[0]);
    left := ItemsInStep(c, lim, Act(c, p, actions[0]), left, os + [burst[0]], burst[1..]);
    assert os + [burst[0]] + burst[1..] == os + burst;
  }

  lemma BurstInStep(c: Settings, lim: Limits, p: Plan, f: Flow,
                    os: seq<Outgoing>, burst: seq<Outgoing>)
    returns (left: Flow)
    requires c.batchSize > FragmentOverhead && lim.snMask == c.snMask
    requires InStep(c, lim, p, f, os) && AllAdmissible(lim, burst)
    ensures InStep(c, lim, ActAll(c, p, BurstActions(Items(c, lim, burst))), left, os + burst)
  {
    hide LaneInStep, Received, FlushedFrom, OnWireLanes, Quiet;
    var items := Items(c, lim, burst);
    assert BurstActions(items) == Handles(items) + [Flush];
    ActAppend(c, p, Handles(items), [Flush]);
    left := ItemsInStep(c, lim, p, f, os, burst);
    var handled := ActAll(c, p, Handles(items));
    assert [Flush][1..] == [];
    assert ActAll(c, handled, [Flush]) == FlushedPlan(c, handled);
    left := FlushInStep(c, lim, handled, left, os + burst);
  }

  lemma {:induction false} RunInStep(c: Settings, lim: Limits, p: Plan, f: Flow,
                                     os: seq<Outgoing>, bursts: seq<seq<Outgoing>>, last: Option<seq<Outgoing>>)
    returns (left: Flow)
    requires c.batchSize > FragmentOverhead && lim.snMask == c.snMask
    requires InStep(c, lim, p, f, os)
    requires forall i :: 0 <= i < |bursts| ==> AllAdmissible(lim, bursts[i])
    requires last.Some? ==> AllAdmissible(lim, last.value)
    ensures InStep(c, lim, ActAll(c, p, RunOf(c, lim, bursts, last)), left, os + AllSent(bursts, last))
    decreases |bursts|
  {
    hide LaneInStep, Received, FlushedFrom, BurstActions, Admissible, Items, Act, OnWireLanes, Quiet;
    var run := RunOf(c, lim, bursts, last);
    if |bursts| == 0 {
      if last.Some? {
        left := BurstInStep(c, lim, p, f, os, last.value);
        assert AllSent(bursts, last) == last.value;
      } else {
        left := f;
        assert os + AllSent(bursts, last) == os;
      }
    } else {
      var first, later := BurstActions(Items(c, lim, bursts[0])), RunOf(c, lim, bursts[1..], last);
      assert ItemBursts(c, lim, bursts)[1..] == ItemBursts(c, lim, bursts[1..]);
      assert run == first + later;
      ActAppend(c, p, first, later);
      left := BurstInStep(c, lim, p, f, os, bursts[0]);
      left := RunInStep(c, lim, ActAll(c, p, first), left, os + bursts[0], bursts[1..], last);
      assert AllSent(bursts, last) == bursts[0] + AllSent(bursts[1..], last);
      assert os + bursts[0] + AllSent(bursts[1..], last) == os + AllSent(bursts, last);
    }
  }

  function AllSent(bursts: seq<seq<Outgoing>>, last: Option<seq<Outgoing>>): seq<Outgoing> {
    Joined(bursts) + if last.Some? then last.value else []
  }

  /** What the writer does for these wake-ups and this final drain. */
  function RunOf(c: Settings, lim: Limits, bursts: seq<seq<Outgoing>>, last: Option<seq<Outgoing>>): seq<Action>
    requires forall i :: 0 <= i < |bursts| ==> AllAdmissible(lim, bursts[i])
    requires last.Some? ==> AllAdmissible(lim, last.value)
  {
    RunActions(ItemBursts(c, lim, bursts), if last.Some? then Some(Items(c, lim, last.value)) else None)
  }

  /** A batcher that has not sent anything yet. */
  ghost predicate Unused(p: Plan) {
    p.sent == [] && !p.refused && Complete(p.lanes) && forall k: LaneKey :: p.lanes[k] == Idle(p.lanes[k].seqNum)
  }

  /** Whatever is sent, in whatever bursts, over whatever lanes: when the writer has
      shut down without a failing write, it has refused nothing, and a fresh receiver fed
      with the emitted batches is running, holds no half-collected message, and has
      dispatched exactly the messages sent, those of each lane in order and under the
      lane's wire lane. */
  lemma EndToEnd(c: Settings, lim: Limits, start: Plan, bursts: seq<seq<Outgoing>>, last: Option<seq<Outgoing>>)
    returns (trail: seq<Delivery>)
    requires c.batchSize > FragmentOverhead && lim.snMask == c.snMask && Unused(start)
    requires forall i :: 0 <= i < |bursts| ==> AllAdmissible(lim, bursts[i])
    requires last.Some? ==> AllAdmissible(lim, last.value)
    ensures var plan := ActAll(c, start, RunOf(c, lim, bursts, last));
            var (receiver, status) := Received(lim, Fresh, FlushedPlan(c, plan).sent);
            && !plan.refused && status.Running? && Quiet(receiver.lanes)
            && receiver.log == OnWireLanes(c, trail)
    ensures forall k: LaneKey :: LoggedOn(trail, k) == OnWireAll(SentOn(AllSent(bursts, last), k))
  {
    hide FlushedFrom, Act, RunOf, AllSent, OnWireAll, Carries, Received, OnWireLanes;
    var nothing := NothingPending();
    StartInStep(c, lim, start, nothing);
    var left := RunInStep(c, lim, start, nothing, [], bursts, last);
    var plan := ActAll(c, start, RunOf(c, lim, bursts, last));
    left := FlushInStep(c, lim, plan, left, [] + AllSent(bursts, last));
    var done, sent := FlushedPlan(c, plan), AllSent(bursts, last);
    assert [] + sent == sent;
    trail := left.trail;
    forall k: LaneKey
      ensures LoggedOn(trail, k) == OnWireAll(SentOn(sent, k))
    {
      assert LaneInStep(c, done, k, left.pending[k], trail, sent);
      OnWireNothing(LoggedOn(trail, k));
    }
  }

  lemma OnWireNothing(ms: seq<Message>)
    ensures ms + OnWireAll([]) == ms
  {
  }

  ghost function NothingPending(): (f: Flow)
    ensures f.trail == [] && forall k: LaneKey :: k in f.pending && f.pending[k] == []
  {
    var keys := set i | 0 <= i < 16 :: LaneAt(i);
    forall k: LaneKey
      ensures k in keys
    {
      assert LaneAt(Index(k)) in keys;
    }
    Flow(map k | k in keys :: [], [])
  }

  lemma StartInStep(c: Settings, lim: Limits, start: Plan, nothing: Flow)
    requires Unused(start) && nothing.trail == []
    requires forall k: LaneKey :: k in nothing.pending && nothing.pending[k] == []
    ensures InStep(c, lim, start, nothing, [])
  {
    hide Processed;
    forall k: LaneKey
      ensures LaneInStep(c, start, k, nothing.pending[k], [], [])
    {
    }
  }

  // ----- positions -----

  predicate Increasing(at: seq<nat>) {
    forall i, j :: 0 <= i < j < |at| ==> at[i] < at[j]
  }

  /** `ms` are the elements of `sent` at the increasing positions `at`; anything may
      stand between them. */
  predicate Among<T(==)>(ms: seq<T>, sent: seq<T>, at: seq<nat>) {
    |at| == |ms| && Increasing(at) && forall i :: 0 <= i < |at| ==> at[i] < |sent| && sent[at[i]] == ms[i]
  }

  lemma {:induction false} PositionsOn(log: seq<Delivery>, k: LaneKey) returns (pos: seq<nat>)
    ensures |pos| == |LoggedOn(log, k)| && Increasing(pos)
    ensures forall i :: 0 <= i < |pos| ==> pos[i] < |log| && log[pos[i]] == Delivery(k, LoggedOn(log, k)[i])
    decreases |log|
  {
    if |log| == 0 {
      pos := [];
    } else {
      var n := |log| - 1;
      pos := PositionsOn(log[..n], k);
      if log[n].lane == k {
        pos := pos + [n];
      }
    }
  }

  // ----- lanes that the receiver can tell apart -----

  /** Every message is sent on a lane that the receiver sees as itself: all lanes if QoS
      is attached, otherwise those of the Data priority. */
  predicate OwnLanes(c: Settings, os: seq<Outgoing>) {
    forall i :: 0 <= i < |os| && os[i].Send? ==> WireLane(c, os[i].lane) == os[i].lane
  }

  lemma {:induction false} LoggedSomewhere(log: seq<Delivery>, k: LaneKey)
    ensures LoggedOn(log, k) != [] <==> exists i :: 0 <= i < |log| && log[i].lane == k
    decreases |log|
  {
    if |log| > 0 {
      var n := |log| - 1;
      LoggedSomewhere(log[..n], k);
      assert forall i :: 0 <= i < n ==> log[..n][i] == log[i];
    }
  }

  lemma {:induction false} SentSomewhere(os: seq<Outgoing>, k: LaneKey)
    ensures SentOn(os, k) != [] <==> exists i :: 0 <= i < |os| && os[i].Send? && os[i].lane == k
    decreases |os|
  {
    if |os| > 0 {
      var n := |os| - 1;
      SentSomewhere(os[..n], k);
      assert forall i :: 0 <= i < n ==> os[..n][i] == os[i];
    }
  }

  /** Each lane of the receiver holds exactly what was sent on that lane if and only if
      nothing was sent on a lane that the receiver sees as another one. */
  lemma ByLaneIffOwn(c: Settings, trail: seq<Delivery>, os: seq<Outgoing>)
    requires forall k: LaneKey :: LoggedOn(trail, k) == OnWireAll(SentOn(os, k))
    ensures (forall k: LaneKey :: LoggedOn(OnWireLanes(c, trail), k) == OnWireAll(SentOn(os, k))) <==> OwnLanes(c, os)
  {
    hide LoggedOn, SentOn;
    var log := OnWireLanes(c, trail);
    if OwnLanes(c, os) {
      forall i | 0 <= i < |trail|
        ensures log[i] == trail[i]
      {
        LoggedSomewhere(trail, trail[i].lane);
        SentSomewhere(os, trail[i].lane);
      }
      assert log == trail;
    } else {
      var i :| 0 <= i < |os| && os[i].Send? && WireLane(c, os[i].lane) != os[i].lane;
      var k := os[i].lane;
      SentSomewhere(os, k);
      LoggedSomewhere(log, k);
      assert forall j :: 0 <= j < |log| ==> log[j].lane == WireLane(c, trail[j].lane) != k;
      assert LoggedOn(log, k) != OnWireAll(SentOn(os, k));
    }
  }

  /** Lane by lane: the receiver has dispatched on each lane exactly the messages sent on
      it, in order, if and only if all of them were sent on lanes it can tell. */
  lemma EndToEndByLane(c: Settings, lim: Limits, start: Plan, bursts: seq<seq<Outgoing>>, last: Option<seq<Outgoing>>)
    requires c.batchSize > FragmentOverhead && lim.snMask == c.snMask && Unused(start)
    requires forall i :: 0 <= i < |bursts| ==> AllAdmissible(lim, bursts[i])
    requires last.Some? ==> AllAdmissible(lim, last.value)
    ensures var sent := AllSent(bursts, last);
            var wire := FlushedPlan(c, ActAll(c, start, RunOf(c, lim, bursts, last))).sent;
            var log := Received(lim, Fresh, wire).0.log;
            && ((forall k: LaneKey :: LoggedOn(log, k) == OnWireAll(SentOn(sent, k))) <==> OwnLanes(c, sent))
            && (c.attachQoS ==> OwnLanes(c, sent))
  {
    hide FlushedPlan, ActAll, RunOf, AllSent, OnWireAll, LoggedOn, SentOn, Received, OnWireLanes;
    var trail := EndToEnd(c, lim, start, bursts, last);
    ByLaneIffOwn(c, trail, AllSent(bursts, last));
  }

  /** The same for the objects: a writer over a link that never fails, and a reader
      that is handed what the link carried. */
  method Transfer(w: OutboundWriter.Writer, inbound: Inbound, bursts: seq<seq<Outgoing>>, last: Option<seq<Outgoing>>)
    returns (status: Status, ghost trail: seq<Delivery>)
    requires w.Valid() && Unused(w.State()) && w.link.reliable && w.batcher.settings.batchSize > FragmentOverhead
    requires inbound.State() == Fresh && inbound.Limits().snMask == w.batcher.settings.snMask
    requires forall i :: 0 <= i < |bursts| ==> AllAdmissible(inbound.Limits(), bursts[i])
    requires last.Some? ==> AllAdmissible(inbound.Limits(), last.value)
    modifies w.Objects(), inbound, inbound.reassembler
    ensures status.Running? && Quiet(inbound.reassembler.lanes)
    ensures inbound.log == OnWireLanes(w.batcher.settings, trail)
    ensures forall k: LaneKey :: LoggedOn(trail, k) == OnWireAll(SentOn(AllSent(bursts, last), k))
    ensures OwnLanes(w.batcher.settings, AllSent(bursts, last)) <==>
              forall k: LaneKey :: LoggedOn(inbound.log, k) == OnWireAll(SentOn(AllSent(bursts, last), k))
  {
    hide FlushedFrom, Act, ActAll, LoggedOn, OnWireAll, SentOn, AllSent, Received, Quiet, Admissible, OnWireLanes,
         OwnLanes;
    var c, lim := w.batcher.settings, inbound.Limits();
    trail := EndToEnd(c, lim, w.State(), bursts, last);
    ByLaneIffOwn(c, trail, AllSent(bursts, last));
    var lastItems := if last.Some? then Some(Items(c, lim, last.value)) else None;
    var dead, _ := w.Loop(ItemBursts(c, lim, bursts), lastItems);
    status := inbound.Run(w.link.sent);
  }
}
