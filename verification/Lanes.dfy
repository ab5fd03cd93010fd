/**
 What the batcher does with one lane, as functions on its state: opening a FRAME,
 appending to it, flushing it, and cutting an oversized message into FRAGMENTs
 (internal/transport/batcher.go, fragmenter.go). Each function also returns the
 batches it hands to the sink, in order.
 */
module Lanes {
  import opened Wrappers
  import opened Buffer
  import opened Extensions
  import opened WireTypes
  import opened TransportMessages
  import opened SequenceNumbers

  const FragmentOverhead := 16

  /** A serialised network message on its way to a lane. */
  datatype OutboundMessage = OutboundMessage(encoded: bytes, priority: byte, reliable: bool, express: bool) {
    predicate HasLane() {
      priority < 8
    }

    function Lane(): LaneKey
      requires HasLane()
    {
      LaneKey(priority, reliable)
    }
  }

  /** The settings shared by all lanes of a batcher; `snMask` is already normalised. */
  datatype Settings = Settings(batchSize: nat, attachQoS: bool, snMask: uint64)

  /** `batch` holds a FRAME header followed by the messages appended so far; it is
      empty when no FRAME is open. */
  datatype LaneState = LaneState(seqNum: uint64, batch: bytes, bodyStart: nat)

  datatype LaneStep = LaneStep(lane: LaneState, emitted: seq<bytes>, ok: bool)

  function Idle(seqNum: uint64): LaneState {
    LaneState(seqNum, [], 0)
  }

  function FrameOf(c: Settings, k: LaneKey, seqNum: uint64): Frame {
    Frame(k.reliable, seqNum, LaneExts(c.attachQoS, k.priority))
  }

  function FrameStart(c: Settings, k: LaneKey, seqNum: uint64): (s: bytes)
    ensures |s| > 0
  {
    LaneOfExts(c.attachQoS, k.priority);
    EncodedFrame(FrameOf(c, k, seqNum))
  }

  /** An empty body is not worth a sequence number. */
  function Flushed(c: Settings, l: LaneState): LaneStep {
    if |l.batch| == 0 || |l.batch| == l.bodyStart then LaneStep(Idle(l.seqNum), [], true)
    else LaneStep(Idle(Next(l.seqNum, c.snMask)), [l.batch], true)
  }

  function Appended(c: Settings, k: LaneKey, l: LaneState, body: bytes): LaneState {
    if |l.batch| == 0 then
      var start := FrameStart(c, k, l.seqNum);
      LaneState(l.seqNum, start + body, |start|)
    else l.(batch := l.batch + body)
  }

  function FragmentOf(c: Settings, k: LaneKey, seqNum: uint64, more: bool, body: bytes): Fragment {
    Fragment(k.reliable, more, seqNum, LaneExts(c.attachQoS, k.priority), body)
  }

  function FragmentBatch(c: Settings, k: LaneKey, seqNum: uint64, more: bool, body: bytes): (s: bytes)
    ensures |s| > 0
  {
    LaneOfExts(c.attachQoS, k.priority);
    EncodedFragment(FragmentOf(c, k, seqNum, more, body))
  }

  /** The body of the fragment that `msg` starts with, and what remains. */
  function Chunk(c: Settings, msg: bytes): (n: nat)
    requires c.batchSize > FragmentOverhead
    ensures n <= |msg| && (|msg| > 0 ==> n > 0)
  {
    if c.batchSize - FragmentOverhead <= |msg| then c.batchSize - FragmentOverhead else |msg|
  }

  /** The batches of a fragmented message and the next sequence number after them. */
  function Fragmented(c: Settings, k: LaneKey, seqNum: uint64, msg: bytes): (seq<bytes>, uint64)
    requires c.batchSize > FragmentOverhead
    decreases |msg|
  {
    if |msg| == 0 then ([], seqNum)
    else
      var n := Chunk(c, msg);
      var (batches, next) := Fragmented(c, k, Next(seqNum, c.snMask), msg[n..]);
      ([FragmentBatch(c, k, seqNum, n < |msg|, msg[..n])] + batches, next)
  }

  /** Enqueue on the lane of the message. */
  function Enqueued(c: Settings, k: LaneKey, l: LaneState, msg: bytes, express: bool): LaneStep {
    if |msg| > c.batchSize - FragmentOverhead then
      var flush := Flushed(c, l);
      if c.batchSize <= FragmentOverhead then LaneStep(flush.lane, flush.emitted, false)
      else
        var (batches, next) := Fragmented(c, k, flush.lane.seqNum, msg);
        LaneStep(Idle(next), flush.emitted + batches, true)
    else if express then
      var flush := Flushed(c, l);
      var alone := Flushed(c, Appended(c, k, flush.lane, msg));
      LaneStep(alone.lane, flush.emitted + alone.emitted, true)
    else if |l.batch| > 0 && |l.batch| + |msg| > c.batchSize then
      var flush := Flushed(c, l);
      LaneStep(Appended(c, k, flush.lane, msg), flush.emitted, true)
    else LaneStep(Appended(c, k, l, msg), [], true)
  }

  // ----- what every reachable lane looks like -----

  /** Either no FRAME is open, or the open FRAME carries the lane's own counter in
      its header and still fits the batch size. */
  predicate WellFormed(c: Settings, k: LaneKey, l: LaneState) {
    if |l.batch| == 0 then l.bodyStart == 0
    else
      && |l.batch| <= c.batchSize
      && FrameStart(c, k, l.seqNum) <= l.batch
      && l.bodyStart == |FrameStart(c, k, l.seqNum)|
  }

  predicate AllFit(c: Settings, batches: seq<bytes>) {
    forall i :: 0 <= i < |batches| ==> |batches[i]| <= c.batchSize
  }

  /** Header, sequence number and extension stay within the overhead budget. */
  lemma HeaderBudget(c: Settings, k: LaneKey, seqNum: uint64)
    ensures |FrameStart(c, k, seqNum)| <= 12
    ensures forall more, body :: |FragmentBatch(c, k, seqNum, more, body)| <= 12 + |body|
  {
    LaneOfExts(c.attachQoS, k.priority);
  }

  lemma FlushKeepsForm(c: Settings, k: LaneKey, l: LaneState)
    requires WellFormed(c, k, l)
    ensures WellFormed(c, k, Flushed(c, l).lane) && AllFit(c, Flushed(c, l).emitted)
  {
  }

  lemma AppendKeepsForm(c: Settings, k: LaneKey, l: LaneState, msg: bytes)
    requires WellFormed(c, k, l)
    requires if |l.batch| == 0 then |msg| <= c.batchSize - FragmentOverhead else |l.batch| + |msg| <= c.batchSize
    ensures WellFormed(c, k, Appended(c, k, l, msg))
  {
    HeaderBudget(c, k, l.seqNum);
  }

  lemma {:induction false} FragmentsFit(c: Settings, k: LaneKey, seqNum: uint64, msg: bytes)
    requires c.batchSize > FragmentOverhead
    ensures AllFit(c, Fragmented(c, k, seqNum, msg).0)
    decreases |msg|
  {
    if |msg| > 0 {
      var n := Chunk(c, msg);
      HeaderBudget(c, k, seqNum);
      FragmentsFit(c, k, Next(seqNum, c.snMask), msg[n..]);
    }
  }

  /** Enqueue keeps the lane well formed, and no batch it emits exceeds the
      negotiated size, whatever the message and however long its header is. */
  lemma EnqueueKeepsForm(c: Settings, k: LaneKey, l: LaneState, msg: bytes, express: bool)
    requires WellFormed(c, k, l)
    ensures var step := Enqueued(c, k, l, msg, express);
            WellFormed(c, k, step.lane) && AllFit(c, step.emitted)
  {
    FlushKeepsForm(c, k, l);
    var flush := Flushed(c, l);
    if |msg| > c.batchSize - FragmentOverhead {
      if c.batchSize > FragmentOverhead {
        FragmentsFit(c, k, flush.lane.seqNum, msg);
      }
    } else if express {
      AppendKeepsForm(c, k, flush.lane, msg);
      FlushKeepsForm(c, k, Appended(c, k, flush.lane, msg));
    } else if |l.batch| > 0 && |l.batch| + |msg| > c.batchSize {
      AppendKeepsForm(c, k, flush.lane, msg);
    } else {
      AppendKeepsForm(c, k, l, msg);
    }
  }

  // ----- sequence numbers on the wire -----

  /** Lane and sequence number that a receiver reads off a batch, if it is a FRAME
      or a FRAGMENT. */
  function Stamp(batch: bytes): Option<(LaneKey, uint64)> {
    match DecodeHeader(batch)
    case Bad(_) => None
    case Ok(h, rest) =>
      if h.id != IdFrame && h.id != IdFragment then None
      else
        match DecodeFrame(h, rest)
        case Bad(_) => None
        case Ok(f, _) => Some((LaneKey(LanePriority(f.exts), f.reliable), f.sn))
  }

  /** The lane under which the peer sees what is sent on `k`. */
  function WireLane(c: Settings, k: LaneKey): LaneKey {
    if c.attachQoS then k else k.(priority := PriorityData)
  }

  lemma FrameStamp(c: Settings, k: LaneKey, seqNum: uint64, body: bytes)
    ensures Stamp(FrameStart(c, k, seqNum) + body) == Some((WireLane(c, k), seqNum))
  {
    LaneOfExts(c.attachQoS, k.priority);
    FrameRoundTrip(FrameOf(c, k, seqNum), body);
  }

  lemma FragmentStamp(c: Settings, k: LaneKey, seqNum: uint64, more: bool, body: bytes)
    ensures Stamp(FragmentBatch(c, k, seqNum, more, body)) == Some((WireLane(c, k), seqNum))
  {
    LaneOfExts(c.attachQoS, k.priority);
    FragmentRoundTrip(FragmentOf(c, k, seqNum, more, body));
  }

  /** The batches carry the lane's numbers `seqNum`, next, next of next, ... */
  predicate Numbered(c: Settings, k: LaneKey, seqNum: uint64, batches: seq<bytes>) {
    forall i {:trigger batches[i]} :: 0 <= i < |batches| ==>
      Stamp(batches[i]) == Some((WireLane(c, k), Nth(seqNum, c.snMask, i)))
  }

  lemma {:induction false} NthAfter(seed: uint64, mask: uint64, i: nat, j: nat)
    ensures Nth(Nth(seed, mask, i), mask, j) == Nth(seed, mask, i + j)
  {
    if j > 0 {
      NthAfter(seed, mask, i, j - 1);
    }
  }

  lemma NumberedAppend(c: Settings, k: LaneKey, seqNum: uint64, a: seq<bytes>, b: seq<bytes>)
    requires Numbered(c, k, seqNum, a) && Numbered(c, k, Nth(seqNum, c.snMask, |a|), b)
    ensures Numbered(c, k, seqNum, a + b)
  {
    hide Stamp, Nth, WireLane;
    forall i | 0 <= i < |a + b|
      ensures Stamp((a + b)[i]) == Some((WireLane(c, k), Nth(seqNum, c.snMask, i)))
    {
      if i < |a| {
        assert (a + b)[i] == a[i];
      } else {
        assert (a + b)[i] == b[i - |a|];
        NthAfter(seqNum, c.snMask, |a|, i - |a|);
      }
    }
  }

  /** A step spends exactly one number per emitted batch, in order, and leaves the
      lane at the number after the last one. */
  predicate SpendsNumbers(c: Settings, k: LaneKey, l: LaneState, step: LaneStep) {
    && Numbered(c, k, l.seqNum, step.emitted)
    && step.lane.seqNum == Nth(l.seqNum, c.snMask, |step.emitted|)
  }

  lemma FlushSpends(c: Settings, k: LaneKey, l: LaneState)
    requires WellFormed(c, k, l)
    ensures SpendsNumbers(c, k, l, Flushed(c, l))
  {
    if |l.batch| > 0 {
      var start := FrameStart(c, k, l.seqNum);
      assert l.batch == start + l.batch[|start|..];
      FrameStamp(c, k, l.seqNum, l.batch[|start|..]);
    }
  }

  lemma {:induction false} FragmentsSpend(c: Settings, k: LaneKey, seqNum: uint64, msg: bytes)
    requires c.batchSize > FragmentOverhead
    ensures var (batches, next) := Fragmented(c, k, seqNum, msg);
            Numbered(c, k, seqNum, batches) && next == Nth(seqNum, c.snMask, |batches|)
    decreases |msg|
  {
    hide FragmentBatch, Stamp, Next, Chunk;
    if |msg| > 0 {
      var n := Chunk(c, msg);
      var first := FragmentBatch(c, k, seqNum, n < |msg|, msg[..n]);
      var (batches, next) := Fragmented(c, k, Next(seqNum, c.snMask), msg[n..]);
      FragmentStamp(c, k, seqNum, n < |msg|, msg[..n]);
      FragmentsSpend(c, k, Next(seqNum, c.snMask), msg[n..]);
      assert Nth(seqNum, c.snMask, 1) == Next(seqNum, c.snMask);
      NumberedAppend(c, k, seqNum, [first], batches);
      NthAfter(seqNum, c.snMask, 1, |batches|);
    }
  }

  lemma SpendTwice(c: Settings, k: LaneKey, l: LaneState, a: LaneStep, b: LaneStep)
    requires SpendsNumbers(c, k, l, a) && SpendsNumbers(c, k, a.lane, b)
    ensures SpendsNumbers(c, k, l, LaneStep(b.lane, a.emitted + b.emitted, b.ok))
  {
    NumberedAppend(c, k, l.seqNum, a.emitted, b.emitted);
    NthAfter(l.seqNum, c.snMask, |a.emitted|, |b.emitted|);
  }

  lemma EnqueueSpends(c: Settings, k: LaneKey, l: LaneState, msg: bytes, express: bool)
    requires WellFormed(c, k, l)
    ensures SpendsNumbers(c, k, l, Enqueued(c, k, l, msg, express))
  {
    FlushSpends(c, k, l);
    FlushKeepsForm(c, k, l);
    var flush := Flushed(c, l);
    if |msg| > c.batchSize - FragmentOverhead {
      if c.batchSize > FragmentOverhead {
        FragmentsSpend(c, k, flush.lane.seqNum, msg);
        var (batches, next) := Fragmented(c, k, flush.lane.seqNum, msg);
        SpendTwice(c, k, l, flush, LaneStep(Idle(next), batches, true));
      }
    } else if express {
      var filled := Appended(c, k, flush.lane, msg);
      AppendKeepsForm(c, k, flush.lane, msg);
      FlushSpends(c, k, filled);
      SpendTwice(c, k, l, flush, Flushed(c, filled));
    }
  }
}
