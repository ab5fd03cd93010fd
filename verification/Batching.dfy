/**
 The sixteen-lane batcher (internal/transport/batcher.go) and the sink it writes to.
 */
module Batching {
  import opened Buffer
  import opened Extensions
  import opened WireTypes
  import opened TransportMessages
  import opened SequenceNumbers
  import opened Lanes
  import opened LanePacking
  import Vle

  /** `after` is `before` plus some of `emitted`, in order, but not all of it. */
  ghost predicate CutShort(before: seq<bytes>, after: seq<bytes>, emitted: seq<bytes>) {
    exists j {:trigger emitted[..j]} :: 0 <= j < |emitted| && after == before + emitted[..j]
  }

  lemma CutEarly(before: seq<bytes>, after: seq<bytes>, a: seq<bytes>, b: seq<bytes>)
    requires CutShort(before, after, a)
    ensures CutShort(before, after, a + b)
  {
    var j :| 0 <= j < |a| && after == before + a[..j];
    assert (a + b)[..j] == a[..j];
  }

  lemma CutLate(before: seq<bytes>, after: seq<bytes>, a: seq<bytes>, b: seq<bytes>)
    requires CutShort(before + a, after, b)
    ensures CutShort(before, after, a + b)
  {
    var j :| 0 <= j < |b| && after == before + a + b[..j];
    assert (a + b)[..|a| + j] == a + b[..j];
    assert before + (a + b)[..|a| + j] == before + a + b[..j];
  }

  /** The link as the writer sees it: each write either reaches the wire or fails. */
  class Link {
    var sent: seq<bytes>
    var failures: nat
    const reliable: bool

    constructor (reliable: bool)
      ensures sent == [] && failures == 0 && this.reliable == reliable
    {
      sent, failures := [], 0;
      this.reliable := reliable;
    }

    method WriteBatch(batch: bytes) returns (ok: bool)
      modifies this
      ensures reliable ==> ok
      ensures ok ==> sent == old(sent) + [batch] && failures == old(failures)
      ensures !ok ==> sent == old(sent) && failures == old(failures) + 1
    {
      ok := reliable;
      if !ok {
        ok := *;
      }
      if ok {
        sent := sent + [batch];
      } else {
        failures := failures + 1;
      }
    }

    /** Every batch of `emitted` was written, in order. */
    twostate predicate Wrote(emitted: seq<bytes>)
      reads this
    {
      failures == old(failures) && sent == old(sent) + emitted
    }

    /** A write failed: a proper prefix of `emitted` is on the wire. */
    twostate predicate Broke(emitted: seq<bytes>)
      reads this
    {
      && !reliable
      && failures == old(failures) + 1
      && CutShort(old(sent), sent, emitted)
    }
  }

  // ----- all lanes at once -----

  /** The lanes in the order in which FlushAll visits them. */
  function LaneAt(i: nat): LaneKey
    requires i < 16
  {
    LaneKey(i / 2, i % 2 == 1)
  }

  function Index(k: LaneKey): (i: nat)
    ensures i < 16 && LaneAt(i) == k
  {
    2 * k.priority + if k.reliable then 1 else 0
  }

  ghost predicate Complete(lanes: map<LaneKey, LaneState>) {
    forall k: LaneKey :: k in lanes
  }

  ghost predicate AllWellFormed(c: Settings, lanes: map<LaneKey, LaneState>) {
    Complete(lanes) && forall k: LaneKey :: WellFormed(c, k, lanes[k])
  }

  /** The lanes from the i-th on are flushed in turn. */
  ghost function FlushedFrom(c: Settings, lanes: map<LaneKey, LaneState>, i: nat): (map<LaneKey, LaneState>, seq<bytes>)
    requires Complete(lanes) && i <= 16
    decreases 16 - i
  {
    if i == 16 then (lanes, [])
    else
      var step := Flushed(c, lanes[LaneAt(i)]);
      var (rest, batches) := FlushedFrom(c, lanes[LaneAt(i) := step.lane], i + 1);
      (rest, step.emitted + batches)
  }

  class Lane {
    const priority: Priority
    const reliable: bool
    var seqNum: uint64
    var batch: bytes
    var bodyStart: nat

    constructor (k: LaneKey, seqNum: uint64)
      ensures Key() == k && State() == Idle(seqNum)
    {
      priority, reliable := k.priority, k.reliable;
      this.seqNum, batch, bodyStart := seqNum, [], 0;
    }

    function Key(): LaneKey {
      LaneKey(priority, reliable)
    }

    function State(): LaneState
      reads this
    {
      LaneState(seqNum, batch, bodyStart)
    }
  }

  class Batcher {
    const settings: Settings
    const seeds: LaneKey -> uint64
    const sink: Link
    const lanes: array2<Lane?>

    /** Per-lane starting numbers; a unicast batcher passes the same one for all. */
    constructor (batchSize: nat, attachQoS: bool, seeds: LaneKey -> uint64, snMask: uint64, sink: Link)
      ensures Valid() && fresh(lanes) && this.sink == sink && Objects() == {}
      ensures settings == Settings(batchSize, attachQoS, NormalizeMask(snMask))
      ensures forall k :: LaneView(k) == Idle(seeds(k))
    {
      settings := Settings(batchSize, attachQoS, NormalizeMask(snMask));
      this.seeds := seeds;
      this.sink := sink;
      lanes := new Lane?[8, 2]((p, r) => null);
    }

    /** The lane objects created so far. */
    ghost function Objects(): set<Lane>
      reads this, lanes
    {
      set p, r | 0 <= p < lanes.Length0 && 0 <= r < lanes.Length1 && lanes[p, r] != null :: lanes[p, r]
    }

    ghost predicate Valid()
      reads this, lanes
    {
      && lanes.Length0 == 8 && lanes.Length1 == 2
      && forall p, r :: 0 <= p < 8 && 0 <= r < 2 && lanes[p, r] != null ==>
           lanes[p, r].priority == p && lanes[p, r].reliable == (r == 1)
    }

    function Slot(k: LaneKey): nat {
      if k.reliable then 1 else 0
    }

    /** A lane that does not exist yet counts as idle at its seed. */
    ghost function LaneView(k: LaneKey): LaneState
      requires Valid()
      reads this, lanes, Objects()
    {
      var l := lanes[k.priority, Slot(k)];
      if l == null then Idle(seeds(k)) else l.State()
    }

    ghost function View(): (m: map<LaneKey, LaneState>)
      requires Valid()
      reads this, lanes, Objects()
      ensures Complete(m) && forall k: LaneKey :: m[k] == LaneView(k)
    {
      var keys := set i | 0 <= i < 16 :: LaneAt(i);
      forall k: LaneKey
        ensures k in keys
      {
        assert LaneAt(Index(k)) in keys;
      }
      map k | k in keys :: LaneView(k)
    }

    method LaneFor(k: LaneKey) returns (l: Lane)
      requires Valid()
      modifies lanes
      ensures Valid() && l in Objects() && l.Key() == k && l.State() == old(LaneView(k))
      ensures fresh(Objects() - old(Objects()))
      ensures View() == old(View()) && LaneView(k) == l.State()
      ensures lanes[k.priority, Slot(k)] == l
    {
      if lanes[k.priority, Slot(k)] == null {
        var created := new Lane(k, seeds(k));
        lanes[k.priority, Slot(k)] := created;
      }
      l := lanes[k.priority, Slot(k)];
      assert l in Objects();
    }

    /** FRAME header, number and QoS extension for the lane's next batch. */
    method OpenFrame(l: Lane)
      modifies l
      ensures l.seqNum == old(l.seqNum)
      ensures l.batch == FrameStart(settings, l.Key(), l.seqNum) && l.bodyStart == |l.batch|
    {
      hide PackHeader, Vle.Encoded, EncodedExts, EncodedExt, EncodeQoS;
      var exts := LaneExts(settings.attachQoS, l.priority);
      LaneOfExts(settings.attachQoS, l.priority);
      var w := new Writer([]);
      EncodeHeader(w, Header(IdFrame, l.reliable, false, settings.attachQoS));
      Vle.EncodeZ64(w, l.seqNum);
      if settings.attachQoS {
        var ok := EncodeExtension(w, exts[0]);
        LastExt(exts[0]);
      } else {
        LastExts(w.buf);
      }
      assert w.buf == EncodedFrame(FrameOf(settings, l.Key(), l.seqNum));
      l.batch := w.buf;
      l.bodyStart := |l.batch|;
    }

    method AppendToLane(l: Lane, body: bytes)
      modifies l
      ensures l.State() == Appended(settings, l.Key(), old(l.State()), body)
    {
      if |l.batch| == 0 {
        OpenFrame(l);
      }
      l.batch := l.batch + body;
    }

    /** The lane is reset and its number spent even when the write fails. */
    method FlushLane(l: Lane) returns (ok: bool)
      modifies l, sink
      ensures l.State() == Flushed(settings, old(l.State())).lane
      ensures ok ==> sink.Wrote(Flushed(settings, old(l.State())).emitted)
      ensures !ok ==> sink.Broke(Flushed(settings, old(l.State())).emitted)
    {
      if |l.batch| == 0 || |l.batch| == l.bodyStart {
        l.batch, l.bodyStart := [], 0;
        return true;
      }
      ghost var emitted := [l.batch];
      ok := sink.WriteBatch(l.batch);
      l.seqNum := Next(l.seqNum, settings.snMask);
      l.batch, l.bodyStart := [], 0;
      assert emitted[..0] == [];
    }

    method EncodeFragmentBatch(k: LaneKey, seqNum: uint64, more: bool, body: bytes) returns (batch: bytes)
      ensures batch == FragmentBatch(settings, k, seqNum, more, body)
    {
      hide EncodedFragment;
      var w := new Writer([]);
      LaneOfExts(settings.attachQoS, k.priority);
      var encodable := WriteFragment(w, FragmentOf(settings, k, seqNum, more, body));
      batch := w.buf;
    }

    /** Cuts the message into FRAGMENTs on the lane; each is a batch of its own. */
    method FragmentLane(l: Lane, msg: bytes) returns (ok: bool)
      requires |l.batch| == 0 && l.bodyStart == 0
      modifies l, sink
      ensures l.batch == [] && l.bodyStart == 0
      ensures settings.batchSize <= FragmentOverhead ==> !ok && l.State() == old(l.State()) && sink.Wrote([])
      ensures settings.batchSize > FragmentOverhead ==>
                var (batches, next) := Fragmented(settings, l.Key(), old(l.seqNum), msg);
                && (ok ==> l.seqNum == next && sink.Wrote(batches))
                && (!ok ==> sink.Broke(batches))
    {
      hide FragmentBatch, Chunk, Next;
      if settings.batchSize <= FragmentOverhead {
        return false;
      }
      var rest, sn := msg, l.seqNum;
      ghost var done: seq<bytes> := [];
      ghost var plan := Fragmented(settings, l.Key(), sn, msg);
      while |rest| > 0
        invariant l.State() == old(l.State()) && sink.Wrote(done)
        invariant plan.0 == done + Fragmented(settings, l.Key(), sn, rest).0
        invariant plan.1 == Fragmented(settings, l.Key(), sn, rest).1
        decreases |rest|
      {
        var n := Chunk(settings, rest);
        var batch := EncodeFragmentBatch(l.Key(), sn, n < |rest|, rest[..n]);
        ghost var tail := Fragmented(settings, l.Key(), Next(sn, settings.snMask), rest[n..]);
        assert done + ([batch] + tail.0) == (done + [batch]) + tail.0;
        ok := sink.WriteBatch(batch);
        if !ok {
          l.seqNum := sn;
          assert plan.0[..|done|] == done;
          return;
        }
        done := done + [batch];
        rest, sn := rest[n..], Next(sn, settings.snMask);
      }
      assert done + [] == done;
      l.seqNum := sn;
      ok := true;
    }

    /** Everything but lane `k` and the sink is as before. */
    twostate predicate OnlyLane(k: LaneKey, now: LaneState)
      requires old(Valid())
      reads this, lanes, Objects()
    {
      Valid() && View() == old(View())[k := now]
    }

    /** Routes one message to its lane. An invalid priority is refused without any
        effect; without a failing write the lane and the wire are as `Enqueued` says,
        and a failing write leaves a prefix of that on the wire. What that means for the
        lane and the wire is `Packed`: an express message is gone at once, alone. */
    method Enqueue(msg: OutboundMessage) returns (ok: bool)
      requires Valid()
      modifies lanes, Objects(), sink
      ensures Valid() && fresh(Objects() - old(Objects()))
      ensures !msg.HasLane() ==> !ok && View() == old(View()) && sink.Wrote([])
      ensures msg.HasLane() ==>
                var step := Enqueued(settings, msg.Lane(), old(LaneView(msg.Lane())), msg.encoded, msg.express);
                || (sink.Wrote(step.emitted) && ok == step.ok && OnlyLane(msg.Lane(), step.lane))
                || (sink.Broke(step.emitted) && !ok && OnlyLane(msg.Lane(), LaneView(msg.Lane())))
      ensures msg.HasLane() && sink.failures == old(sink.failures) ==> old(sink.sent) <= sink.sent
      ensures msg.HasLane() && sink.failures == old(sink.failures)
              && WellFormed(settings, msg.Lane(), old(LaneView(msg.Lane()))) ==>
                Packed(settings, msg.Lane(), old(LaneView(msg.Lane())), msg.encoded, msg.express,
                       LaneView(msg.Lane()), sink.sent[|old(sink.sent)|..], ok)
    {
      hide Enqueued, CutShort, Packed, WellFormed, View;
      if !msg.HasLane() {
        return false;
      }
      var k := msg.Lane();
      ghost var was := LaneView(k);
      ok := EnqueueAt(k, msg.encoded, msg.express);
      ghost var step := Enqueued(settings, k, was, msg.encoded, msg.express);
      assert sink.failures == old(sink.failures) ==> sink.sent[|old(sink.sent)|..] == step.emitted;
      if WellFormed(settings, k, was) {
        EnqueuePacks(settings, k, was, msg.encoded, msg.express);
      }
    }

    method EnqueueAt(k: LaneKey, msg: bytes, express: bool) returns (ok: bool)
      requires Valid()
      modifies lanes, Objects(), sink
      ensures Valid() && fresh(Objects() - old(Objects()))
      ensures View() == old(View())[k := LaneView(k)]
      ensures var step := Enqueued(settings, k, old(LaneView(k)), msg, express);
              || (sink.Wrote(step.emitted) && ok == step.ok && LaneView(k) == step.lane)
              || (sink.Broke(step.emitted) && !ok)
    {
      hide Enqueued, CutShort;
      var l := LaneFor(k);
      ok := EnqueueOn(l, msg, express);
      forall j: LaneKey | j != k
        ensures LaneView(j) == old(LaneView(j))
      {
        assert lanes[j.priority, Slot(j)] != l;
      }
    }

    method EnqueueOn(l: Lane, msg: bytes, express: bool) returns (ok: bool)
      modifies l, sink
      ensures var step := Enqueued(settings, l.Key(), old(l.State()), msg, express);
              || (sink.Wrote(step.emitted) && ok == step.ok && l.State() == step.lane)
              || (sink.Broke(step.emitted) && !ok)
    {
      ghost var before := sink.sent;
      ghost var first := Flushed(settings, l.State());
      if |msg| > settings.batchSize - FragmentOverhead {
        ok := FlushLane(l);
        ghost var second := if settings.batchSize <= FragmentOverhead then []
                            else Fragmented(settings, l.Key(), first.lane.seqNum, msg).0;
        if ok {
          ok := FragmentLane(l, msg);
          SplitWrites(before, sink.sent, first.emitted, second);
        } else {
          CutEarly(before, sink.sent, first.emitted, second);
        }
        return;
      }
      if express {
        ok := FlushLane(l);
        ghost var second := Flushed(settings, Appended(settings, l.Key(), first.lane, msg)).emitted;
        if ok {
          AppendToLane(l, msg);
          ok := FlushLane(l);
          SplitWrites(before, sink.sent, first.emitted, second);
        } else {
          CutEarly(before, sink.sent, first.emitted, second);
        }
        return;
      }
      if |l.batch| > 0 && |l.batch| + |msg| > settings.batchSize {
        ok := FlushLane(l);
        if !ok { return; }
      }
      AppendToLane(l, msg);
      ok := true;
    }

    /** One round of the FlushAll loop. */
    method FlushSlot(k: LaneKey) returns (ok: bool)
      requires Valid()
      modifies Objects(), sink
      ensures Valid() && unchanged(lanes) && Objects() == old(Objects())
      ensures View() == old(View())[k := Flushed(settings, old(LaneView(k))).lane]
      ensures ok ==> sink.Wrote(Flushed(settings, old(LaneView(k))).emitted)
      ensures !ok ==> sink.Broke(Flushed(settings, old(LaneView(k))).emitted)
    {
      var l := lanes[k.priority, Slot(k)];
      ok := true;
      if l != null {
        assert l in Objects();
        ok := FlushLane(l);
        forall j: LaneKey | j != k
          ensures LaneView(j) == old(LaneView(j))
        {
          assert lanes[j.priority, Slot(j)] != l;
        }
      }
    }

    /** The same seen from the whole flush: `done` has been written since `before`, and
        what remains of the plan is that of the lanes from the i-th on. */
    method FlushNext(p: nat, r: nat, ghost before: seq<bytes>, ghost done: seq<bytes>,
                     ghost plan: (map<LaneKey, LaneState>, seq<bytes>))
      returns (ok: bool, ghost done': seq<bytes>)
      requires Valid() && p < 8 && r < 2 && sink.sent == before + done
      requires plan.0 == FlushedFrom(settings, View(), 2 * p + r).0
      requires plan.1 == done + FlushedFrom(settings, View(), 2 * p + r).1
      modifies Objects(), sink
      ensures Valid() && unchanged(lanes) && Objects() == old(Objects())
      ensures ok ==>
                && sink.failures == old(sink.failures) && sink.sent == before + done'
                && plan.0 == FlushedFrom(settings, View(), 2 * p + r + 1).0
                && plan.1 == done' + FlushedFrom(settings, View(), 2 * p + r + 1).1
      ensures !ok ==>
                && !sink.reliable && sink.failures == old(sink.failures) + 1
                && CutShort(before, sink.sent, plan.1)
    {
      hide Flushed, FlushedFrom, Valid, Objects;
      var k := LaneKey(p, r == 1);
      assert LaneAt(2 * p + r) == k;
      ghost var step := Flushed(settings, LaneView(k));
      ghost var rest := FlushedFrom(settings, View()[k := step.lane], 2 * p + r + 1);
      FlushRound(settings, View(), 2 * p + r, done);
      ok := FlushSlot(k);
      done' := done + step.emitted;
      SplitWrites(before, sink.sent, done, step.emitted);
      if !ok {
        CutEarly(before, sink.sent, done', rest.1);
      }
    }

    /** Flushes every lane in turn and stops at the first failing write. */
    method FlushAll() returns (ok: bool)
      requires Valid()
      modifies Objects(), sink
      ensures Valid() && unchanged(lanes) && Objects() == old(Objects())
      ensures var (after, batches) := FlushedFrom(settings, old(View()), 0);
              || (ok && sink.Wrote(batches) && View() == after)
              || (!ok && sink.Broke(batches))
    {
      hide Flushed, FlushedFrom, Valid, Objects, CutShort, View;
      ghost var plan := FlushedFrom(settings, View(), 0);
      ghost var before, done: seq<bytes> := sink.sent, [];
      assert before + done == before && done + plan.1 == plan.1;
      for p := 0 to 8
        invariant Valid() && unchanged(lanes) && Objects() == old(Objects())
        invariant sink.failures == old(sink.failures) && sink.sent == before + done
        invariant plan.0 == FlushedFrom(settings, View(), 2 * p).0
        invariant plan.1 == done + FlushedFrom(settings, View(), 2 * p).1
      {
        for r := 0 to 2
          invariant Valid() && unchanged(lanes) && Objects() == old(Objects())
          invariant sink.failures == old(sink.failures) && sink.sent == before + done
          invariant plan.0 == FlushedFrom(settings, View(), 2 * p + r).0
          invariant plan.1 == done + FlushedFrom(settings, View(), 2 * p + r).1
        {
          ok, done := FlushNext(p, r, before, done, plan);
          if !ok {
            return;
          }
        }
      }
      FlushDone(settings, View());
      assert done + [] == done;
      ok := true;
    }
  }

  lemma LastExt(e: Extension)
    requires EncodableExt(e) && !e.more
    ensures EncodedExts([e]) == EncodedExt(e)
  {
    assert [e][1..] == [] && EncodedExt(e) + [] == EncodedExt(e);
  }

  lemma LastExts(s: bytes)
    ensures s + EncodedExts([]) == s
  {
  }

  lemma FlushDone(c: Settings, lanes: map<LaneKey, LaneState>)
    requires Complete(lanes)
    ensures FlushedFrom(c, lanes, 16) == (lanes, [])
  {
  }

  lemma FlushRound(c: Settings, lanes: map<LaneKey, LaneState>, i: nat, done: seq<bytes>)
    requires Complete(lanes) && i < 16
    ensures var step := Flushed(c, lanes[LaneAt(i)]);
            var rest := FlushedFrom(c, lanes[LaneAt(i) := step.lane], i + 1);
            && FlushedFrom(c, lanes, i).0 == rest.0
            && done + FlushedFrom(c, lanes, i).1 == (done + step.emitted) + rest.1
  {
    var step := Flushed(c, lanes[LaneAt(i)]);
    var rest := FlushedFrom(c, lanes[LaneAt(i) := step.lane], i + 1);
    assert done + (step.emitted + rest.1) == (done + step.emitted) + rest.1;
  }

  lemma SplitWrites(before: seq<bytes>, after: seq<bytes>, a: seq<bytes>, b: seq<bytes>)
    ensures after == before + a + b ==> after == before + (a + b)
    ensures CutShort(before + a, after, b) ==> CutShort(before, after, a + b)
  {
    if CutShort(before + a, after, b) {
      CutLate(before, after, a, b);
    }
  }
}
