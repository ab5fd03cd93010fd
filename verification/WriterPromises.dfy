/**
 What the writer promises about its plan (internal/session/writer.go:45-174): every burst
 ends with nothing held back, a finished batch overtakes nothing, an express message is out
 at once, and only a message that no lane can take makes the writer give up.
 */
module WriterPromises {
  import opened Wrappers
  import opened Buffer
  import opened TransportMessages
  import opened Lanes
  import opened LanePacking
  import opened Batching
  import opened OutboundWriter
  import opened WireNumbers

  // ----- one item -----

  /** A finished batch goes out last, after everything that was still being packed. */
  lemma RawOvertakesNothing(c: Settings, p: Plan, batch: bytes)
    requires Complete(p.lanes) && !p.refused
    ensures var q := Act(c, p, Handle(RawItem(batch)));
            && NothingOpen(q.lanes) && !q.refused && |q.sent| > |p.sent|
            && q.sent[|q.sent| - 1] == batch && p.sent <= q.sent[..|q.sent| - 1]
            && (forall k: LaneKey :: |p.lanes[k].batch| > p.lanes[k].bodyStart ==>
                  p.lanes[k].batch in q.sent[|p.sent|..|q.sent| - 1])
  {
    hide Flushed, FlushedFrom, NothingOpen, Index;
    FlushEmpties(c, p.lanes, 0);
    var (lanes, batches) := FlushedFrom(c, p.lanes, 0);
    assert p.sent + batches + [batch] == p.sent + (batches + [batch]);
    assert (p.sent + batches + [batch])[|p.sent|..|p.sent| + |batches|] == batches;
    forall k: LaneKey | |p.lanes[k].batch| > p.lanes[k].bodyStart
      ensures p.lanes[k].batch in batches
    {
      BacklogIsFlushed(c, p.lanes, 0, k);
    }
  }

  lemma {:induction false} BacklogIsFlushed(c: Settings, lanes: map<LaneKey, LaneState>, i: nat, k: LaneKey)
    requires Complete(lanes) && i <= Index(k) && |lanes[k].batch| > lanes[k].bodyStart
    ensures lanes[k].batch in FlushedFrom(c, lanes, i).1
    decreases 16 - i
  {
    var step := Flushed(c, lanes[LaneAt(i)]);
    if LaneAt(i) != k {
      assert i != Index(k);
      BacklogIsFlushed(c, lanes[LaneAt(i) := step.lane], i + 1, k);
    } else {
      assert step.emitted == [lanes[k].batch];
    }
  }

  /** A message goes to its own lane as `Packed` says; no other lane is touched. */
  lemma MessageIsPacked(c: Settings, p: Plan, m: OutboundMessage)
    requires AllWellFormed(c, p.lanes) && !p.refused && m.HasLane()
    ensures var (q, k) := (Act(c, p, Handle(NetworkItem(m))), m.Lane());
            && p.sent <= q.sent
            && Packed(c, k, p.lanes[k], m.encoded, m.express, q.lanes[k], q.sent[|p.sent|..], !q.refused)
            && (m.express ==> q.lanes[k].batch == [])
            && forall j: LaneKey :: j != k ==> q.lanes[j] == p.lanes[j]
  {
    hide Enqueued, WellFormed, Joins, GoneAlone, LanePacking.Joined, Turned, GoneInPieces;
    var k := m.Lane();
    var step := Enqueued(c, k, p.lanes[k], m.encoded, m.express);
    EnqueuePacks(c, k, p.lanes[k], m.encoded, m.express);
    assert (p.sent + step.emitted)[|p.sent|..] == step.emitted;
  }

  // ----- giving up -----

  /** No lane can take it: there is no such priority, or the batch size leaves no room for
      so long a message. */
  predicate Hopeless(c: Settings, a: Action) {
    && a.Handle? && a.item.NetworkItem?
    && (!a.item.msg.HasLane() || (c.batchSize <= FragmentOverhead && !Small(c, a.item.msg.encoded)))
  }

  lemma RefusesHopeless(c: Settings, p: Plan, a: Action)
    requires Complete(p.lanes) && !p.refused
    ensures Act(c, p, a).refused <==> Hopeless(c, a)
  {
    hide Flushed, Fragmented, FrameStart, FlushedFrom;
  }

  /** A run without a failing write gives up exactly when it is handed such a message. */
  lemma {:induction false} GivesUpExactly(c: Settings, p: Plan, actions: seq<Action>)
    requires Complete(p.lanes) && !p.refused
    ensures ActAll(c, p, actions).refused <==> exists i :: 0 <= i < |actions| && Hopeless(c, actions[i])
    decreases |actions|
  {
    hide Act, Hopeless;
    if |actions| > 0 {
      RefusesHopeless(c, p, actions[0]);
      ActKeepsComplete(c, p, actions[0]);
      var next, rest := Act(c, p, actions[0]), actions[1..];
      if next.refused {
        RefusalIsFinal(c, next, rest);
      } else {
        GivesUpExactly(c, next, rest);
        assert forall i :: 0 <= i < |rest| ==> rest[i] == actions[i + 1];
        assert forall i :: 0 < i < |actions| ==> actions[i] == rest[i - 1];
      }
    }
  }

  // ----- the order of a flush -----

  /** Urgent lanes first: by priority, and within a priority best-effort before reliable. */
  predicate Before(k: LaneKey, j: LaneKey) {
    k.priority < j.priority || (k.priority == j.priority && !k.reliable && j.reliable)
  }

  /** Lanes from the i-th on, each at most once, urgent ones first. */
  predicate Ascending(o: Origins, i: nat) {
    && (forall a :: 0 <= a < |o| ==> o[a].Some? && Index(o[a].value) >= i)
    && (forall a, b :: 0 <= a < b < |o| ==> Before(o[a].value, o[b].value))
  }

  lemma IndexIsOrder(k: LaneKey, j: LaneKey)
    ensures Before(k, j) <==> Index(k) < Index(j)
  {
  }

  lemma AscendingInFront(i: nat, n: nat, rest: Origins)
    requires i < 16 && n <= 1 && Ascending(rest, i + 1)
    ensures Ascending(From(LaneAt(i), n) + rest, i)
  {
    hide Index, LaneAt, Before;
    var o := From(LaneAt(i), n) + rest;
    IndexOfLane(i);
    forall a | 0 <= a < |o|
      ensures o[a] == if a < n then Some(LaneAt(i)) else rest[a - n]
    {
    }
    forall a, b | 0 <= a < b < |o|
      ensures Before(o[a].value, o[b].value)
    {
      IndexIsOrder(o[a].value, o[b].value);
      assert b >= n && (a >= n ==> Before(rest[a - n].value, rest[b - n].value));
    }
  }

  lemma IndexOfLane(i: nat)
    requires i < 16
    ensures Index(LaneAt(i)) == i
  {
  }

  /** A flush emits at most one batch a lane, in that order. */
  lemma {:induction false} FlushIsOrdered(c: Settings, lanes: map<LaneKey, LaneState>, i: nat)
    requires Complete(lanes) && i <= 16
    ensures Ascending(OriginsOfFlush(c, lanes, i), i)
    decreases 16 - i
  {
    hide Ascending, Index, LaneAt;
    if i == 16 {
      NoneAscending();
    } else {
      var step := Flushed(c, lanes[LaneAt(i)]);
      FlushIsOrdered(c, lanes[LaneAt(i) := step.lane], i + 1);
      AscendingInFront(i, |step.emitted|, OriginsOfFlush(c, lanes[LaneAt(i) := step.lane], i + 1));
    }
  }

  lemma NoneAscending()
    ensures Ascending([], 16)
  {
  }
}
