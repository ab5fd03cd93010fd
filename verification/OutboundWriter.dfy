/**
 The writer loop of a session (internal/session/writer.go): it consumes outbound
 items, drives the batcher, and latches the first failure.
 */
module OutboundWriter {
  import opened Wrappers
  import opened Buffer
  import opened TransportMessages
  import opened Lanes
  import opened Batching

  /** A network message for the batcher, a finished transport batch that bypasses it,
      or neither. */
  datatype OutboundItem = NetworkItem(msg: OutboundMessage) | RawItem(batch: bytes) | EmptyItem

  datatype Action = Handle(item: OutboundItem) | Flush

  /** What the writer has done so far if no write fails: the lanes, the batches on
      the wire, and whether an item was refused (which ends all further work). */
  datatype Plan = Plan(lanes: map<LaneKey, LaneState>, sent: seq<bytes>, refused: bool)

  ghost function FlushedPlan(c: Settings, p: Plan): Plan
    requires Complete(p.lanes)
  {
    var (lanes, batches) := FlushedFrom(c, p.lanes, 0);
    Plan(lanes, p.sent + batches, p.refused)
  }

  ghost function Act(c: Settings, p: Plan, a: Action): Plan
    requires Complete(p.lanes)
  {
    if p.refused then p
    else
      match a
      case Handle(NetworkItem(m)) =>
        if !m.HasLane() then p.(refused := true)
        else
          var step := Enqueued(c, m.Lane(), p.lanes[m.Lane()], m.encoded, m.express);
          Plan(p.lanes[m.Lane() := step.lane], p.sent + step.emitted, !step.ok)
      case Handle(RawItem(batch)) =>
        var f := FlushedPlan(c, p);
        f.(sent := f.sent + [batch])
      case Handle(EmptyItem) => p
      case Flush => FlushedPlan(c, p)
  }

  lemma FlushKeepsComplete(c: Settings, lanes: map<LaneKey, LaneState>, i: nat)
    requires Complete(lanes) && i <= 16
    ensures Complete(FlushedFrom(c, lanes, i).0)
    decreases 16 - i
  {
  }

  lemma ActKeepsComplete(c: Settings, p: Plan, a: Action)
    requires Complete(p.lanes)
    ensures Complete(Act(c, p, a).lanes)
    ensures p.sent <= Act(c, p, a).sent
  {
    hide Enqueued, FlushedFrom;
    FlushKeepsComplete(c, p.lanes, 0);
  }

  lemma CutIsPrefix(before: seq<bytes>, after: seq<bytes>, emitted: seq<bytes>)
    requires CutShort(before, after, emitted)
    ensures before <= after <= before + emitted
  {
    var j :| 0 <= j < |emitted| && after == before + emitted[..j];
    assert emitted == emitted[..j] + emitted[j..];
  }

  ghost function ActAll(c: Settings, p: Plan, actions: seq<Action>): (r: Plan)
    requires Complete(p.lanes)
    ensures Complete(r.lanes) && p.sent <= r.sent
    decreases |actions|
  {
    if |actions| == 0 then p
    else
      ActKeepsComplete(c, p, actions[0]);
      ActAll(c, Act(c, p, actions[0]), actions[1..])
  }

  lemma {:induction false} ActAppend(c: Settings, p: Plan, a: seq<Action>, b: seq<Action>)
    requires Complete(p.lanes)
    ensures ActAll(c, p, a + b) == ActAll(c, ActAll(c, p, a), b)
    decreases |a|
  {
    if |a| == 0 {
      assert a + b == b;
    } else {
      ActKeepsComplete(c, p, a[0]);
      assert (a + b)[0] == a[0] && (a + b)[1..] == a[1..] + b;
      ActAppend(c, Act(c, p, a[0]), a[1..], b);
    }
  }

  /** Items that were already queued when the first of them was taken, then a flush. */
  function BurstActions(items: seq<OutboundItem>): (s: seq<Action>)
    ensures |s| == |items| + 1
  {
    seq(|items|, i requires 0 <= i < |items| => Handle(items[i])) + [Flush]
  }

  function RunActions(bursts: seq<seq<OutboundItem>>, last: Option<seq<OutboundItem>>): seq<Action> {
    if |bursts| == 0 then (if last.Some? then BurstActions(last.value) else [])
    else BurstActions(bursts[0]) + RunActions(bursts[1..], last)
  }

  /** The writer around its batcher and link. */
  class Writer {
    const batcher: Batcher
    const link: Link

    constructor (batcher: Batcher)
      ensures this.batcher == batcher && link == batcher.sink
    {
      this.batcher := batcher;
      link := batcher.sink;
    }

    ghost predicate Valid()
      reads this, batcher, batcher.lanes
    {
      batcher.Valid() && link == batcher.sink
    }

    ghost function Objects(): set<object>
      reads this, batcher, batcher.lanes
    {
      {batcher.lanes, link} + batcher.Objects()
    }

    ghost function State(): (p: Plan)
      requires Valid()
      reads this, batcher, batcher.lanes, batcher.Objects(), link
      ensures Complete(p.lanes)
    {
      Plan(batcher.View(), link.sent, false)
    }

    /** The outcome of working on a plan: done, refused where the plan refuses, or
        cut short by a failing write with a prefix of the plan on the wire. */
    twostate predicate Follows(plan: Plan, ok: bool)
      requires Valid() && old(Valid())
      reads this, batcher, batcher.lanes, batcher.Objects(), link
    {
      if link.failures == old(link.failures) then
        ok == !plan.refused && batcher.View() == plan.lanes && link.sent == plan.sent
      else
        && !ok && !link.reliable && link.failures > old(link.failures)
        && old(link.sent) <= link.sent <= plan.sent
    }

    method HandleMessage(m: OutboundMessage) returns (ok: bool)
      requires Valid()
      modifies Objects()
      ensures Valid() && fresh(Objects() - old(Objects()))
      ensures Follows(Act(batcher.settings, old(State()), Handle(NetworkItem(m))), ok)
    {
      hide Enqueued, FlushedFrom, CutShort;
      ghost var before := link.sent;
      ghost var step := if m.HasLane()
                        then Enqueued(batcher.settings, m.Lane(), batcher.LaneView(m.Lane()), m.encoded, m.express)
                        else LaneStep(Idle(0), [], false);
      ok := batcher.Enqueue(m);
      if CutShort(before, link.sent, step.emitted) {
        CutIsPrefix(before, link.sent, step.emitted);
      }
    }

    method FlushAll() returns (ok: bool)
      requires Valid()
      modifies Objects()
      ensures Valid() && fresh(Objects() - old(Objects()))
      ensures Follows(FlushedPlan(batcher.settings, old(State())), ok)
    {
      hide FlushedFrom, CutShort;
      ghost var before := link.sent;
      ghost var batches := FlushedFrom(batcher.settings, batcher.View(), 0).1;
      ok := batcher.FlushAll();
      if CutShort(before, link.sent, batches) {
        CutIsPrefix(before, link.sent, batches);
      }
    }

    /** A finished batch goes out after everything that is still being packed. */
    method HandleRaw(batch: bytes) returns (ok: bool)
      requires Valid()
      modifies Objects()
      ensures Valid() && fresh(Objects() - old(Objects()))
      ensures Follows(Act(batcher.settings, old(State()), Handle(RawItem(batch))), ok)
    {
      hide FlushedFrom;
      ok := FlushAll();
      if ok {
        ok := link.WriteBatch(batch);
      }
    }

    method HandleItem(item: OutboundItem) returns (ok: bool)
      requires Valid()
      modifies Objects()
      ensures Valid() && fresh(Objects() - old(Objects()))
      ensures Follows(Act(batcher.settings, old(State()), Handle(item)), ok)
    {
      match item
      case NetworkItem(m) => ok := HandleMessage(m);
      case RawItem(batch) => ok := HandleRaw(batch);
      case EmptyItem => ok := true;
    }

    /** Where a run stands that has the actions `todo` still before it. */
    twostate predicate OnTrack(plan: Plan, todo: seq<Action>, dead: bool)
      requires Valid() && old(Valid())
      reads this, batcher, batcher.lanes, batcher.Objects(), link
    {
      if dead then Follows(plan, false)
      else
        && link.failures == old(link.failures) && old(link.sent) <= link.sent
        && plan == ActAll(batcher.settings, State(), todo)
    }

    /** Handles the items found in the queue, then flushes. Once a failure is latched
        the items are dropped without touching the link (drainAvailable, drainOnExit).
        Otherwise nothing is held back. */
    method Drain(items: seq<OutboundItem>, dead: bool) returns (nowDead: bool)
      requires Valid()
      modifies Objects()
      ensures Valid() && fresh(Objects() - old(Objects()))
      ensures dead ==> nowDead && State() == old(State()) && link.failures == old(link.failures)
      ensures !dead ==> Follows(ActAll(batcher.settings, old(State()), BurstActions(items)), !nowDead)
      ensures !nowDead ==> NothingOpen(batcher.View())
    {
      hide Act, BurstActions, NothingOpen;
      nowDead := dead;
      ghost var actions := BurstActions(items);
      ghost var plan := ActAll(batcher.settings, State(), actions);
      for i := 0 to |items|
        invariant Valid() && fresh(Objects() - old(Objects()))
        invariant dead ==> nowDead && State() == old(State()) && link.failures == old(link.failures)
        invariant !dead ==> OnTrack(plan, actions[i..], nowDead)
      {
        if nowDead {
          continue;
        }
        BurstAction(items, i);
        assert actions[i..][1..] == actions[i + 1..];
        StepActions(batcher.settings, State(), actions[i..]);
        ghost var before, next := link.sent, Act(batcher.settings, State(), Handle(items[i]));
        var ok := HandleItem(items[i]);
        PrefixChain(old(link.sent), before, link.sent, next.sent, plan.sent);
        nowDead := !ok;
      }
      if !nowDead {
        BurstAction(items, |items|);
        StepActions(batcher.settings, State(), actions[|items|..]);
        var ok := FlushAll();
        nowDead := !ok;
        if ok {
          BurstIsFlushed(batcher.settings, old(State()), items);
        }
      }
    }

    /** The wake-ups of the loop, one burst of queued items each. */
    method Bursts(bursts: seq<seq<OutboundItem>>, ghost last: Option<seq<OutboundItem>>) returns (dead: bool)
      requires Valid()
      modifies Objects()
      ensures Valid() && fresh(Objects() - old(Objects()))
      ensures OnTrack(ActAll(batcher.settings, old(State()), RunActions(bursts, last)), RunActions([], last), dead)
    {
      hide ActAll, BurstActions, RunActions;
      dead := false;
      ghost var plan := ActAll(batcher.settings, State(), RunActions(bursts, last));
      assert bursts[0..] == bursts;
      for i := 0 to |bursts|
        invariant Valid() && fresh(Objects() - old(Objects()))
        invariant OnTrack(plan, RunActions(bursts[i..], last), dead)
      {
        assert bursts[i..][1..] == bursts[i + 1..] && bursts[i..][0] == bursts[i];
        if !dead {
          BurstOfRun(batcher.settings, State(), bursts[i..], last);
          ghost var before, burst := link.sent, ActAll(batcher.settings, State(), BurstActions(bursts[i]));
          dead := Drain(bursts[i], false);
          PrefixChain(old(link.sent), before, link.sent, burst.sent, plan.sent);
        } else {
          dead := Drain(bursts[i], true);
        }
      }
      assert bursts[|bursts|..] == [];
    }

    /** The loop: each wake-up takes what is queued (`bursts`), then either a graceful
        stop drains the queue once more (`last`) or a fast stop does not. The deferred
        flush at the end happens in every case. */
    method Loop(bursts: seq<seq<OutboundItem>>, last: Option<seq<OutboundItem>>)
      returns (dead: bool, ghost onWire: seq<bytes>)
      requires Valid()
      modifies Objects()
      ensures Valid()
      ensures var plan := ActAll(batcher.settings, old(State()), RunActions(bursts, last));
              && old(link.sent) <= onWire <= plan.sent && onWire <= link.sent
              && (link.failures == old(link.failures) ==>
                    && dead == plan.refused && onWire == plan.sent
                    && link.sent == FlushedPlan(batcher.settings, plan).sent)
      ensures link.reliable ==> link.failures == old(link.failures)
    {
      hide ActAll, BurstActions, FlushedFrom;
      ghost var plan := ActAll(batcher.settings, State(), RunActions(bursts, last));
      dead := Bursts(bursts, last);
      if last.Some? {
        ghost var before := link.sent;
        dead := Drain(last.value, dead);
        PrefixChain(old(link.sent), before, link.sent, plan.sent, plan.sent);
      } else if !dead {
        ActNothing(batcher.settings, State());
      }
      onWire := link.sent;
      var ok := FlushAll();
    }
  }

  // ----- nothing is held back -----

  ghost predicate NothingOpen(lanes: map<LaneKey, LaneState>) {
    Complete(lanes) && forall k: LaneKey :: lanes[k].batch == []
  }

  lemma {:induction false} FlushEmpties(c: Settings, lanes: map<LaneKey, LaneState>, i: nat)
    requires Complete(lanes) && i <= 16 && forall k: LaneKey :: Index(k) < i ==> lanes[k].batch == []
    ensures NothingOpen(FlushedFrom(c, lanes, i).0)
    decreases 16 - i
  {
    if i < 16 {
      var step := Flushed(c, lanes[LaneAt(i)]);
      FlushEmpties(c, lanes[LaneAt(i) := step.lane], i + 1);
    }
  }

  /** A wake-up that is not cut short leaves no FRAME open: what was queued is on the wire. */
  lemma BurstIsFlushed(c: Settings, p: Plan, items: seq<OutboundItem>)
    requires Complete(p.lanes) && !ActAll(c, p, BurstActions(items)).refused
    ensures NothingOpen(ActAll(c, p, BurstActions(items)).lanes)
  {
    hide Act, FlushedFrom, NothingOpen;
    var front := BurstActions(items)[..|items|];
    assert BurstActions(items) == front + [Flush];
    ActAppend(c, p, front, [Flush]);
    var q := ActAll(c, p, front);
    if q.refused {
      RefusalIsFinal(c, q, [Flush]);
    } else {
      StepActions(c, q, [Flush]);
      ActNothing(c, FlushedPlan(c, q));
      FlushEmpties(c, q.lanes, 0);
    }
  }

  lemma ActNothing(c: Settings, p: Plan)
    requires Complete(p.lanes)
    ensures ActAll(c, p, []) == p
  {
  }

  /** A run splits into its first burst and the rest; if the first burst is refused
      something, that is where the whole run ends. */
  lemma BurstOfRun(c: Settings, p: Plan, bursts: seq<seq<OutboundItem>>, last: Option<seq<OutboundItem>>)
    requires Complete(p.lanes) && |bursts| > 0
    ensures var burst := ActAll(c, p, BurstActions(bursts[0]));
            var run := ActAll(c, p, RunActions(bursts, last));
            && run == ActAll(c, burst, RunActions(bursts[1..], last))
            && p.sent <= burst.sent <= run.sent
            && (burst.refused ==> run == burst)
  {
    hide BurstActions;
    var burst := ActAll(c, p, BurstActions(bursts[0]));
    var rest := RunActions(bursts[1..], last);
    assert RunActions(bursts, last) == BurstActions(bursts[0]) + rest;
    ActAppend(c, p, BurstActions(bursts[0]), rest);
    if burst.refused {
      RefusalIsFinal(c, burst, rest);
    }
  }

  lemma PrefixChain(a: seq<bytes>, b: seq<bytes>, c: seq<bytes>, d: seq<bytes>, e: seq<bytes>)
    requires a <= b && b <= c && c <= d && d <= e
    ensures a <= c && c <= e
  {
  }

  lemma BurstAction(items: seq<OutboundItem>, i: nat)
    requires i <= |items|
    ensures var actions := BurstActions(items);
            actions[i..] == [if i < |items| then Handle(items[i]) else Flush] + actions[i + 1..]
  {
  }

  /** The rest of a run after its first action; a refusal ends the run there. */
  lemma StepActions(c: Settings, p: Plan, actions: seq<Action>)
    requires Complete(p.lanes) && |actions| > 0 && !p.refused
    ensures var next := Act(c, p, actions[0]);
            && Complete(next.lanes)
            && ActAll(c, p, actions) == ActAll(c, next, actions[1..])
            && (next.refused ==> ActAll(c, p, actions) == next)
            && p.sent <= next.sent <= ActAll(c, p, actions).sent
            && (actions[0].Flush? ==> next == FlushedPlan(c, p))
  {
    ActKeepsComplete(c, p, actions[0]);
    if Act(c, p, actions[0]).refused {
      RefusalIsFinal(c, Act(c, p, actions[0]), actions[1..]);
    }
  }

  lemma {:induction false} RefusalIsFinal(c: Settings, p: Plan, actions: seq<Action>)
    requires Complete(p.lanes) && p.refused
    ensures ActAll(c, p, actions) == p
    decreases |actions|
  {
    if |actions| > 0 {
      RefusalIsFinal(c, p, actions[1..]);
    }
  }
}
