/**
 Sequence numbers and batch sizes over whole runs of the writer
 (internal/transport/batcher.go:109-256, fragmenter.go:33-67): what the peer reads off
 the batches of each lane, with and without QoS.
 */
module WireNumbers {
  import opened Wrappers
  import opened Buffer
  import opened TransportMessages
  import opened SequenceNumbers
  import opened Lanes
  import opened Batching
  import opened OutboundWriter
  import Vle

  // ----- which lane emitted which batch -----

  /** For each batch on the wire the lane that emitted it, or none for a batch that
      bypassed the batcher. */
  type Origins = seq<Option<LaneKey>>

  function From(k: LaneKey, n: nat): (o: Origins)
    ensures |o| == n
  {
    seq(n, _ => Some(k))
  }

  ghost function OriginsOfFlush(c: Settings, lanes: map<LaneKey, LaneState>, i: nat): Origins
    requires Complete(lanes) && i <= 16
    decreases 16 - i
  {
    if i == 16 then []
    else
      var step := Flushed(c, lanes[LaneAt(i)]);
      From(LaneAt(i), |step.emitted|) + OriginsOfFlush(c, lanes[LaneAt(i) := step.lane], i + 1)
  }

  ghost function OriginsOf(c: Settings, p: Plan, a: Action): Origins
    requires Complete(p.lanes)
  {
    if p.refused then []
    else
      match a
      case Handle(NetworkItem(m)) =>
        if !m.HasLane() then []
        else From(m.Lane(), |Enqueued(c, m.Lane(), p.lanes[m.Lane()], m.encoded, m.express).emitted|)
      case Handle(RawItem(_)) => OriginsOfFlush(c, p.lanes, 0) + [None]
      case Handle(EmptyItem) => []
      case Flush => OriginsOfFlush(c, p.lanes, 0)
  }

  ghost function OriginsOfRun(c: Settings, p: Plan, actions: seq<Action>): Origins
    requires Complete(p.lanes)
    decreases |actions|
  {
    if |actions| == 0 then []
    else
      ActKeepsComplete(c, p, actions[0]);
      OriginsOf(c, p, actions[0]) + OriginsOfRun(c, Act(c, p, actions[0]), actions[1..])
  }

  /** How many batches a lane has emitted. */
  function Count(o: Origins, k: LaneKey): nat {
    if |o| == 0 then 0 else Count(o[..|o| - 1], k) + if o[|o| - 1] == Some(k) then 1 else 0
  }

  lemma {:induction false} CountFrom(o: Origins, k: LaneKey, n: nat, j: LaneKey)
    ensures Count(o + From(k, n), j) == Count(o, j) + if j == k then n else 0
    decreases n
  {
    if n == 0 {
      assert o + From(k, 0) == o;
    } else {
      assert (o + From(k, n))[..|o| + n - 1] == o + From(k, n - 1);
      CountFrom(o, k, n - 1, j);
    }
  }

  // ----- every batch carries the number of its own lane -----

  predicate StampAt(c: Settings, seeds: LaneKey -> uint64, batch: bytes, before: Origins, origin: Option<LaneKey>) {
    match origin
    case None => Stamp(batch).None?
    case Some(k) => Stamp(batch) == Some((WireLane(c, k), Nth(seeds(k), c.snMask, Count(before, k))))
  }

  /** Each batch carries its lane's wire lane and the lane's number at that point: the
      seed for the lane's first batch, then next, next of next, ... */
  predicate Stamped(c: Settings, seeds: LaneKey -> uint64, sent: seq<bytes>, o: Origins) {
    |o| == |sent| && forall i {:trigger o[i]} :: 0 <= i < |o| ==> StampAt(c, seeds, sent[i], o[..i], o[i])
  }

  ghost predicate Orderly(c: Settings, seeds: LaneKey -> uint64, p: Plan, o: Origins) {
    && AllWellFormed(c, p.lanes) && AllFit(c, p.sent)
    && Stamped(c, seeds, p.sent, o)
    && forall k: LaneKey :: p.lanes[k].seqNum == Nth(seeds(k), c.snMask, Count(o, k))
  }

  /** A finished batch that bypasses the batcher carries no lane number. */
  predicate Unnumbered(c: Settings, a: Action) {
    a.Handle? && a.item.RawItem? ==> Stamp(a.item.batch).None? && |a.item.batch| <= c.batchSize
  }

  lemma StampedGrows(c: Settings, seeds: LaneKey -> uint64, sent: seq<bytes>, o: Origins, k: LaneKey,
                     emitted: seq<bytes>)
    requires Stamped(c, seeds, sent, o) && Numbered(c, k, Nth(seeds(k), c.snMask, Count(o, k)), emitted)
    ensures Stamped(c, seeds, sent + emitted, o + From(k, |emitted|))
  {
    hide Stamp, Nth, WireLane, Count;
    var sent', o' := sent + emitted, o + From(k, |emitted|);
    forall i | 0 <= i < |o'|
      ensures StampAt(c, seeds, sent'[i], o'[..i], o'[i])
    {
      if i < |o| {
        assert o'[..i] == o[..i] && o'[i] == o[i] && sent'[i] == sent[i];
      } else {
        var d := i - |o|;
        assert o'[..i] == o + From(k, d) && sent'[i] == emitted[d];
        CountFrom(o, k, d, k);
        NthAfter(seeds(k), c.snMask, Count(o, k), d);
      }
    }
  }

  lemma LaneStaysOrderly(c: Settings, seeds: LaneKey -> uint64, p: Plan, o: Origins, k: LaneKey, step: LaneStep,
                         refused: bool)
    requires Orderly(c, seeds, p, o)
    requires WellFormed(c, k, step.lane) && AllFit(c, step.emitted) && SpendsNumbers(c, k, p.lanes[k], step)
    ensures var p' := Plan(p.lanes[k := step.lane], p.sent + step.emitted, refused);
            Orderly(c, seeds, p', o + From(k, |step.emitted|))
  {
    hide Nth, WellFormed, Stamped, Count, Numbered;
    var n := |step.emitted|;
    StampedGrows(c, seeds, p.sent, o, k, step.emitted);
    forall j: LaneKey
      ensures p.lanes[k := step.lane][j].seqNum == Nth(seeds(j), c.snMask, Count(o + From(k, n), j))
    {
      CountFrom(o, k, n, j);
      NthAfter(seeds(k), c.snMask, Count(o, k), n);
    }
  }

  lemma {:induction false} FlushStaysOrderly(c: Settings, seeds: LaneKey -> uint64, p: Plan, o: Origins, i: nat)
    requires Orderly(c, seeds, p, o) && i <= 16
    ensures var (lanes, batches) := FlushedFrom(c, p.lanes, i);
            Orderly(c, seeds, Plan(lanes, p.sent + batches, p.refused), o + OriginsOfFlush(c, p.lanes, i))
    decreases 16 - i
  {
    hide Flushed, WellFormed, SpendsNumbers, AllFit, Stamped, Count;
    if i == 16 {
      assert p.sent + [] == p.sent && o + [] == o;
    } else {
      var k := LaneAt(i);
      var step := Flushed(c, p.lanes[k]);
      FlushKeepsForm(c, k, p.lanes[k]);
      FlushSpends(c, k, p.lanes[k]);
      LaneStaysOrderly(c, seeds, p, o, k, step, p.refused);
      var next := Plan(p.lanes[k := step.lane], p.sent + step.emitted, p.refused);
      var here := From(k, |step.emitted|);
      FlushStaysOrderly(c, seeds, next, o + here, i + 1);
      var later := FlushedFrom(c, next.lanes, i + 1).1;
      assert p.sent + step.emitted + later == p.sent + (step.emitted + later);
      var more := OriginsOfFlush(c, next.lanes, i + 1);
      assert o + here + more == o + (here + more);
    }
  }

  lemma RawStaysOrderly(c: Settings, seeds: LaneKey -> uint64, p: Plan, o: Origins, batch: bytes)
    requires Orderly(c, seeds, p, o) && Stamp(batch).None? && |batch| <= c.batchSize
    ensures Orderly(c, seeds, p.(sent := p.sent + [batch]), o + [None])
  {
    hide Nth, WellFormed, Stamp;
    assert (o + [None])[..|o|] == o;
    forall i | 0 <= i < |o|
      ensures (o + [None])[..i] == o[..i] && (o + [None])[i] == o[i]
    {
    }
  }

  lemma ActStaysOrderly(c: Settings, seeds: LaneKey -> uint64, p: Plan, o: Origins, a: Action)
    requires Orderly(c, seeds, p, o) && Unnumbered(c, a)
    ensures Orderly(c, seeds, Act(c, p, a), o + OriginsOf(c, p, a))
  {
    hide Enqueued, FlushedFrom, WellFormed, Stamp, Stamped, Count, OriginsOfFlush;
    assert o + [] == o;
    if !p.refused {
      match a
      case Handle(NetworkItem(m)) =>
        if m.HasLane() {
          var k := m.Lane();
          var step := Enqueued(c, k, p.lanes[k], m.encoded, m.express);
          EnqueueKeepsForm(c, k, p.lanes[k], m.encoded, m.express);
          EnqueueSpends(c, k, p.lanes[k], m.encoded, m.express);
          LaneStaysOrderly(c, seeds, p, o, k, step, !step.ok);
        }
      case Handle(RawItem(batch)) =>
        FlushStaysOrderly(c, seeds, p, o, 0);
        var flushed := OriginsOfFlush(c, p.lanes, 0);
        RawStaysOrderly(c, seeds, FlushedPlan(c, p), o + flushed, batch);
        assert o + flushed + [None] == o + (flushed + [None]);
      case Handle(EmptyItem) =>
      case Flush => FlushStaysOrderly(c, seeds, p, o, 0);
    }
  }

  /** Over any run of the writer, with or without QoS: every batch carries the number of
      the lane that emitted it, counted from the lane's seed without a gap or a
      repetition; an open FRAME already carries the number it will be sent under, and no
      batch exceeds the negotiated size. */
  lemma {:induction false} RunStaysOrderly(c: Settings, seeds: LaneKey -> uint64, p: Plan, o: Origins,
                                           actions: seq<Action>)
    requires Orderly(c, seeds, p, o)
    requires forall i :: 0 <= i < |actions| ==> Unnumbered(c, actions[i])
    ensures Orderly(c, seeds, ActAll(c, p, actions), o + OriginsOfRun(c, p, actions))
    decreases |actions|
  {
    hide Act, WellFormed, Unnumbered, OriginsOf, Stamped, Count;
    if |actions| == 0 {
      assert o + [] == o;
    } else {
      ActKeepsComplete(c, p, actions[0]);
      ActStaysOrderly(c, seeds, p, o, actions[0]);
      var here, next := OriginsOf(c, p, actions[0]), Act(c, p, actions[0]);
      RunStaysOrderly(c, seeds, next, o + here, actions[1..]);
      var more := OriginsOfRun(c, next, actions[1..]);
      assert o + here + more == o + (here + more);
    }
  }

  /** A batcher that has sent nothing, with these seeds. */
  ghost predicate StartsAt(p: Plan, seeds: LaneKey -> uint64) {
    Complete(p.lanes) && p.sent == [] && forall k: LaneKey :: p.lanes[k] == Idle(seeds(k))
  }

  lemma WholeRun(c: Settings, seeds: LaneKey -> uint64, start: Plan, actions: seq<Action>)
    requires StartsAt(start, seeds) && forall i :: 0 <= i < |actions| ==> Unnumbered(c, actions[i])
    ensures Orderly(c, seeds, ActAll(c, start, actions), OriginsOfRun(c, start, actions))
  {
    hide Act, Unnumbered, OriginsOf;
    RunStaysOrderly(c, seeds, start, [], actions);
    assert [] + OriginsOfRun(c, start, actions) == OriginsOfRun(c, start, actions);
  }

  // ----- what the peer reads on a wire lane -----

  /** The numbers on the batches of one wire lane, in the order of emission. */
  function NumbersOn(sent: seq<bytes>, w: LaneKey): seq<uint64> {
    if |sent| == 0 then []
    else NumbersOn(sent[..|sent| - 1], w) + NumberOf(sent[|sent| - 1], w)
  }

  function NumberOf(batch: bytes, w: LaneKey): seq<uint64> {
    match Stamp(batch)
    case Some((j, sn)) => (if j == w then [sn] else [])
    case None => []
  }

  /** The lanes that emitted the batches of one wire lane, in that order. */
  function Senders(c: Settings, o: Origins, w: LaneKey): seq<LaneKey> {
    if |o| == 0 then []
    else
      var k := o[|o| - 1];
      Senders(c, o[..|o| - 1], w) + if k.Some? && WireLane(c, k.value) == w then [k.value] else []
  }

  function Occurrences(m: seq<LaneKey>, k: LaneKey): (n: nat)
    ensures n <= |m|
  {
    if |m| == 0 then 0 else Occurrences(m[..|m| - 1], k) + if m[|m| - 1] == k then 1 else 0
  }

  lemma {:induction false} SendersCount(c: Settings, o: Origins, k: LaneKey)
    ensures Occurrences(Senders(c, o, WireLane(c, k)), k) == Count(o, k)
    decreases |o|
  {
    if |o| > 0 {
      var n := |o| - 1;
      var before, all := Senders(c, o[..n], WireLane(c, k)), Senders(c, o, WireLane(c, k));
      SendersCount(c, o[..n], k);
      if all != before {
        assert all[..|all| - 1] == before;
      }
    }
  }

  /** Each number is that of its sender, which counts its own batches only. */
  predicate Follows(mask: uint64, seeds: LaneKey -> uint64, ns: seq<uint64>, m: seq<LaneKey>) {
    |ns| == |m| && forall j :: 0 <= j < |m| ==> ns[j] == Nth(seeds(m[j]), mask, Occurrences(m[..j], m[j]))
  }

  lemma FollowsGrows(mask: uint64, seeds: LaneKey -> uint64, ns: seq<uint64>, m: seq<LaneKey>, k: LaneKey)
    requires Follows(mask, seeds, ns, m)
    ensures Follows(mask, seeds, ns + [Nth(seeds(k), mask, Occurrences(m, k))], m + [k])
  {
    hide Nth, Occurrences;
    assert (m + [k])[..|m|] == m;
    assert forall j :: 0 <= j < |m| ==> (m + [k])[..j] == m[..j];
  }

  lemma {:induction false} NumbersFollowSenders(c: Settings, seeds: LaneKey -> uint64, sent: seq<bytes>, o: Origins,
                                                w: LaneKey)
    requires Stamped(c, seeds, sent, o)
    ensures Follows(c.snMask, seeds, NumbersOn(sent, w), Senders(c, o, w))
    decreases |o|
  {
    hide Stamp, Nth, Occurrences;
    if |o| > 0 {
      var n := |o| - 1;
      assert Stamped(c, seeds, sent[..n], o[..n]) by {
        assert forall i :: 0 <= i < n ==> o[..n][..i] == o[..i] && o[..n][i] == o[i] && sent[..n][i] == sent[i];
      }
      NumbersFollowSenders(c, seeds, sent[..n], o[..n], w);
      assert StampAt(c, seeds, sent[n], o[..n], o[n]);
      hide Follows;
      var ns, m := NumbersOn(sent[..n], w), Senders(c, o[..n], w);
      if o[n].Some? && WireLane(c, o[n].value) == w {
        SendersCount(c, o[..n], o[n].value);
        FollowsGrows(c.snMask, seeds, ns, m, o[n].value);
      } else {
        assert Senders(c, o, w) == m && NumbersOn(sent, w) == ns;
      }
    }
  }

  predicate Gapless(mask: uint64, seed: uint64, ns: seq<uint64>) {
    forall j :: 0 <= j < |ns| ==> ns[j] == Nth(seed, mask, j)
  }

  predicate OneSender(m: seq<LaneKey>) {
    forall i, j :: 0 <= i < |m| && 0 <= j < |m| ==> m[i] == m[j]
  }

  lemma {:induction false} OnlySenderCounts(m: seq<LaneKey>, k: LaneKey)
    requires forall i :: 0 <= i < |m| ==> m[i] == k
    ensures Occurrences(m, k) == |m|
  {
    if |m| > 0 {
      OnlySenderCounts(m[..|m| - 1], k);
    }
  }

  /** A wire lane with a single sender is numbered without a gap. */
  lemma OneSenderIsGapless(mask: uint64, seeds: LaneKey -> uint64, ns: seq<uint64>, m: seq<LaneKey>)
    requires Follows(mask, seeds, ns, m) && OneSender(m)
    ensures |m| > 0 ==> Gapless(mask, seeds(m[0]), ns)
  {
    forall j | 0 <= j < |m|
      ensures m[j] == m[0] && Occurrences(m[..j], m[j]) == j
    {
      OnlySenderCounts(m[..j], m[j]);
    }
  }

  // ----- with QoS -----

  lemma {:induction false} SendersWithQoS(c: Settings, o: Origins, w: LaneKey)
    requires c.attachQoS
    ensures forall j :: 0 <= j < |Senders(c, o, w)| ==> Senders(c, o, w)[j] == w
    decreases |o|
  {
    if |o| > 0 {
      SendersWithQoS(c, o[..|o| - 1], w);
    }
  }

  /** With QoS every lane is its own wire lane. With a mask of n one bits its i-th batch
      carries (seed + i) mod 2^n, and its counter stands at the number of batches. */
  lemma WireNumbersAreModular(c: Settings, seeds: LaneKey -> uint64, n: nat, start: Plan, actions: seq<Action>,
                              k: LaneKey)
    requires n <= 64 && Vle.Pow2(n) <= U64 && c.snMask == Vle.Pow2(n) - 1 && c.attachQoS
    requires StartsAt(start, seeds) && seeds(k) < Vle.Pow2(n)
    requires forall i :: 0 <= i < |actions| ==> Unnumbered(c, actions[i])
    ensures var p := ActAll(c, start, actions);
            var ns := NumbersOn(p.sent, k);
            && (forall i :: 0 <= i < |ns| ==> ns[i] == (seeds(k) + i) % Vle.Pow2(n))
            && p.lanes[k].seqNum == (seeds(k) + |ns|) % Vle.Pow2(n)
            && AllFit(c, p.sent)
  {
    hide Act, ActAll, WellFormed, Unnumbered, NumbersOn, Vle.Pow2, Nth, OriginsOfRun, Count, Senders, Stamped,
         Occurrences;
    WholeRun(c, seeds, start, actions);
    var p, o := ActAll(c, start, actions), OriginsOfRun(c, start, actions);
    var ns, m := NumbersOn(p.sent, k), Senders(c, o, k);
    NumbersFollowSenders(c, seeds, p.sent, o, k);
    SendersWithQoS(c, o, k);
    OneSenderIsGapless(c.snMask, seeds, ns, m);
    SendersCount(c, o, k);
    OnlySenderCounts(m, k);
    forall i | 0 <= i <= |ns|
      ensures Nth(seeds(k), c.snMask, i) == (seeds(k) + i) % Vle.Pow2(n)
    {
      NthIsModular(seeds(k), n, i);
    }
  }

  // ----- without QoS -----

  lemma Distribute(a: int, b: int, p: nat)
    ensures (a + b) * p == a * p + b * p
  {
  }

  lemma AddedMultiple(x: nat, e: nat, p: nat)
    requires p > 0
    ensures (x + e * p) % p == x % p
  {
    Distribute(x / p, e, p);
    ModUnique(x + e * p, p, x / p + e, x % p);
  }

  lemma SameRemainder(x: nat, a: nat, b: nat, p: nat)
    requires p > 0 && b <= a
    ensures (x + a) % p == (x + b) % p <==> (a - b) % p == 0
  {
    var d := a - b;
    if d % p == 0 {
      AddedMultiple(x + b, d / p, p);
      assert x + b + d / p * p == x + a;
    }
    if (x + a) % p == (x + b) % p {
      var q, e := (x + b) / p, (x + a) / p;
      Distribute(e - q, q, p);
      assert d == (e - q) * p;
      if e < q {
        MulAtLeast(q - e, p);
      }
      ModUnique(d, p, e - q, 0);
    }
  }

  /** Batches of other lanes before the j-th. */
  function Others(m: seq<LaneKey>, j: nat): nat
    requires j < |m|
  {
    j - Occurrences(m[..j], m[j])
  }

  /** When all lanes start at the same seed (as for unicast), the numbers of a wire lane are
      seed, next, ... without a gap if and only if each batch comes after a multiple of 2^n
      batches of the other lanes. */
  lemma GaplessIffOthersWrap(seed: uint64, n: nat, ns: seq<uint64>, m: seq<LaneKey>)
    requires n <= 64 && Vle.Pow2(n) <= U64 && seed < Vle.Pow2(n)
    requires Follows(Vle.Pow2(n) - 1, (_: LaneKey) => seed, ns, m)
    ensures Gapless(Vle.Pow2(n) - 1, seed, ns) <==> forall j :: 0 <= j < |m| ==> Others(m, j) % Vle.Pow2(n) == 0
  {
    hide Vle.Pow2, Nth, Occurrences;
    forall j | 0 <= j < |m|
      ensures ns[j] == Nth(seed, Vle.Pow2(n) - 1, j) <==> Others(m, j) % Vle.Pow2(n) == 0
    {
      var own := Occurrences(m[..j], m[j]);
      NthIsModular(seed, n, own);
      NthIsModular(seed, n, j);
      SameRemainder(seed, j, own, Vle.Pow2(n));
    }
  }

  lemma {:induction false} NoOccurrence(m: seq<LaneKey>, k: LaneKey)
    requires forall i :: 0 <= i < |m| ==> m[i] != k
    ensures Occurrences(m, k) == 0
  {
    if |m| > 0 {
      NoOccurrence(m[..|m| - 1], k);
    }
  }

  lemma OthersOfOneSender(m: seq<LaneKey>, p: nat)
    requires OneSender(m) && p > 0
    ensures forall j :: 0 <= j < |m| ==> Others(m, j) % p == 0
  {
    hide Occurrences;
    forall j | 0 <= j < |m|
      ensures Others(m, j) == 0
    {
      OnlySenderCounts(m[..j], m[j]);
    }
  }

  /** Until the numbers wrap, that means: if and only if a single lane has sent. */
  lemma GaplessIffOneSender(seed: uint64, n: nat, ns: seq<uint64>, m: seq<LaneKey>)
    requires n <= 64 && Vle.Pow2(n) <= U64 && seed < Vle.Pow2(n)
    requires Follows(Vle.Pow2(n) - 1, (_: LaneKey) => seed, ns, m) && |m| <= Vle.Pow2(n)
    ensures Gapless(Vle.Pow2(n) - 1, seed, ns) <==> OneSender(m)
  {
    hide Vle.Pow2, Nth, Follows, Gapless, Occurrences;
    GaplessIffOthersWrap(seed, n, ns, m);
    if OneSender(m) {
      OthersOfOneSender(m, Vle.Pow2(n));
    } else {
      var j := SecondSender(m);
      NoOccurrence(m[..j], m[j]);
      ModUnique(j, Vle.Pow2(n), 0, j);
      assert Others(m, j) == j;
    }
  }

  /** The first batch of a second sender. */
  lemma SecondSender(m: seq<LaneKey>) returns (j: nat)
    requires !OneSender(m)
    ensures 0 < j < |m| && forall i :: 0 <= i < j ==> m[i] != m[j]
  {
    var a, b :| 0 <= a < |m| && 0 <= b < |m| && m[a] != m[b];
    j := 1;
    while m[j] == m[0]
      invariant 0 < j < |m| && forall i :: 0 <= i < j ==> m[i] == m[0]
      decreases |m| - j
    {
      assert j + 1 < |m| by {
        assert m[a] != m[0] || m[b] != m[0];
      }
      j := j + 1;
    }
  }

  lemma SendersStartAtSeed(mask: uint64, seed: uint64, ns: seq<uint64>, m: seq<LaneKey>)
    requires Follows(mask, (_: LaneKey) => seed, ns, m)
    ensures forall j :: 0 <= j < |m| && m[j] !in m[..j] ==> ns[j] == seed
  {
    forall j | 0 <= j < |m| && m[j] !in m[..j]
      ensures ns[j] == seed
    {
      NoOccurrence(m[..j], m[j]);
    }
  }

  /** The numbers that the peer reads on a wire lane, for any run from a common seed: they
      are gapless exactly when each batch comes after a multiple of 2^n batches of the other
      lanes; as long as at most 2^n batches were sent, exactly when one lane has sent. The
      first batch of every sender carries the seed again. */
  lemma WireNumbersExactly(c: Settings, seed: uint64, n: nat, start: Plan, actions: seq<Action>, w: LaneKey)
    requires n <= 64 && Vle.Pow2(n) <= U64 && c.snMask == Vle.Pow2(n) - 1 && seed < Vle.Pow2(n)
    requires StartsAt(start, _ => seed) && forall i :: 0 <= i < |actions| ==> Unnumbered(c, actions[i])
    ensures var ns := NumbersOn(ActAll(c, start, actions).sent, w);
            var m := Senders(c, OriginsOfRun(c, start, actions), w);
            && |ns| == |m|
            && (Gapless(c.snMask, seed, ns) <==> forall j :: 0 <= j < |m| ==> Others(m, j) % Vle.Pow2(n) == 0)
            && (|m| <= Vle.Pow2(n) ==> (Gapless(c.snMask, seed, ns) <==> OneSender(m)))
            && (forall j :: 0 <= j < |m| && m[j] !in m[..j] ==> ns[j] == seed)
  {
    hide Act, Unnumbered, NumbersOn, Vle.Pow2, Nth, OriginsOfRun, Count, Senders, Stamped, Occurrences, Others, Gapless;
    var seeds := (_: LaneKey) => seed;
    WholeRun(c, seeds, start, actions);
    var p, o := ActAll(c, start, actions), OriginsOfRun(c, start, actions);
    NumbersFollowSenders(c, seeds, p.sent, o, w);
    var ns, m := NumbersOn(p.sent, w), Senders(c, o, w);
    GaplessIffOthersWrap(seed, n, ns, m);
    SendersStartAtSeed(c.snMask, seed, ns, m);
    if |m| <= Vle.Pow2(n) {
      GaplessIffOneSender(seed, n, ns, m);
    }
  }

  /** Without QoS the first FRAMEs of two priorities cannot be told apart. */
  lemma SharedNumber(c: Settings, p: byte, q: byte, reliable: bool, seed: uint64, a: bytes, b: bytes)
    requires !c.attachQoS && p < 8 && q < 8
    ensures Stamp(FrameStart(c, LaneKey(p, reliable), seed) + a)
         == Stamp(FrameStart(c, LaneKey(q, reliable), seed) + b)
         == Some((WireLane(c, LaneKey(p, reliable)), seed))
  {
    FrameStamp(c, LaneKey(p, reliable), seed, a);
    FrameStamp(c, LaneKey(q, reliable), seed, b);
  }

  /** Flushing when no lane has an open FRAME emits nothing and spends no number. */
  lemma {:induction false} IdleFlush(c: Settings, lanes: map<LaneKey, LaneState>, i: nat)
    requires Complete(lanes) && i <= 16
    requires forall k: LaneKey :: lanes[k] == Idle(lanes[k].seqNum)
    ensures FlushedFrom(c, lanes, i) == (lanes, [])
    decreases 16 - i
  {
    if i < 16 {
      var k := LaneAt(i);
      var step := Flushed(c, lanes[k]);
      assert step == LaneStep(lanes[k], [], true);
      assert lanes[k := step.lane] == lanes;
      IdleFlush(c, lanes, i + 1);
      assert step.emitted + [] == [];
    }
  }
}
