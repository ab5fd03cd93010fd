/**
 Reassembly of fragmented messages, lane by lane (internal/transport/reassembler.go).
 */
module Reassembly {
  import opened Buffer
  import opened TransportMessages
  import opened SequenceNumbers

  /** One inbound fragment together with the lane it was received on. */
  datatype Arrival = Arrival(lane: LaneKey, sn: uint64, more: bool, body: bytes)

  datatype ReassemblyState = ReassemblyState(active: bool, expectedSn: uint64, buf: bytes)

  const Cleared := ReassemblyState(false, 0, [])

  datatype PushResult = Pending | Completed(body: bytes) | Gap | TooLarge

  /** Size cap and (normalised) sequence-number mask. */
  datatype Limits = Limits(maxSize: nat, snMask: uint64)

  /** Push on the state of one lane. */
  function Step(c: Limits, st: ReassemblyState, a: Arrival): (ReassemblyState, PushResult) {
    if st.active && a.sn != st.expectedSn then (Cleared, Gap)
    else
      var collected := if st.active then st.buf else [];
      if |collected| + |a.body| > c.maxSize then (Cleared, TooLarge)
      else if a.more then (ReassemblyState(true, Next(a.sn, c.snMask), collected + a.body), Pending)
      else (Cleared, Completed(collected + a.body))
  }

  type States = map<LaneKey, ReassemblyState>

  function StateOf(lanes: States, k: LaneKey): ReassemblyState {
    if k in lanes then lanes[k] else Cleared
  }

  function Pushed(c: Limits, lanes: States, a: Arrival): (States, PushResult) {
    var (st, r) := Step(c, StateOf(lanes, a.lane), a);
    (lanes[a.lane := st], r)
  }

  class Reassembler {
    const limits: Limits
    var lanes: States

    constructor (maxSize: nat, snMask: uint64)
      ensures limits == Limits(maxSize, NormalizeMask(snMask)) && lanes == map[]
    {
      limits := Limits(maxSize, NormalizeMask(snMask));
      lanes := map[];
    }

    /** Forgets what is in flight on one lane. */
    method Clear(lane: LaneKey)
      modifies this
      ensures lanes == if lane in old(lanes) then old(lanes)[lane := Cleared] else old(lanes)
    {
      if lane in lanes {
        lanes := lanes[lane := Cleared];
      }
    }

    method Push(a: Arrival) returns (res: PushResult)
      modifies this
      ensures lanes == Pushed(limits, old(lanes), a).0
      ensures res == Pushed(limits, old(lanes), a).1
    {
      if a.lane !in lanes {
        lanes := lanes[a.lane := Cleared];
      }
      var st := lanes[a.lane];
      if !st.active {
        st := ReassemblyState(true, a.sn, []);
      } else if a.sn != st.expectedSn {
        Clear(a.lane);
        return Gap;
      }
      if |st.buf| + |a.body| > limits.maxSize {
        Clear(a.lane);
        return TooLarge;
      }
      st := st.(buf := st.buf + a.body, expectedSn := Next(a.sn, limits.snMask));
      if a.more {
        lanes := lanes[a.lane := st];
        return Pending;
      }
      Clear(a.lane);
      res := Completed(st.buf);
    }
  }

  // ----- histories -----

  /** The reassembler after a history of arrivals. */
  function After(c: Limits, h: seq<Arrival>): States {
    if |h| == 0 then map[] else Pushed(c, After(c, h[..|h| - 1]), h[|h| - 1]).0
  }

  /** What the i-th arrival of the history returned. */
  function ResultAt(c: Limits, h: seq<Arrival>, i: nat): PushResult
    requires i < |h|
  {
    Pushed(c, After(c, h[..i]), h[i]).1
  }

  /** The arrivals on one lane, in order. */
  function OnLane(h: seq<Arrival>, k: LaneKey): (l: seq<Arrival>)
    ensures forall a :: a in l ==> a.lane == k
  {
    if |h| == 0 then []
    else OnLane(h[..|h| - 1], k) + if h[|h| - 1].lane == k then [h[|h| - 1]] else []
  }

  function LaneAfter(c: Limits, l: seq<Arrival>): ReassemblyState {
    if |l| == 0 then Cleared else Step(c, LaneAfter(c, l[..|l| - 1]), l[|l| - 1]).0
  }

  /** Lanes do not influence one another: the state of a lane is that of the lane's
      own arrivals. */
  lemma {:induction false} LanesAreIndependent(c: Limits, h: seq<Arrival>, k: LaneKey)
    ensures StateOf(After(c, h), k) == LaneAfter(c, OnLane(h, k))
    decreases |h|
  {
    hide Next;
    if |h| > 0 {
      var before, last := h[..|h| - 1], h[|h| - 1];
      LanesAreIndependent(c, before, k);
      if last.lane == k {
        assert OnLane(h, k)[..|OnLane(h, k)| - 1] == OnLane(before, k);
      } else {
        assert OnLane(h, k) == OnLane(before, k);
      }
    }
  }

  // ----- safety -----

  function Bodies(l: seq<Arrival>): bytes {
    if |l| == 0 then [] else Bodies(l[..|l| - 1]) + l[|l| - 1].body
  }

  /** Consecutive sequence numbers under the mask. */
  predicate Consecutive(c: Limits, l: seq<Arrival>) {
    forall i {:trigger l[i]} :: 0 < i < |l| ==> l[i].sn == Next(l[i - 1].sn, c.snMask)
  }

  predicate AllMore(l: seq<Arrival>) {
    forall i :: 0 <= i < |l| ==> l[i].more
  }

  /** What an active lane has collected: the arrivals `l[s..]`, which are a contiguous
      run of non-final fragments. */
  predicate CollectedSince(c: Limits, l: seq<Arrival>, s: nat, st: ReassemblyState) {
    && s < |l|
    && Consecutive(c, l[s..]) && AllMore(l[s..])
    && st.buf == Bodies(l[s..]) && |st.buf| <= c.maxSize
    && st.expectedSn == Next(l[|l| - 1].sn, c.snMask)
  }

  /** The run of an active lane starts where its last opening fragment arrived. */
  lemma {:induction false} ActiveLane(c: Limits, l: seq<Arrival>) returns (s: nat)
    ensures LaneAfter(c, l).active ==> CollectedSince(c, l, s, LaneAfter(c, l))
    ensures !LaneAfter(c, l).active ==> LaneAfter(c, l) == Cleared
    decreases |l|
  {
    hide Next, CollectedSince;
    s := 0;
    if |l| > 0 {
      var st := LaneAfter(c, l[..|l| - 1]);
      s := ActiveLane(c, l[..|l| - 1]);
      if !st.active {
        s := |l| - 1;
      }
      if LaneAfter(c, l).active {
        ActiveGrows(c, l, s, st);
      }
    }
  }

  lemma ActiveGrows(c: Limits, l: seq<Arrival>, s: nat, st: ReassemblyState)
    requires |l| > 0 && Step(c, st, l[|l| - 1]).0.active
    requires if st.active then CollectedSince(c, l[..|l| - 1], s, st) else s == |l| - 1
    ensures CollectedSince(c, l, s, Step(c, st, l[|l| - 1]).0)
  {
    hide Next;
    RunGrows(c, l, s, st);
    forall i | 0 <= i < |l[s..]|
      ensures l[s..][i].more
    {
      assert i < |l| - 1 - s ==> l[s..][i] == l[s..|l| - 1][i];
    }
  }

  /** The run that the last arrival of `l` joins. */
  lemma RunGrows(c: Limits, l: seq<Arrival>, s: nat, st: ReassemblyState)
    requires |l| > 0 && s < |l|
    requires if st.active then CollectedSince(c, l[..|l| - 1], s, st) && l[|l| - 1].sn == st.expectedSn
             else s == |l| - 1
    ensures Consecutive(c, l[s..]) && AllMore(l[s..|l| - 1])
    ensures Bodies(l[s..]) == (if st.active then st.buf else []) + l[|l| - 1].body
  {
    hide Next, Bodies;
    var before, a := l[..|l| - 1], l[|l| - 1];
    assert l[s..] == before[s..] + [a] && l[s..|l| - 1] == before[s..];
    OneJoins(c, before[s..], a);
    if !st.active {
      NoBodies(before[s..]);
    }
  }

  lemma OneJoins(c: Limits, run: seq<Arrival>, a: Arrival)
    requires Consecutive(c, run) && (|run| > 0 ==> a.sn == Next(run[|run| - 1].sn, c.snMask))
    ensures Consecutive(c, run + [a]) && Bodies(run + [a]) == Bodies(run) + a.body
  {
    hide Next;
    assert (run + [a])[..|run|] == run;
  }

  /** Whatever arrives in whatever interleaving: a body that is handed out is the
      concatenation of fragments of one lane with consecutive numbers, every one but
      the last marked More, and it respects the cap. */
  lemma CompletedBody(c: Limits, h: seq<Arrival>, i: nat) returns (s: nat, run: seq<Arrival>)
    requires i < |h| && ResultAt(c, h, i).Completed?
    ensures s < |OnLane(h[..i + 1], h[i].lane)| && run == OnLane(h[..i + 1], h[i].lane)[s..]
    ensures |run| > 0 && run[|run| - 1] == h[i]
    ensures Consecutive(c, run) && AllMore(run[..|run| - 1]) && !h[i].more
    ensures ResultAt(c, h, i).body == Bodies(run) && |Bodies(run)| <= c.maxSize
  {
    hide Next;
    var k := h[i].lane;
    var before, l := OnLane(h[..i], k), OnLane(h[..i + 1], k);
    assert h[..i + 1][..i] == h[..i];
    assert l == before + [h[i]] && l[..|l| - 1] == before;
    LanesAreIndependent(c, h[..i], k);
    var st := LaneAfter(c, before);
    s := ActiveLane(c, before);
    if !st.active {
      s := |l| - 1;
    }
    RunGrows(c, l, s, st);
    run := l[s..];
    assert run[..|run| - 1] == l[s..|l| - 1];
  }

  // ----- recovery -----

  /** The fragments of one message. */
  predicate Fragments(c: Limits, chain: seq<Arrival>) {
    && |chain| > 0
    && Consecutive(c, chain)
    && AllMore(chain[..|chain| - 1]) && !chain[|chain| - 1].more
  }

  /** The fragments of one message within the cap. */
  predicate MessageChain(c: Limits, chain: seq<Arrival>) {
    Fragments(c, chain) && |Bodies(chain)| <= c.maxSize
  }

  function Joined(chains: seq<seq<Arrival>>): seq<Arrival> {
    if |chains| == 0 then [] else Joined(chains[..|chains| - 1]) + chains[|chains| - 1]
  }

  function MessagesOf(chains: seq<seq<Arrival>>): (ms: seq<bytes>)
    ensures |ms| == |chains|
  {
    seq(|chains|, i requires 0 <= i < |chains| => Bodies(chains[i]))
  }

  /** The messages completed on one lane, and whether nothing was dropped on it. */
  function Delivered(c: Limits, l: seq<Arrival>): seq<bytes> {
    if |l| == 0 then []
    else
      match Step(c, LaneAfter(c, l[..|l| - 1]), l[|l| - 1]).1
      case Completed(body) => Delivered(c, l[..|l| - 1]) + [body]
      case _ => Delivered(c, l[..|l| - 1])
  }

  predicate NoLoss(c: Limits, l: seq<Arrival>) {
    |l| > 0 ==>
      var r := Step(c, LaneAfter(c, l[..|l| - 1]), l[|l| - 1]).1;
      !r.Gap? && !r.TooLarge? && NoLoss(c, l[..|l| - 1])
  }

  lemma {:induction false} PrefixFits(l: seq<Arrival>, n: nat)
    requires n <= |l|
    ensures |Bodies(l[..n])| <= |Bodies(l)|
    decreases |l|
  {
    if n < |l| {
      PrefixFits(l[..|l| - 1], n);
      assert l[..|l| - 1][..n] == l[..n];
    } else {
      assert l[..n] == l;
    }
  }

  lemma OneMore(l: seq<Arrival>, chain: seq<Arrival>, n: nat)
    requires 0 < n <= |chain|
    ensures var grown := l + chain[..n];
            && |grown| > 0
            && grown[..|grown| - 1] == l + chain[..n - 1]
            && grown[|grown| - 1] == chain[n - 1]
            && Bodies(chain[..n]) == Bodies(chain[..n - 1]) + chain[n - 1].body
  {
    assert chain[..n][..n - 1] == chain[..n - 1];
  }

  /** Part of a message on a lane that was idle before it: everything so far is
      collected, nothing is lost, and nothing is delivered before the last fragment. */
  lemma {:induction false} ChainPrefix(c: Limits, l: seq<Arrival>, chain: seq<Arrival>, n: nat)
    requires LaneAfter(c, l) == Cleared && NoLoss(c, l)
    requires MessageChain(c, chain) && n < |chain|
    ensures NoLoss(c, l + chain[..n]) && Delivered(c, l + chain[..n]) == Delivered(c, l)
    ensures LaneAfter(c, l + chain[..n])
         == if n == 0 then Cleared
            else ReassemblyState(true, Next(chain[n - 1].sn, c.snMask), Bodies(chain[..n]))
    decreases n
  {
    hide Next, Bodies, Step, NoLoss, Delivered, LaneAfter;
    if n == 0 {
      assert l + chain[..0] == l;
    } else {
      ChainPrefix(c, l, chain, n - 1);
      OneMore(l, chain, n);
      ChainStep(c, chain, n);
      PendingOne(c, l + chain[..n], ReassemblyState(true, Next(chain[n - 1].sn, c.snMask), Bodies(chain[..n])));
    }
  }

  /** The n-th fragment of a message, which is not its last. */
  lemma ChainStep(c: Limits, chain: seq<Arrival>, n: nat)
    requires MessageChain(c, chain) && 0 < n < |chain|
    ensures var st := if n == 1 then Cleared
                      else ReassemblyState(true, Next(chain[n - 2].sn, c.snMask), Bodies(chain[..n - 1]));
            Step(c, st, chain[n - 1])
            == (ReassemblyState(true, Next(chain[n - 1].sn, c.snMask), Bodies(chain[..n])), Pending)
  {
    hide Next;
    OneMore([], chain, n);
    PrefixFits(chain, n);
    assert chain[..|chain| - 1][n - 1].more;
    assert n > 1 ==> chain[n - 1].sn == Next(chain[n - 2].sn, c.snMask);
    if n == 1 {
      assert Bodies(chain[..0]) == [] by { NoBodies(chain[..0]); }
    }
  }

  lemma PendingOne(c: Limits, l: seq<Arrival>, st: ReassemblyState)
    requires |l| > 0 && NoLoss(c, l[..|l| - 1])
    requires Step(c, LaneAfter(c, l[..|l| - 1]), l[|l| - 1]) == (st, Pending)
    ensures LaneAfter(c, l) == st && NoLoss(c, l) && Delivered(c, l) == Delivered(c, l[..|l| - 1])
  {
    hide Step;
  }

  lemma NoBodies(l: seq<Arrival>)
    requires |l| == 0
    ensures Bodies(l) == []
  {
  }

  lemma FinalStep(c: Limits, chain: seq<Arrival>)
    requires MessageChain(c, chain)
    ensures var n := |chain| - 1;
            var st := if n == 0 then Cleared
                      else ReassemblyState(true, Next(chain[n - 1].sn, c.snMask), Bodies(chain[..n]));
            Step(c, st, chain[n]) == (Cleared, Completed(Bodies(chain)))
  {
    hide Next;
    var n := |chain| - 1;
    assert Bodies(chain) == Bodies(chain[..n]) + chain[n].body;
  }

  /** One completing arrival at the end of a lane. */
  lemma CompleteOne(c: Limits, l: seq<Arrival>, body: bytes)
    requires |l| > 0 && NoLoss(c, l[..|l| - 1])
    requires Step(c, LaneAfter(c, l[..|l| - 1]), l[|l| - 1]) == (Cleared, Completed(body))
    ensures LaneAfter(c, l) == Cleared && NoLoss(c, l)
    ensures Delivered(c, l) == Delivered(c, l[..|l| - 1]) + [body]
  {
    hide Step;
  }

  lemma WholeChain(c: Limits, l: seq<Arrival>, chain: seq<Arrival>)
    requires LaneAfter(c, l) == Cleared && NoLoss(c, l) && MessageChain(c, chain)
    ensures LaneAfter(c, l + chain) == Cleared && NoLoss(c, l + chain)
    ensures Delivered(c, l + chain) == Delivered(c, l) + [Bodies(chain)]
  {
    hide Next, Bodies, Step, LaneAfter, Delivered, NoLoss;
    var n := |chain| - 1;
    ChainPrefix(c, l, chain, n);
    OneMore(l, chain, n + 1);
    assert chain[..n + 1] == chain;
    FinalStep(c, chain);
    CompleteOne(c, l + chain, Bodies(chain));
  }

  lemma LastMessage(chains: seq<seq<Arrival>>)
    requires |chains| > 0
    ensures var n := |chains| - 1;
            MessagesOf(chains) == MessagesOf(chains[..n]) + [Bodies(chains[n])]
  {
    hide Bodies;
  }

  lemma NothingRecovered(c: Limits)
    ensures LaneAfter(c, []) == Cleared && NoLoss(c, []) && Delivered(c, []) == []
  {
  }

  lemma {:induction false} LaneRecovery(c: Limits, chains: seq<seq<Arrival>>)
    requires forall i :: 0 <= i < |chains| ==> MessageChain(c, chains[i])
    ensures LaneAfter(c, Joined(chains)) == Cleared && NoLoss(c, Joined(chains))
    ensures Delivered(c, Joined(chains)) == MessagesOf(chains)
    decreases |chains|
  {
    if |chains| == 0 {
      NothingRecovered(c);
    } else {
      hide LaneAfter, NoLoss, Delivered, MessageChain, Bodies, MessagesOf;
      LastMessage(chains);
      LaneRecovery(c, chains[..|chains| - 1]);
      WholeChain(c, Joined(chains[..|chains| - 1]), chains[|chains| - 1]);
    }
  }

  /** Results of a whole history that concern one lane are those of the lane alone. */
  function DeliveredOn(c: Limits, h: seq<Arrival>, k: LaneKey): seq<bytes> {
    if |h| == 0 then []
    else
      DeliveredOn(c, h[..|h| - 1], k)
      + match ResultAt(c, h, |h| - 1)
        case Completed(body) => if h[|h| - 1].lane == k then [body] else []
        case _ => []
  }

  ghost predicate NothingDropped(c: Limits, h: seq<Arrival>, k: LaneKey) {
    forall i :: 0 <= i < |h| && h[i].lane == k ==> !ResultAt(c, h, i).Gap? && !ResultAt(c, h, i).TooLarge?
  }

  lemma LastResult(c: Limits, h: seq<Arrival>, k: LaneKey)
    requires |h| > 0 && h[|h| - 1].lane == k
    ensures var l := OnLane(h, k);
            && |l| > 0 && l[..|l| - 1] == OnLane(h[..|h| - 1], k) && l[|l| - 1] == h[|h| - 1]
            && ResultAt(c, h, |h| - 1) == Step(c, LaneAfter(c, l[..|l| - 1]), l[|l| - 1]).1
  {
    hide Next;
    LanesAreIndependent(c, h[..|h| - 1], k);
  }

  lemma EarlierResult(c: Limits, h: seq<Arrival>, i: nat)
    requires i < |h| - 1
    ensures ResultAt(c, h[..|h| - 1], i) == ResultAt(c, h, i)
  {
    assert h[..|h| - 1][..i] == h[..i];
  }

  /** The last arrival, as seen by the whole history and by its lane alone. */
  lemma LastDelivered(c: Limits, h: seq<Arrival>, k: LaneKey)
    requires |h| > 0
    ensures var (before, r, l) := (h[..|h| - 1], ResultAt(c, h, |h| - 1), OnLane(h, k));
            if h[|h| - 1].lane == k then
              && |l| > 0 && l[..|l| - 1] == OnLane(before, k)
              && DeliveredOn(c, h, k) == DeliveredOn(c, before, k) + (if r.Completed? then [r.body] else [])
              && Delivered(c, l) == Delivered(c, l[..|l| - 1]) + (if r.Completed? then [r.body] else [])
              && (NoLoss(c, l) <==> NoLoss(c, l[..|l| - 1]) && !r.Gap? && !r.TooLarge?)
            else l == OnLane(before, k) && DeliveredOn(c, h, k) == DeliveredOn(c, before, k)
  {
    hide Step, ResultAt;
    if h[|h| - 1].lane == k {
      LastResult(c, h, k);
    } else {
      assert OnLane(h, k) == OnLane(h[..|h| - 1], k);
    }
  }

  lemma StillNothingDropped(c: Limits, h: seq<Arrival>, k: LaneKey)
    requires |h| > 0 && NothingDropped(c, h[..|h| - 1], k)
    requires h[|h| - 1].lane == k ==> !ResultAt(c, h, |h| - 1).Gap? && !ResultAt(c, h, |h| - 1).TooLarge?
    ensures NothingDropped(c, h, k)
  {
    hide ResultAt;
    forall i | 0 <= i < |h| && h[i].lane == k
      ensures !ResultAt(c, h, i).Gap? && !ResultAt(c, h, i).TooLarge?
    {
      if i < |h| - 1 {
        EarlierResult(c, h, i);
        assert h[..|h| - 1][i] == h[i];
      }
    }
  }

  lemma {:induction false} LaneResults(c: Limits, h: seq<Arrival>, k: LaneKey)
    ensures DeliveredOn(c, h, k) == Delivered(c, OnLane(h, k))
    ensures NoLoss(c, OnLane(h, k)) ==> NothingDropped(c, h, k)
    decreases |h|
  {
    if |h| == 0 {
      NothingOnLane(c, h, k);
    } else {
      hide ResultAt, OnLane, Delivered, DeliveredOn, NoLoss, NothingDropped;
      LaneResults(c, h[..|h| - 1], k);
      LastDelivered(c, h, k);
      if NoLoss(c, OnLane(h, k)) {
        StillNothingDropped(c, h, k);
      }
    }
  }

  lemma NothingOnLane(c: Limits, h: seq<Arrival>, k: LaneKey)
    requires |h| == 0
    ensures DeliveredOn(c, h, k) == Delivered(c, OnLane(h, k)) && NothingDropped(c, h, k)
  {
  }

  /** In-order streams are recovered: if each lane carries messages fragment after
      fragment, every message of every lane comes out, in order and unaltered, and
      nothing is dropped, however the lanes are interleaved. */
  lemma Recovery(c: Limits, h: seq<Arrival>, chains: LaneKey -> seq<seq<Arrival>>, k: LaneKey)
    requires forall j: LaneKey, i :: 0 <= i < |chains(j)| ==> MessageChain(c, chains(j)[i])
    requires forall j: LaneKey :: OnLane(h, j) == Joined(chains(j))
    ensures DeliveredOn(c, h, k) == MessagesOf(chains(k))
    ensures NothingDropped(c, h, k)
    ensures StateOf(After(c, h), k) == Cleared
  {
    LaneRecovery(c, chains(k));
    LaneResults(c, h, k);
    LanesAreIndependent(c, h, k);
  }
}
