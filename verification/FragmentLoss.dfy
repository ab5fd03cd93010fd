/**
 What the reassembler makes of incomplete or oversized messages
 (internal/transport/reassembler.go:74-107): exactly when a message comes out, and what
 comes out instead.
 */
module FragmentLoss {
  import opened Buffer
  import opened TransportMessages
  import opened SequenceNumbers
  import opened Reassembly

  // ----- bounds on what is handed out -----

  /** No body exceeds the cap, and none holds more than what has arrived. */
  lemma {:induction false} BodiesAreBounded(c: Limits, l: seq<Arrival>)
    ensures |LaneAfter(c, l).buf| <= |Bodies(l)|
    ensures forall body :: body in Delivered(c, l) ==> |body| <= c.maxSize && |body| <= |Bodies(l)|
    decreases |l|
  {
    hide Next;
    if |l| > 0 {
      var before, a := l[..|l| - 1], l[|l| - 1];
      BodiesAreBounded(c, before);
      StepIsBounded(c, LaneAfter(c, before), a);
      hide Step;
      var r := Step(c, LaneAfter(c, before), a).1;
      assert Delivered(c, l) == Delivered(c, before) + if r.Completed? then [r.body] else [];
    }
  }

  lemma StepIsBounded(c: Limits, st: ReassemblyState, a: Arrival)
    ensures var (st', r) := Step(c, st, a);
            && |st'.buf| <= |st.buf| + |a.body|
            && (r.Completed? ==> |r.body| <= c.maxSize && |r.body| <= |st.buf| + |a.body|)
  {
  }

  lemma LastOfLane(c: Limits, l: seq<Arrival>)
    requires |l| > 0
    ensures var (st, r) := Step(c, LaneAfter(c, l[..|l| - 1]), l[|l| - 1]);
            && LaneAfter(c, l) == st
            && Delivered(c, l) == Delivered(c, l[..|l| - 1]) + if r.Completed? then [r.body] else []
  {
    hide Step;
  }

  lemma OneMore(c: Limits, l: seq<Arrival>, a: Arrival)
    ensures var (st, r) := Step(c, LaneAfter(c, l), a);
            && LaneAfter(c, l + [a]) == st
            && Delivered(c, l + [a]) == Delivered(c, l) + if r.Completed? then [r.body] else []
  {
    hide Step, LaneAfter, Delivered;
    LastOfLane(c, l + [a]);
    assert (l + [a])[..|l|] == l;
  }

  lemma StillAfresh(c: Limits, l: seq<Arrival>, front: seq<Arrival>, a: Arrival)
    requires LaneAfter(c, l + front) == LaneAfter(c, front)
    requires Delivered(c, l + front) == Delivered(c, l) + Delivered(c, front)
    ensures LaneAfter(c, l + front + [a]) == LaneAfter(c, front + [a])
    ensures Delivered(c, l + front + [a]) == Delivered(c, l) + Delivered(c, front + [a])
  {
    hide Step, LaneAfter, Delivered;
    OneMore(c, front, a);
    OneMore(c, l + front, a);
    var r := Step(c, LaneAfter(c, front), a).1;
    var out := if r.Completed? then [r.body] else [];
    assert Delivered(c, l) + Delivered(c, front) + out == Delivered(c, l) + (Delivered(c, front) + out);
  }

  /** An idle lane starts afresh. */
  lemma {:induction false} IdleStartsAfresh(c: Limits, l: seq<Arrival>, s: seq<Arrival>)
    requires LaneAfter(c, l) == Cleared
    ensures LaneAfter(c, l + s) == LaneAfter(c, s)
    ensures Delivered(c, l + s) == Delivered(c, l) + Delivered(c, s)
    decreases |s|
  {
    hide Step;
    if |s| == 0 {
      assert l + s == l;
    } else {
      hide LaneAfter, Delivered;
      var front, a := s[..|s| - 1], s[|s| - 1];
      IdleStartsAfresh(c, l, front);
      StillAfresh(c, l, front, a);
      assert s == front + [a] && l + s == l + front + [a];
    }
  }

  // ----- the cap -----

  lemma SameTail<T>(a: seq<T>, s: seq<T>, t: seq<T>)
    ensures a + s == a + t <==> s == t
  {
    assert (a + s)[|a|..] == s && (a + t)[|a|..] == t;
  }

  lemma WholeAlone(c: Limits, chain: seq<Arrival>)
    requires Fragments(c, chain)
    ensures |Bodies(chain)| <= c.maxSize ==> Delivered(c, chain) == [Bodies(chain)]
    ensures Bodies(chain) in Delivered(c, chain) ==> |Bodies(chain)| <= c.maxSize
  {
    BodiesAreBounded(c, chain);
    if |Bodies(chain)| <= c.maxSize {
      WholeChain(c, [], chain);
      assert [] + chain == chain;
    }
  }

  /** All fragments of a message arriving on an idle lane: the message comes out if and
      only if it is within the cap. */
  lemma WholeMessage(c: Limits, l: seq<Arrival>, chain: seq<Arrival>)
    requires LaneAfter(c, l) == Cleared && Fragments(c, chain)
    ensures Delivered(c, l + chain) == Delivered(c, l) + [Bodies(chain)] <==> |Bodies(chain)| <= c.maxSize
    ensures Bodies(chain) in Delivered(c, chain) <==> |Bodies(chain)| <= c.maxSize
  {
    hide LaneAfter, Delivered, Bodies, Fragments;
    IdleStartsAfresh(c, l, chain);
    WholeAlone(c, chain);
    SameTail(Delivered(c, l), Delivered(c, chain), [Bodies(chain)]);
    assert Bodies(chain) in [Bodies(chain)];
  }

  /** Whole histories: when every lane carries messages fragment after fragment, the
      messages of a lane all come out if and only if all of them are within the cap. */
  lemma RecoveryIsExact(c: Limits, h: seq<Arrival>, chains: LaneKey -> seq<seq<Arrival>>, k: LaneKey)
    requires forall i :: 0 <= i < |chains(k)| ==> Fragments(c, chains(k)[i])
    requires OnLane(h, k) == Joined(chains(k))
    ensures DeliveredOn(c, h, k) == MessagesOf(chains(k))
       <==> forall i :: 0 <= i < |chains(k)| ==> |Bodies(chains(k)[i])| <= c.maxSize
  {
    LaneResults(c, h, k);
    BodiesAreBounded(c, OnLane(h, k));
    if DeliveredOn(c, h, k) == MessagesOf(chains(k)) {
      forall i | 0 <= i < |chains(k)|
        ensures |Bodies(chains(k)[i])| <= c.maxSize
      {
        assert MessagesOf(chains(k))[i] == Bodies(chains(k)[i]);
      }
    } else if forall i :: 0 <= i < |chains(k)| ==> |Bodies(chains(k)[i])| <= c.maxSize {
      LaneRecovery(c, chains(k));
    }
  }

  // ----- lost fragments -----

  /** `s` is what is left of `t` after dropping some elements. */
  predicate Subsequence<T(==)>(s: seq<T>, t: seq<T>) {
    if s == [] then true
    else if t == [] then false
    else
      || (s[|s| - 1] == t[|t| - 1] && Subsequence(s[..|s| - 1], t[..|t| - 1]))
      || Subsequence(s, t[..|t| - 1])
  }

  lemma {:induction false} LossMakesShorter(s: seq<Arrival>, t: seq<Arrival>)
    requires Subsequence(s, t) && forall i :: 0 <= i < |t| ==> t[i].body != []
    ensures s == t || |Bodies(s)| < |Bodies(t)|
    decreases |t|
  {
    if s == [] {
      if t != [] {
        assert |Bodies(t)| >= |t[|t| - 1].body|;
      }
    } else {
      var s', t' := s[..|s| - 1], t[..|t| - 1];
      if s[|s| - 1] == t[|t| - 1] && Subsequence(s', t') {
        LossMakesShorter(s', t');
        assert s == s' + [s[|s| - 1]] && t == t' + [t[|t| - 1]];
      } else {
        LossMakesShorter(s, t');
      }
    }
  }

  /** Some fragments of a message arrive, in order, on an idle lane: the message comes
      out if and only if none is missing and it is within the cap. */
  lemma LossyMessage(c: Limits, l: seq<Arrival>, chain: seq<Arrival>, s: seq<Arrival>)
    requires LaneAfter(c, l) == Cleared && Fragments(c, chain)
    requires forall i :: 0 <= i < |chain| ==> chain[i].body != []
    requires Subsequence(s, chain)
    ensures Bodies(chain) in Delivered(c, s) <==> s == chain && |Bodies(chain)| <= c.maxSize
    ensures Delivered(c, l + s) == Delivered(c, l) + [Bodies(chain)] <==> s == chain && |Bodies(chain)| <= c.maxSize
  {
    hide Bodies, LaneAfter, Delivered;
    LossMakesShorter(s, chain);
    BodiesAreBounded(c, s);
    IdleStartsAfresh(c, l, s);
    WholeMessage(c, l, chain);
    SameTail(Delivered(c, l), Delivered(c, s), [Bodies(chain)]);
    assert Bodies(chain) in [Bodies(chain)];
  }

  lemma BodiesOfThree(x: Arrival, y: Arrival, z: Arrival)
    ensures Bodies([x, y, z]) == x.body + y.body + z.body
  {
    assert [x, y, z][..2] == [x, y] && [x, y][..1] == [x] && [x][..0] == [];
    assert Bodies([x]) == [] + x.body;
    assert Bodies([x, y]) == x.body + y.body;
  }

  /** Without its first fragment a message is not dropped: the rest of it comes out as
      if it were one. */
  lemma RestTakenForAMessage(c: Limits, x: Arrival, y: Arrival, z: Arrival)
    requires MessageChain(c, [x, y, z]) && x.body != []
    ensures Delivered(c, [y, z]) == [y.body + z.body]
    ensures Delivered(c, [y, z]) != [Bodies([x, y, z])]
  {
    hide Next;
    BodiesOfThree(x, y, z);
    var chain := [x, y, z];
    assert chain[..2][1] == y && chain[1].more && !chain[2].more && chain[2].sn == Next(chain[1].sn, c.snMask);
    assert [y, z][..1] == [y] && [y][..0] == [];
    assert LaneAfter(c, [y]) == ReassemblyState(true, Next(y.sn, c.snMask), y.body) && Delivered(c, [y]) == [];
    assert |(y.body + z.body)| < |Bodies(chain)|;
  }

  /** A message that loses its last fragment takes the next one with it: that one's first
      fragment is seen as a gap, and its rest comes out as if it were a message. */
  lemma LostEndSpoilsNext(c: Limits, x: Arrival, y: Arrival, u: Arrival, v: Arrival)
    requires MessageChain(c, [x, y]) && MessageChain(c, [u, v]) && u.sn == Next(y.sn, c.snMask) != y.sn
    ensures Delivered(c, [x, u, v]) == [v.body]
  {
    hide Next;
    assert [x, y][..1][0].more && [u, v][..1][0].more && [x, y][1].sn == Next([x, y][0].sn, c.snMask);
    assert !([u, v][1].more);
    assert [x, u, v][..2] == [x, u] && [x, u][..1] == [x] && [x][..0] == [];
    TwoBodies(x, y);
    TwoBodies(u, v);
    assert LaneAfter(c, [x]) == ReassemblyState(true, y.sn, x.body) && Delivered(c, [x]) == [];
    assert LaneAfter(c, [x, u]) == Cleared && Delivered(c, [x, u]) == [];
    LastOfLane(c, [x, u, v]);
    assert [x, u, v][2] == v && [] + v.body == v.body && |v.body| <= c.maxSize;
  }

  lemma TwoBodies(x: Arrival, y: Arrival)
    ensures Bodies([x, y]) == x.body + y.body
  {
    assert [x, y][..1] == [x] && [x][..0] == [];
    assert Bodies([x]) == [] + x.body;
  }

  // ----- why a fragment is turned away -----

  /** A lane is collecting exactly when its last fragment was taken and announced more;
      it then waits for the successor of that fragment. */
  lemma CollectingLane(c: Limits, l: seq<Arrival>)
    ensures LaneAfter(c, l).active ==>
              && |l| > 0 && l[|l| - 1].more
              && LaneAfter(c, l).expectedSn == Next(l[|l| - 1].sn, c.snMask)
              && Step(c, LaneAfter(c, l[..|l| - 1]), l[|l| - 1]).1 == Pending
    ensures |l| > 0 && Step(c, LaneAfter(c, l[..|l| - 1]), l[|l| - 1]).1 == Pending ==> LaneAfter(c, l).active
    ensures !LaneAfter(c, l).active ==> LaneAfter(c, l) == Cleared
  {
    hide Next;
    if |l| > 0 {
      LastOfLane(c, l);
    }
  }

  /** The verdict on the next fragment: a gap exactly when the lane is collecting and it is
      not the successor of the last one; too large exactly when it would otherwise be taken
      and the cap does not allow it. Either way the lane is idle again and the fragment is
      gone, so the next one starts afresh. */
  lemma Verdict(c: Limits, l: seq<Arrival>, a: Arrival)
    ensures var (st, r) := Step(c, LaneAfter(c, l), a);
            var gap := LaneAfter(c, l).active && a.sn != Next(l[|l| - 1].sn, c.snMask);
            && (r == Gap <==> gap)
            && (r == TooLarge <==> !gap && |LaneAfter(c, l).buf| + |a.body| > c.maxSize)
            && (r == Pending <==> !gap && r != TooLarge && a.more)
            && (r != Pending ==> st == Cleared)
  {
    hide Next;
    CollectingLane(c, l);
  }

  /** After a fragment too many, what follows of the oversized message passes for one. */
  lemma OversizedTailComesOut(c: Limits, x: Arrival, y: Arrival, z: Arrival)
    requires Fragments(c, [x, y, z]) && |x.body| <= c.maxSize < |x.body| + |y.body| && |z.body| <= c.maxSize
    ensures Delivered(c, [x, y, z]) == [z.body]
  {
    hide Next;
    var l := [x, y, z];
    assert l[0].more && l[1].more && !l[2].more && l[1].sn == Next(l[0].sn, c.snMask);
    assert l[..2] == [x, y] && [x, y][..1] == [x] && [x][..0] == [];
    assert LaneAfter(c, [x]) == ReassemblyState(true, y.sn, x.body) && Delivered(c, [x]) == [];
    LastOfLane(c, [x, y]);
    assert LaneAfter(c, [x, y]) == Cleared && Delivered(c, [x, y]) == [];
    LastOfLane(c, l);
    assert [] + z.body == z.body;
  }
}
