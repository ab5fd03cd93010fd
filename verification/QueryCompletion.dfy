/**
 Completion of inbound queries (internal/session/dispatch.go:64-101,
 internal/session/queryable.go, zenoh/queryable.go, zenoh/query.go): every REQUEST is
 answered by exactly one RESPONSE_FINAL, after the last reply of the last handler,
 however deliveries, dropped deliveries and handlers interleave.
 */
module QueryCompletion {
  import opened Wrappers
  import opened Buffer
  import opened TransportMessages
  import opened KeyText
  import opened KeyIntersect
  import opened WireTypes
  import opened Lanes
  import opened Reassembly
  import opened InboundReader
  import opened OutboundWriter
  import opened EndToEnd
  import BatchParsing
  import NM = NetworkMessages

  type Qid = uint32

  /** One inbound REQUEST: the matching queryables it still has to be handed to, those
      that have it queued, those whose handler is running, and the shared counter (a
      32-bit word). `owing` says that somebody is about to send the final. */
  datatype Query = Query(rid: uint32, toDeliver: set<Qid>, queued: set<Qid>, running: set<Qid>, remaining: uint32,
                         owing: bool) {
    function Open(): set<Qid> {
      toDeliver + queued + running
    }
  }

  /** What is put on the outbound queue of a link. */
  datatype Out = Answer(query: nat, msg: NM.Message) | Final(query: nat, rid: uint32)

  datatype System = System(queries: seq<Query>, log: seq<Out>)

  /** What happens to one delivery: the queryable's queue takes it or is full, its
      handler starts, its handler returns. */
  datatype Move = Accept(qid: Qid) | Drop(qid: Qid) | Begin(qid: Qid) | Finish(qid: Qid)

  /** Requests arrive in the reader; `matched` is empty when the key is unknown, cannot be
      parsed, or meets no queryable. Everything else happens in any order. */
  datatype Event =
    | Arrive(rid: uint32, matched: set<Qid>)
    | Deliver(query: nat, move: Move)
    | Reply(query: nat, qid: Qid, msg: NM.Message)
    | SendFinal(query: nat)

  predicate Possible(r: Query, m: Move) {
    match m
    case Accept(q) => q in r.toDeliver
    case Drop(q) => q in r.toDeliver
    case Begin(q) => q in r.queued
    case Finish(q) => q in r.running
  }

  /** QueryDone: the counter goes down by one; who takes it to zero owes the final. */
  function Done(r: Query): Query {
    var left := (r.remaining + U32 - 1) % U32;
    r.(remaining := left, owing := r.owing || left == 0)
  }

  function Moved(r: Query, m: Move): Query {
    match m
    case Accept(q) => r.(toDeliver := r.toDeliver - {q}, queued := r.queued + {q})
    case Drop(q) => Done(r.(toDeliver := r.toDeliver - {q}))
    case Begin(q) => r.(queued := r.queued - {q}, running := r.running + {q})
    case Finish(q) => Done(r.(running := r.running - {q}))
  }

  function Armed(rid: uint32, matched: set<Qid>): Query {
    Query(rid, matched, {}, {}, |matched| % U32, matched == {})
  }

  predicate Enabled(s: System, e: Event) {
    match e
    case Arrive(_, matched) => |matched| < U32
    case Deliver(i, m) => i < |s.queries| && Possible(s.queries[i], m)
    case Reply(i, q, m) =>
      i < |s.queries| && q in s.queries[i].running && m.Response? && m.requestId == s.queries[i].rid
    case SendFinal(i) => i < |s.queries| && s.queries[i].owing
  }

  function After(s: System, e: Event): System
    requires Enabled(s, e)
  {
    match e
    case Arrive(rid, matched) => s.(queries := s.queries + [Armed(rid, matched)])
    case Deliver(i, m) => s.(queries := s.queries[i := Moved(s.queries[i], m)])
    case Reply(i, q, m) => s.(log := s.log + [Answer(i, m)])
    case SendFinal(i) =>
      var r := s.queries[i];
      System(s.queries[i := r.(owing := false)], s.log + [Final(i, r.rid)])
  }

  const Start := System([], [])

  predicate PossibleRun(s: System, es: seq<Event>)
    decreases |es|
  {
    |es| == 0 || (Enabled(s, es[0]) && PossibleRun(After(s, es[0]), es[1..]))
  }

  function Outcome(s: System, es: seq<Event>): System
    requires PossibleRun(s, es)
    decreases |es|
  {
    if |es| == 0 then s else Outcome(After(s, es[0]), es[1..])
  }

  // ----- what every reachable state keeps -----

  /** How often the final of a query was sent. */
  function Finals(log: seq<Out>, i: nat): nat {
    if |log| == 0 then 0
    else Finals(log[..|log| - 1], i) + if log[|log| - 1].Final? && log[|log| - 1].query == i then 1 else 0
  }

  /** The counter counts the open deliveries; while there are any, no final is owed or
      sent, and once there are none it is either owed or sent, once. */
  predicate Accounted(r: Query, finals: nat) {
    && r.toDeliver !! r.queued && r.toDeliver !! r.running && r.queued !! r.running
    && |r.Open()| < U32 && r.remaining == |r.Open()|
    && (if r.Open() != {} then !r.owing && finals == 0 else finals == if r.owing then 0 else 1)
  }

  /** A final is never followed by an answer to the same query. */
  predicate FinalIsLast(log: seq<Out>) {
    forall a, b :: 0 <= a < b < |log| && log[a].Final? ==> log[b].query != log[a].query
  }

  ghost predicate Sound(s: System) {
    && (forall i :: 0 <= i < |s.queries| ==> Accounted(s.queries[i], Finals(s.log, i)))
    && (forall i :: i >= |s.queries| ==> Finals(s.log, i) == 0)
    && (forall j :: 0 <= j < |s.log| ==> s.log[j].query < |s.queries|)
    && FinalIsLast(s.log)
  }

  lemma FinalsGrow(log: seq<Out>, o: Out, i: nat)
    ensures Finals(log + [o], i) == Finals(log, i) + if o.Final? && o.query == i then 1 else 0
  {
    assert (log + [o])[..|log|] == log;
  }

  lemma {:induction false} NoFinalInside(log: seq<Out>, i: nat)
    ensures Finals(log, i) == 0 <==> forall j :: 0 <= j < |log| ==> !(log[j].Final? && log[j].query == i)
  {
    if |log| > 0 {
      NoFinalInside(log[..|log| - 1], i);
      assert forall j :: 0 <= j < |log| - 1 ==> log[..|log| - 1][j] == log[j];
    }
  }

  lemma SetSizes(a: set<Qid>, q: Qid)
    requires q in a
    ensures |a - {q}| == |a| - 1
  {
  }

  lemma DoneIsAccounted(r: Query, r': Query, q: Qid)
    requires Accounted(r, 0) && q in r.Open() && !r.owing
    requires r'.toDeliver <= r.toDeliver && r'.queued <= r.queued && r'.running <= r.running
    requires r'.Open() == r.Open() - {q} && r'.remaining == r.remaining && !r'.owing
    ensures Accounted(Done(r'), 0)
  {
    SetSizes(r.Open(), q);
    assert Done(r').Open() == r'.Open();
    assert (r.remaining + U32 - 1) % U32 == r.remaining - 1;
  }

  lemma HandedOnIsAccounted(r: Query, m: Move, finals: nat)
    requires Accounted(r, finals) && Possible(r, m) && (m.Accept? || m.Begin?)
    ensures Accounted(Moved(r, m), finals) && finals == 0
  {
    hide Moved;
    assert m.qid in r.Open();
    MovesWithin(r, m);
  }

  lemma MovesWithin(r: Query, m: Move)
    requires Possible(r, m) && (m.Accept? || m.Begin?)
    ensures Moved(r, m).Open() == r.Open()
    ensures r.toDeliver !! r.queued && r.toDeliver !! r.running && r.queued !! r.running ==>
              var r' := Moved(r, m);
              r'.toDeliver !! r'.queued && r'.toDeliver !! r'.running && r'.queued !! r'.running
    ensures Moved(r, m).remaining == r.remaining && Moved(r, m).owing == r.owing
  {
  }

  lemma Without(a: set<Qid>, b: set<Qid>, c: set<Qid>, q: Qid)
    requires q in a && a !! b && a !! c
    ensures (a - {q}) + b + c == (a + b + c) - {q}
    ensures b + c + (a - {q}) == (b + c + a) - {q}
  {
  }

  lemma DropIsAccounted(r: Query, q: Qid, finals: nat)
    requires Accounted(r, finals) && q in r.toDeliver
    ensures Accounted(Moved(r, Drop(q)), finals) && finals == 0
  {
    hide Done;
    var r' := r.(toDeliver := r.toDeliver - {q});
    Without(r.toDeliver, r.queued, r.running, q);
    assert q in r.Open();
    DoneIsAccounted(r, r', q);
  }

  lemma FinishIsAccounted(r: Query, q: Qid, finals: nat)
    requires Accounted(r, finals) && q in r.running
    ensures Accounted(Moved(r, Finish(q)), finals) && finals == 0
  {
    hide Done;
    var r' := r.(running := r.running - {q});
    Without(r.running, r.toDeliver, r.queued, q);
    assert q in r.Open();
    DoneIsAccounted(r, r', q);
  }

  lemma MovedIsAccounted(r: Query, m: Move, finals: nat)
    requires Accounted(r, finals) && Possible(r, m)
    ensures Accounted(Moved(r, m), finals) && finals == 0
  {
    hide Accounted, Moved;
    match m
    case Drop(q) => DropIsAccounted(r, q, finals);
    case Finish(q) => FinishIsAccounted(r, q, finals);
    case _ => HandedOnIsAccounted(r, m, finals);
  }

  lemma QueryMoves(s: System, i: nat, r: Query)
    requires Sound(s) && i < |s.queries| && Accounted(r, Finals(s.log, i))
    ensures Sound(s.(queries := s.queries[i := r]))
  {
    hide Accounted, Finals;
  }

  lemma LogGrows(s: System, o: Out)
    requires Sound(s) && o.query < |s.queries| && Finals(s.log, o.query) == 0 && o.Answer?
    ensures Sound(s.(log := s.log + [o]))
  {
    hide Accounted, Finals;
    forall i: nat
      ensures Finals(s.log + [o], i) == Finals(s.log, i)
    {
      FinalsGrow(s.log, o, i);
    }
    NoFinalInside(s.log, o.query);
  }

  lemma FinalSent(s: System, i: nat)
    requires Sound(s) && i < |s.queries| && s.queries[i].owing
    ensures Sound(After(s, SendFinal(i)))
  {
    hide Finals;
    var r := s.queries[i];
    var o := Final(i, r.rid);
    assert Accounted(r, Finals(s.log, i));
    forall j: nat
      ensures Finals(s.log + [o], j) == Finals(s.log, j) + if j == i then 1 else 0
    {
      FinalsGrow(s.log, o, j);
    }
    NoFinalInside(s.log, i);
  }

  lemma StepStaysSound(s: System, e: Event)
    requires Sound(s) && Enabled(s, e)
    ensures Sound(After(s, e))
  {
    hide Finals, Moved;
    match e
    case Arrive(rid, matched) =>
      assert Armed(rid, matched).Open() == matched;
    case Deliver(i, m) =>
      MovedIsAccounted(s.queries[i], m, Finals(s.log, i));
      QueryMoves(s, i, Moved(s.queries[i], m));
    case Reply(i, q, m) =>
      assert Accounted(s.queries[i], Finals(s.log, i)) && q in s.queries[i].Open();
      LogGrows(s, Answer(i, m));
    case SendFinal(i) =>
      FinalSent(s, i);
  }

  lemma {:induction false} RunsAreSound(s: System, es: seq<Event>)
    requires Sound(s) && PossibleRun(s, es)
    ensures Sound(Outcome(s, es))
    decreases |es|
  {
    hide Sound, After;
    if |es| > 0 {
      StepStaysSound(s, es[0]);
      RunsAreSound(After(s, es[0]), es[1..]);
    }
  }

  // ----- exactly one final, after all answers -----

  /** In every interleaving: a query never gets a second final, it has one as soon as it
      is settled and not before, and no answer follows the final. */
  lemma ExactlyOneFinal(es: seq<Event>, i: nat)
    requires PossibleRun(Start, es) && i < |Outcome(Start, es).queries|
    ensures var s := Outcome(Start, es);
            && Finals(s.log, i) <= 1
            && (Finals(s.log, i) == 1 <==> s.queries[i].Open() == {} && !s.queries[i].owing)
            && FinalIsLast(s.log)
  {
    assert Sound(Start);
    RunsAreSound(Start, es);
    var s := Outcome(Start, es);
    assert Accounted(s.queries[i], Finals(s.log, i));
  }

  /** Steps that are still to come for a query, replies aside. */
  function Work(s: System, i: nat): nat
    requires i < |s.queries|
  {
    Pending(s.queries[i]) + if Finals(s.log, i) == 0 then 1 else 0
  }

  function Pending(r: Query): nat {
    3 * |r.toDeliver| + 2 * |r.queued| + |r.running|
  }

  lemma MoveUsesUpWork(r: Query, m: Move)
    requires Possible(r, m) && r.toDeliver !! r.queued && r.queued !! r.running
    ensures Pending(Moved(r, m)) < Pending(r)
  {
    var q := m.qid;
    match m
    case Accept(_) =>
      SetSizes(r.toDeliver, q);
      assert |r.queued + {q}| == |r.queued| + 1;
    case Begin(_) =>
      SetSizes(r.queued, q);
      assert |r.running + {q}| == |r.running| + 1;
    case Drop(_) => SetSizes(r.toDeliver, q);
    case Finish(_) => SetSizes(r.running, q);
  }

  /** Every step of a query other than a reply uses up work. */
  lemma StepsUseUpWork(s: System, e: Event)
    requires Sound(s) && Enabled(s, e) && !e.Arrive? && !e.Reply?
    ensures Work(After(s, e), e.query) < Work(s, e.query)
  {
    hide Finals, Moved;
    var r := s.queries[e.query];
    assert Accounted(r, Finals(s.log, e.query));
    match e
    case Deliver(i, m) => MoveUsesUpWork(r, m);
    case SendFinal(i) =>
      FinalsGrow(s.log, Final(i, r.rid), i);
  }

  /** A query without its final always has a step to take that brings the final nearer;
      it cannot hang, whatever was dropped. */
  lemma NeverStuck(s: System, i: nat) returns (e: Event)
    requires Sound(s) && i < |s.queries| && Finals(s.log, i) == 0
    ensures Enabled(s, e) && !e.Arrive? && !e.Reply? && e.query == i
    ensures Work(After(s, e), i) < Work(s, i)
  {
    hide Finals, Work, Moved;
    var r := s.queries[i];
    assert Accounted(r, Finals(s.log, i));
    if q :| q in r.toDeliver {
      e := Deliver(i, Drop(q));
    } else if q :| q in r.queued {
      e := Deliver(i, Begin(q));
    } else if q :| q in r.running {
      e := Deliver(i, Finish(q));
    } else {
      assert r.Open() == {};
      e := SendFinal(i);
    }
    StepsUseUpWork(s, e);
  }

  // ----- on the wire -----

  const DataLane := LaneKey(PriorityData, true)

  function MessageOf(o: Out): NM.Message {
    match o case Answer(_, m) => m case Final(_, rid) => NM.ResponseFinal(rid, [])
  }

  function MessagesOf(log: seq<Out>): (ms: seq<NM.Message>)
    ensures |ms| == |log|
  {
    seq(|log|, i requires 0 <= i < |log| => MessageOf(log[i]))
  }

  /** An answer and the final of the same query. */
  predicate Concludes(log: seq<Out>, a: nat, b: nat) {
    a < |log| && b < |log| && log[a].Answer? && log[b].Final? && log[a].query == log[b].query
  }

  /** Replies and finals share the reliable Data lane of a link with whatever else the
      session sends there (they are `Among` what is sent). They are among what the peer
      dispatches, in the same order, and the final of a query after all its replies. */
  lemma FinalArrivesLast(c: Settings, lim: Limits, start: Plan, bursts: seq<seq<Outgoing>>, last: Option<seq<Outgoing>>,
                         es: seq<Event>, log: seq<Out>, at: seq<nat>)
    returns (pos: seq<nat>)
    requires c.batchSize > FragmentOverhead && lim.snMask == c.snMask && Unused(start)
    requires forall i :: 0 <= i < |bursts| ==> AllAdmissible(lim, bursts[i])
    requires last.Some? ==> AllAdmissible(lim, last.value)
    requires PossibleRun(Start, es) && log == Outcome(Start, es).log
    requires Among(MessagesOf(log), SentOn(AllSent(bursts, last), DataLane), at)
    ensures var wire := FlushedPlan(c, ActAll(c, start, RunOf(c, lim, bursts, last))).sent;
            Among(Relayed(log), Received(lim, Fresh, wire).0.log, pos)
    ensures forall a, b :: Concludes(log, a, b) ==> a < b
  {
    hide Received, FlushedPlan, ActAll, RunOf, LoggedOn, SentOn, AllSent, NM.OnWire, After, Outcome, PossibleRun,
         Finals;
    StartIsSound();
    RunsAreSound(Start, es);
    FinalsComeLater(log);
    var trail := EndToEnd.EndToEnd(c, lim, start, bursts, last);
    pos := Relay(c, log, trail, SentOn(AllSent(bursts, last), DataLane), at);
  }

  lemma StartIsSound()
    ensures Sound(Start)
  {
  }

  /** The queued messages as the peer dispatches them. */
  function Relayed(log: seq<Out>): (ds: seq<Delivery>)
    ensures |ds| == |log|
  {
    seq(|log|, i requires 0 <= i < |log| => Delivery(DataLane, NM.OnWire(MessageOf(log[i]))))
  }

  /** From the position on the lane to the position in everything that was dispatched. */
  lemma Relay(c: Settings, log: seq<Out>, trail: seq<Delivery>, sent: seq<NM.Message>, at: seq<nat>)
    returns (pos: seq<nat>)
    requires Among(MessagesOf(log), sent, at) && LoggedOn(trail, DataLane) == BatchParsing.OnWireAll(sent)
    ensures Among(Relayed(log), OnWireLanes(c, trail), pos)
  {
    hide LoggedOn, NM.OnWire;
    var lane := PositionsOn(trail, DataLane);
    pos := seq(|log|, i requires 0 <= i < |log| => lane[at[i]]);
  }

  /** No final precedes an answer to its query. */
  lemma FinalsComeLater(log: seq<Out>)
    requires FinalIsLast(log)
    ensures forall a, b :: Concludes(log, a, b) ==> a < b
  {
  }

  // ----- the session object -----

  lemma {:induction false} RunsAppend(s: System, a: seq<Event>, b: seq<Event>)
    requires PossibleRun(s, a) && PossibleRun(Outcome(s, a), b)
    ensures PossibleRun(s, a + b) && Outcome(s, a + b) == Outcome(Outcome(s, a), b)
    decreases |a|
  {
    hide After, Enabled;
    if |a| == 0 {
      assert a + b == b;
    } else {
      assert (a + b)[0] == a[0] && (a + b)[1..] == a[1..] + b;
      RunsAppend(After(s, a[0]), a[1..], b);
    }
  }

  /** One more event at the end of a run. */
  lemma RunGoesOn(s: System, es: seq<Event>, e: Event)
    requires PossibleRun(s, es) && Enabled(Outcome(s, es), e)
    ensures PossibleRun(s, es + [e]) && Outcome(s, es + [e]) == After(Outcome(s, es), e)
  {
    hide After, Enabled;
    assert [e][1..] == [];
    RunsAppend(s, es, [e]);
  }

  /** The queryables a request reaches. */
  ghost function Reached(byId: map<Qid, string>, key: Option<string>): set<Qid> {
    if key.None? || !Valid(key.value) then {} else set q | q in byId && ShareAKey(byId[q], key.value)
  }

  class Queryables {
    var byId: map<Qid, string>
    var queries: seq<Query>
    var log: seq<Out>

    constructor ()
      ensures byId == map[] && State() == Start
    {
      byId, queries, log := map[], [], [];
    }

    function State(): System
      reads this
    {
      System(queries, log)
    }

    ghost predicate Valid()
      reads this
    {
      |byId| < U32 && forall q :: q in byId ==> KeyText.Valid(byId[q])
    }

    /** QueryDone and, for the last delivery, the RESPONSE_FINAL. */
    method Settle(i: nat, m: Move) returns (ghost es: seq<Event>)
      requires i < |queries| && Possible(queries[i], m) && (m.Drop? || m.Finish?) && !queries[i].owing
      modifies this`queries, this`log
      ensures PossibleRun(old(State()), es) && State() == Outcome(old(State()), es)
      ensures es == [Deliver(i, m)] + if Moved(old(queries)[i], m).owing then [SendFinal(i)] else []
      ensures |queries| == |old(queries)| && queries[i] == Moved(old(queries)[i], m).(owing := false)
      ensures log == old(log) + if Moved(old(queries)[i], m).owing then [Final(i, queries[i].rid)] else []
    {
      hide Moved;
      ghost var before := State();
      RunGoesOn(before, [], Deliver(i, m));
      es := [Deliver(i, m)];
      assert [] + es == es;
      queries := queries[i := Moved(queries[i], m)];
      if queries[i].owing {
        RunGoesOn(before, es, SendFinal(i));
        es := es + [SendFinal(i)];
        log := log + [Final(i, queries[i].rid)];
        queries := queries[i := queries[i].(owing := false)];
      }
    }

    method Intersecting(ke: string) returns (matched: set<Qid>)
      requires Valid() && KeyText.Valid(ke)
      ensures matched == Reached(byId, Some(ke))
    {
      hide ShareAKey, KeyText.Valid;
      matched := {};
      var todo := byId.Keys;
      while todo != {}
        invariant todo <= byId.Keys
        invariant matched == set q | q in byId && q !in todo && ShareAKey(byId[q], ke)
        decreases |todo|
      {
        var q :| q in todo;
        var meets := Intersects(byId[q], ke);
        if meets {
          matched := matched + {q};
        }
        todo := todo - {q};
      }
      assert KeyText.Valid(ke);
    }

    /** One of them. */
    method DeliverOne(i: nat, q: Qid, hasRoom: bool) returns (ghost es: seq<Event>)
      requires Sound(State()) && i < |queries| && q in queries[i].toDeliver
      modifies this`queries, this`log
      ensures PossibleRun(old(State()), es) && State() == Outcome(old(State()), es) && Sound(State())
      ensures |queries| == |old(queries)| && queries[i].toDeliver == old(queries)[i].toDeliver - {q}
      ensures queries[i].queued == old(queries)[i].queued + if hasRoom then {q} else {}
      ensures queries[i].running == old(queries)[i].running && queries[i].rid == old(queries)[i].rid
      ensures IsDelivery(es, i, q, hasRoom)
      ensures log == old(log) + if queries[i].Open() == {} then [Final(i, queries[i].rid)] else []
    {
      hide Moved, Finals, Outcome, PossibleRun, Sound, Accounted;
      ghost var before, r := State(), queries[i];
      DeliverySteps(before, i, q);
      if hasRoom {
        es := [Deliver(i, Accept(q))];
        queries := queries[i := Moved(queries[i], Accept(q))];
      } else {
        es := Settle(i, Drop(q));
        RunsAreSound(before, es);
      }
    }

    /** Hands a query to everything it matched: those with `room` in their queue get it,
        each of the others drops it and settles its share. A final is sent here only if
        all of them drop it. */
    method Deliveries(i: nat, room: set<Qid>) returns (ghost es: seq<Event>)
      requires Sound(State()) && i < |queries|
      modifies this`queries, this`log
      ensures PossibleRun(old(State()), es) && State() == Outcome(old(State()), es)
      ensures |queries| == |old(queries)| && queries[i].toDeliver == {}
      ensures old(queries)[i].toDeliver == {} ==> es == []
      ensures queries[i].queued == old(queries)[i].queued + old(queries)[i].toDeliver * room
      ensures queries[i].running == old(queries)[i].running && queries[i].rid == old(queries)[i].rid
      ensures forall q :: Deliver(i, Accept(q)) in es <==> q in old(queries)[i].toDeliver * room
      ensures forall q :: Deliver(i, Drop(q)) in es <==> q in old(queries)[i].toDeliver - room
      ensures log == old(log) + if es != [] && queries[i].Open() == {} then [Final(i, queries[i].rid)] else []
    {
      hide Moved, Finals, Outcome, PossibleRun, Sound, HandedOut, IsDelivery, Accounted;
      ghost var before := State();
      es := [];
      NoRun(before);
      NothingHandedOut(i, queries[i], room, log);
      while queries[i].toDeliver != {}
        invariant |queries| == |old(queries)| && Sound(State())
        invariant PossibleRun(before, es) && State() == Outcome(before, es)
        invariant old(queries)[i].toDeliver == {} ==> es == []
        invariant HandedOut(i, old(queries)[i], queries[i], room, es, old(log), log)
        decreases |queries[i].toDeliver|
      {
        var q :| q in queries[i].toDeliver;
        ghost var r, sofar, logged := queries[i], es, log;
        ghost var more := DeliverOne(i, q, q in room);
        RunsAppend(before, es, more);
        es := es + more;
        HandedOutOneMore(i, old(queries)[i], r, queries[i], room, q, sofar, more, old(log), logged);
        SetSizes(r.toDeliver, q);
      }
      AllHandedOut(i, old(queries)[i], queries[i], room, es, old(log), log);
    }

    /** Arms the counter for a new query, or answers one that matches nothing. */
    method Arm(rid: uint32, matched: set<Qid>) returns (ghost es: seq<Event>)
      requires Sound(State()) && |matched| < U32
      modifies this`queries, this`log
      ensures PossibleRun(old(State()), es) && State() == Outcome(old(State()), es) && Sound(State())
      ensures es == [Arrive(rid, matched)] + if matched == {} then [SendFinal(|old(queries)|)] else []
      ensures queries == old(queries) + [Armed(rid, matched).(owing := false)]
      ensures log == old(log) + if matched == {} then [Final(|old(queries)|, rid)] else []
    {
      hide Finals, Sound;
      ghost var before, i := State(), |queries|;
      RunGoesOn(before, [], Arrive(rid, matched));
      es := [Arrive(rid, matched)];
      assert [] + es == es;
      queries := queries + [Armed(rid, matched)];
      if matched == {} {
        RunGoesOn(before, es, SendFinal(i));
        es := es + [SendFinal(i)];
        log := log + [Final(|queries| - 1, rid)];
        queries := queries[|queries| - 1 := queries[|queries| - 1].(owing := false)];
      }
      RunsAreSound(before, es);
    }

    /** onRequest: an unknown or unparsable key or no matching queryable is answered with
        a final at once; otherwise the counter is armed and the query handed out. It ends
        up queued at the matching queryables with room, and if there is none its final is
        sent here, without a reply. */
    method OnRequest(rid: uint32, key: Option<string>, room: set<Qid>) returns (ghost es: seq<Event>)
      requires Valid() && Sound(State())
      modifies this`queries, this`log
      ensures PossibleRun(old(State()), es) && State() == Outcome(old(State()), es) && Sound(State())
      ensures |es| > 0 && es[0] == Arrive(rid, Reached(byId, key))
      ensures Reached(byId, key) == {} ==> es == [Arrive(rid, {}), SendFinal(|old(queries)|)]
      ensures |queries| == |old(queries)| + 1
      ensures var (r, taken) := (queries[|old(queries)|], Reached(byId, key) * room);
              && r.rid == rid && r.toDeliver == {} && r.queued == taken && r.running == {}
              && log == old(log) + if taken == {} then [Final(|old(queries)|, rid)] else []
    {
      hide ShareAKey, KeyText.Valid, Finals, Sound, Outcome, PossibleRun;
      var i, matched := |queries|, {};
      if key.Some? {
        var error := Validate(key.value);
        if error.None? {
          matched := Intersecting(key.value);
        }
      }
      SubsetSize(matched, byId.Keys);
      ghost var before := State();
      es := Arm(rid, matched);
      ghost var more := Deliveries(i, room);
      RunsAppend(before, es, more);
      RunsAreSound(before, es + more);
      assert es + [] == es;
      SomeDelivery(i, more, matched, room);
      assert queries[i].Open() == matched * room;
      es := es + more;
    }

    /** runQueryHandler: the handler's replies, a panic's error reply included, then
        its share of the completion. */
    method RunQueryHandler(i: nat, q: Qid, answers: seq<NM.Message>) returns (ghost es: seq<Event>)
      requires Sound(State()) && i < |queries| && q in queries[i].queued
      requires forall j :: 0 <= j < |answers| ==> answers[j].Response? && answers[j].requestId == queries[i].rid
      modifies this`queries, this`log
      ensures PossibleRun(old(State()), es) && State() == Outcome(old(State()), es) && Sound(State())
      ensures |es| > |answers| && es[0] == Deliver(i, Begin(q))
      ensures forall j :: 0 <= j < |answers| ==> es[j + 1] == Reply(i, q, answers[j])
      ensures |queries| == |old(queries)| && queries[i].queued == old(queries)[i].queued - {q}
      ensures log == old(log) + Answers(i, answers)
                     + if queries[i].Open() == {} then [Final(i, queries[i].rid)] else []
    {
      hide Moved, Finals, Sound, Outcome, PossibleRun, Accounted;
      ghost var before := State();
      es := [Deliver(i, Begin(q))];
      NoRun(before);
      RunGoesOn(before, [], es[0]);
      assert [] + es == es;
      BeginRuns(queries[i], q);
      queries := queries[i := Moved(queries[i], Begin(q))];
      for j := 0 to |answers|
        invariant |queries| == |old(queries)| && queries[i] == Moved(old(queries)[i], Begin(q))
        invariant log == old(log) + Answers(i, answers[..j])
        invariant PossibleRun(before, es) && State() == Outcome(before, es)
        invariant |es| == j + 1 && es[0] == Deliver(i, Begin(q))
        invariant forall k :: 0 <= k < j ==> es[k + 1] == Reply(i, q, answers[k])
      {
        RunGoesOn(before, es, Reply(i, q, answers[j]));
        es := es + [Reply(i, q, answers[j])];
        log := log + [Answer(i, answers[j])];
        assert Answers(i, answers[..j + 1]) == Answers(i, answers[..j]) + [Answer(i, answers[j])];
      }
      assert answers[..|answers|] == answers;
      RunsAreSound(before, es);
      SoundQuery(State(), i);
      FinishOwes(queries[i], q, Finals(log, i));
      ghost var more := Settle(i, Finish(q));
      RunsAppend(before, es, more);
      es := es + more;
      RunsAreSound(before, es);
    }
  }

  lemma {:induction false} SubsetSize(a: set<Qid>, b: set<Qid>)
    requires a <= b
    ensures |a| <= |b|
  {
    if q :| q in a {
      SubsetSize(a - {q}, b - {q});
    }
  }

  lemma NoRun(s: System)
    ensures PossibleRun(s, []) && Outcome(s, []) == s
  {
  }

  lemma SoundQuery(s: System, i: nat)
    requires Sound(s) && i < |s.queries|
    ensures Accounted(s.queries[i], Finals(s.log, i))
  {
  }

  lemma DeliveryShrinks(r: Query, q: Qid)
    requires q in r.toDeliver && Accounted(r, if r.owing || r.Open() != {} then 0 else 1)
    ensures !r.owing && |r.toDeliver - {q}| < |r.toDeliver|
    ensures Moved(r, Accept(q)).toDeliver == Moved(r, Drop(q)).toDeliver == r.toDeliver - {q}
  {
    assert q in r.Open();
    SetSizes(r.toDeliver, q);
  }

  /** The events of one delivery. */
  predicate IsDelivery(es: seq<Event>, i: nat, q: Qid, accepted: bool) {
    || (accepted && es == [Deliver(i, Accept(q))])
    || (!accepted && (es == [Deliver(i, Drop(q))] || es == [Deliver(i, Drop(q)), SendFinal(i)]))
  }

  /** Where the loop over the matches stands that began with `r0`: who is no longer to be
      delivered to has the query queued or has dropped it. */
  ghost predicate HandedOut(i: nat, r0: Query, r: Query, room: set<Qid>, es: seq<Event>, log0: seq<Out>,
                            log: seq<Out>) {
    var gone := r0.toDeliver - r.toDeliver;
    && r.toDeliver <= r0.toDeliver && r.queued == r0.queued + gone * room
    && r.running == r0.running && r.rid == r0.rid
    && (forall q :: Deliver(i, Accept(q)) in es <==> q in gone * room)
    && (forall q :: Deliver(i, Drop(q)) in es <==> q in gone - room)
    && log == log0 + if es != [] && r.Open() == {} then [Final(i, r.rid)] else []
  }

  lemma SomeDelivery(i: nat, es: seq<Event>, matched: set<Qid>, room: set<Qid>)
    requires matched == {} ==> es == []
    requires forall q :: Deliver(i, Accept(q)) in es <==> q in matched * room
    requires forall q :: Deliver(i, Drop(q)) in es <==> q in matched - room
    ensures es == [] ==> matched == {}
  {
    if q :| q in matched {
      assert q in matched * room || q in matched - room;
    }
  }

  lemma NothingHandedOut(i: nat, r: Query, room: set<Qid>, log: seq<Out>)
    ensures HandedOut(i, r, r, room, [], log, log)
  {
    assert log + [] == log;
  }

  lemma HandedOutOneMore(i: nat, r0: Query, r: Query, r': Query, room: set<Qid>, q: Qid, es: seq<Event>,
                         more: seq<Event>, log0: seq<Out>, log: seq<Out>)
    requires HandedOut(i, r0, r, room, es, log0, log) && q in r.toDeliver && IsDelivery(more, i, q, q in room)
    requires r'.toDeliver == r.toDeliver - {q} && r'.queued == r.queued + (if q in room then {q} else {})
    requires r'.running == r.running && r'.rid == r.rid
    ensures HandedOut(i, r0, r', room, es + more, log0, log + if r'.Open() == {} then [Final(i, r'.rid)] else [])
  {
    DeliveredSoFar(es, more, i, q, q in room);
    SomeOpen(r, q);
    hide IsDelivery;
    assert log == log0 + [] == log0;
  }

  lemma AllHandedOut(i: nat, r0: Query, r: Query, room: set<Qid>, es: seq<Event>, log0: seq<Out>, log: seq<Out>)
    requires HandedOut(i, r0, r, room, es, log0, log) && r.toDeliver == {}
    ensures r.queued == r0.queued + r0.toDeliver * room && r.running == r0.running && r.rid == r0.rid
    ensures forall q :: Deliver(i, Accept(q)) in es <==> q in r0.toDeliver * room
    ensures forall q :: Deliver(i, Drop(q)) in es <==> q in r0.toDeliver - room
    ensures log == log0 + if es != [] && r.Open() == {} then [Final(i, r.rid)] else []
  {
  }

  lemma DeliveredSoFar(es: seq<Event>, more: seq<Event>, i: nat, q: Qid, accepted: bool)
    requires IsDelivery(more, i, q, accepted)
    ensures forall p :: Deliver(i, Accept(p)) in es + more <==> Deliver(i, Accept(p)) in es || (accepted && p == q)
    ensures forall p :: Deliver(i, Drop(p)) in es + more <==> Deliver(i, Drop(p)) in es || (!accepted && p == q)
    ensures es + more != []
  {
  }

  lemma SomeOpen(r: Query, q: Qid)
    requires q in r.toDeliver
    ensures r.Open() != {}
  {
    assert q in r.Open();
  }

  /** A query that still had something open owes a final exactly when nothing is left. */
  lemma MovedOwes(r: Query, q: Qid, finals: nat)
    requires Accounted(r, finals) && q in r.toDeliver
    ensures Moved(r, Drop(q)).owing <==> Moved(r, Drop(q)).Open() == {}
    ensures Moved(r, Accept(q)).Open() != {}
  {
    hide Moved;
    MovedIsAccounted(r, Drop(q), finals);
    HandedTo(r, q);
    assert q in Moved(r, Accept(q)).Open();
  }

  /** Both ways of delivering, as steps of the whole. */
  lemma DeliverySteps(s: System, i: nat, q: Qid)
    requires Sound(s) && i < |s.queries| && q in s.queries[i].toDeliver
    ensures var (r, es) := (s.queries[i], [Deliver(i, Accept(q))]);
            && !r.owing && PossibleRun(s, es)
            && Outcome(s, es) == s.(queries := s.queries[i := Moved(r, Accept(q))]) && Sound(Outcome(s, es))
            && Moved(r, Accept(q)) == r.(toDeliver := r.toDeliver - {q}, queued := r.queued + {q})
            && Moved(r, Accept(q)).Open() != {}
    ensures var (r, m) := (s.queries[i], Moved(s.queries[i], Drop(q)));
            && m.toDeliver == r.toDeliver - {q} && m.queued == r.queued && m.running == r.running && m.rid == r.rid
            && (m.owing <==> m.Open() == {})
  {
    hide Finals, Sound, Accounted;
    var e := Deliver(i, Accept(q));
    SoundQuery(s, i);
    DeliveryShrinks(s.queries[i], q);
    MovedOwes(s.queries[i], q, Finals(s.log, i));
    StepStaysSound(s, e);
    NoRun(s);
    RunGoesOn(s, [], e);
    assert [] + [e] == [e];
  }

  /** What the two ways of delivering change besides. */
  lemma HandedTo(r: Query, q: Qid)
    ensures Moved(r, Accept(q)) == r.(toDeliver := r.toDeliver - {q}, queued := r.queued + {q})
    ensures Moved(r, Drop(q)).queued == r.queued && Moved(r, Drop(q)).running == r.running
    ensures Moved(r, Drop(q)).rid == r.rid
  {
  }

  function Answers(i: nat, ms: seq<NM.Message>): (log: seq<Out>)
    ensures |log| == |ms|
  {
    seq(|ms|, j requires 0 <= j < |ms| => Answer(i, ms[j]))
  }

  lemma FinishOwes(r: Query, q: Qid, finals: nat)
    requires Accounted(r, finals) && q in r.running
    ensures !r.owing
    ensures Moved(r, Finish(q)).owing <==> Moved(r, Finish(q)).Open() == {}
    ensures Moved(r, Finish(q)).queued == r.queued
  {
    hide Moved;
    assert q in r.Open();
    MovedIsAccounted(r, Finish(q), finals);
    FinishLeaves(r, q);
  }

  lemma FinishLeaves(r: Query, q: Qid)
    ensures Moved(r, Finish(q)).queued == r.queued && Moved(r, Finish(q)).rid == r.rid
  {
  }

  lemma BeginRuns(r: Query, q: Qid)
    ensures q in Moved(r, Begin(q)).running && Moved(r, Begin(q)).rid == r.rid
    ensures Moved(r, Begin(q)).queued == r.queued - {q}
  {
  }
}
