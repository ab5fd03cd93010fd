/**
 What a run of the query machinery puts on the wire, told from its events
 (internal/session/queryable.go:34-39, zenoh/query.go:78-101): the answers of a query are
 its replies, in order, and its final names the request that it answers.
 */
module QueryAnswers {
  import opened Buffer
  import opened QueryCompletion
  import NM = NetworkMessages

  /** The answers to one query, in the order in which they were sent. */
  function AnswersTo(log: seq<Out>, i: nat): seq<NM.Message> {
    if |log| == 0 then []
    else
      AnswersTo(log[..|log| - 1], i)
      + match log[|log| - 1] case Answer(k, m) => (if k == i then [m] else []) case Final(_, _) => []
  }

  /** The replies that handlers made to one query. */
  function RepliesTo(es: seq<Event>, i: nat): seq<NM.Message> {
    if |es| == 0 then []
    else (if es[0].Reply? && es[0].query == i then [es[0].msg] else []) + RepliesTo(es[1..], i)
  }

  /** The identifiers of the requests, in the order in which they arrived. */
  function RequestIds(es: seq<Event>): seq<uint32> {
    if |es| == 0 then []
    else (if es[0].Arrive? then [es[0].rid] else []) + RequestIds(es[1..])
  }

  function RidsOf(qs: seq<Query>): (rids: seq<uint32>)
    ensures |rids| == |qs|
  {
    seq(|qs|, i requires 0 <= i < |qs| => qs[i].rid)
  }

  lemma StepAnswers(s: System, e: Event, i: nat)
    requires Enabled(s, e)
    ensures AnswersTo(After(s, e).log, i)
         == AnswersTo(s.log, i) + if e.Reply? && e.query == i then [e.msg] else []
    ensures RidsOf(After(s, e).queries) == RidsOf(s.queries) + if e.Arrive? then [e.rid] else []
  {
    match e
    case Arrive(rid, matched) =>
    case Deliver(k, m) => RidStays(s.queries[k], m);
    case Reply(k, q, m) => assert (s.log + [Answer(k, m)])[..|s.log|] == s.log;
    case SendFinal(k) => assert (s.log + [Final(k, s.queries[k].rid)])[..|s.log|] == s.log;
  }

  lemma RidStays(r: Query, m: Move)
    ensures Moved(r, m).rid == r.rid
  {
  }

  lemma {:induction false} RunAnswers(s: System, es: seq<Event>, i: nat)
    requires PossibleRun(s, es)
    ensures AnswersTo(Outcome(s, es).log, i) == AnswersTo(s.log, i) + RepliesTo(es, i)
    ensures RidsOf(Outcome(s, es).queries) == RidsOf(s.queries) + RequestIds(es)
    decreases |es|
  {
    hide After, Enabled, AnswersTo, RidsOf;
    if |es| > 0 {
      StepAnswers(s, es[0], i);
      RunAnswers(After(s, es[0]), es[1..], i);
    }
  }

  /** No reply is lost, doubled or reordered on its way to the outbound queue. */
  lemma RepliesAreAnswers(es: seq<Event>, i: nat)
    requires PossibleRun(Start, es)
    ensures AnswersTo(Outcome(Start, es).log, i) == RepliesTo(es, i)
    ensures RidsOf(Outcome(Start, es).queries) == RequestIds(es)
  {
    hide AnswersTo, RidsOf, Outcome;
    RunAnswers(Start, es, i);
    assert AnswersTo([], i) == [] && RidsOf([]) == [] by { Nothing(i); }
  }

  lemma Nothing(i: nat)
    ensures AnswersTo([], i) == [] && RidsOf([]) == []
  {
  }

  /** Everything sent for a query carries the identifier of its request. */
  predicate Named(s: System) {
    forall j :: 0 <= j < |s.log| ==>
      && s.log[j].query < |s.queries|
      && match s.log[j]
         case Answer(i, m) => m.Response? && m.requestId == s.queries[i].rid
         case Final(i, rid) => rid == s.queries[i].rid
  }

  lemma StepStaysNamed(s: System, e: Event)
    requires Named(s) && Enabled(s, e)
    ensures Named(After(s, e))
  {
    match e
    case Arrive(rid, matched) =>
    case Deliver(k, m) => RidStays(s.queries[k], m);
    case Reply(k, q, m) =>
    case SendFinal(k) =>
  }

  lemma {:induction false} RunsStayNamed(s: System, es: seq<Event>)
    requires Named(s) && PossibleRun(s, es)
    ensures Named(Outcome(s, es))
    decreases |es|
  {
    hide Named, After, Enabled;
    if |es| > 0 {
      StepStaysNamed(s, es[0]);
      RunsStayNamed(After(s, es[0]), es[1..]);
    }
  }

  /** Whatever is sent for the i-th request, answers and final, carries its identifier. */
  lemma SentUnderItsRequest(es: seq<Event>, j: nat)
    requires PossibleRun(Start, es) && j < |Outcome(Start, es).log|
    ensures var o := Outcome(Start, es).log[j];
            && o.query < |RequestIds(es)|
            && match MessageOf(o)
               case Response(rid, _, _, _) => rid == RequestIds(es)[o.query]
               case ResponseFinal(rid, _) => rid == RequestIds(es)[o.query]
               case _ => false
  {
    hide Outcome, RequestIds, AnswersTo;
    RunsStayNamed(Start, es);
    RepliesAreAnswers(es, 0);
  }
}
