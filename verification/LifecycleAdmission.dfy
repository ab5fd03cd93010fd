/**
 Which calls a session admits (internal/session/run.go:120-186, session.go:217-228): what
 an undisturbed call does from every state, in either mode, and that reconnecting can be
 repeated for ever.
 */
module LifecycleAdmission {
  import opened Lifecycle

  /** The states from which a call succeeds. */
  predicate Admits(multi: bool, from: State, op: Op) {
    match op
    case BeginHandshake => if multi then from != Closed else from in {Init, Reconnecting, Handshaking}
    case Run => if multi then from != Closed else from == Handshaking
    case EnterReconnecting => from == Active
    case Close => true
  }

  /** The state that an admitted call leaves. */
  function Leads(multi: bool, from: State, op: Op): State {
    match op
    case BeginHandshake => if multi then from else Handshaking
    case Run => Active
    case EnterReconnecting => Reconnecting
    case Close => Closed
  }

  /** One call of a thread, and nothing else. */
  predicate IsCall(t: Thread, op: Op, es: seq<Event>) {
    |es| > 0 && es[0] == Call(t, op) && forall j :: 0 < j < |es| ==> es[j] == Step(t)
  }

  lemma NoEvents(s: System)
    ensures PossibleRun(s, []) && Outcome(s, []) == s
  {
  }

  lemma OneMore(s: System, e: Event, es: seq<Event>)
    requires Enabled(s, e) && PossibleRun(After(s, e), es)
    ensures PossibleRun(s, [e] + es) && Outcome(s, [e] + es) == Outcome(After(s, e), es)
  {
    hide After, Enabled;
    assert ([e] + es)[0] == e && ([e] + es)[1..] == es;
  }

  /** `es` takes the call to its end, one step after another. */
  predicate Runs(s: System, es: seq<Event>, s': System) {
    PossibleRun(s, es) && Outcome(s, es) == s'
  }

  lemma StepFirst(s: System, t: Thread, es: seq<Event>, s': System)
    requires Enabled(s, Step(t)) && Runs(Stepped(s, t), es, s')
    ensures Runs(s, [Step(t)] + es, s')
  {
    hide Enabled, Stepped;
    OneMore(s, Step(t), es);
  }

  lemma StepLast(s: System, t: Thread)
    requires Enabled(s, Step(t))
    ensures Runs(s, [Step(t)], Stepped(s, t))
  {
    hide Enabled, Stepped;
    NoEvents(Stepped(s, t));
    OneMore(s, Step(t), []);
    assert [Step(t)] + [] == [Step(t)];
  }

  function StepsLeft(pc: Pc): nat {
    match pc case BeginLoad => 2 case BeginSwap(_) => 1 case RunLoad => 1 case CloseLoad => 1 case _ => 0
  }

  /** What is left of the call after its first step. */
  lemma Steps(s: System, t: Thread) returns (es: seq<Event>, s': System)
    requires Enabled(s, Step(t))
    requires At(s, t).CloseWait? ==> s.state == Closed
    requires At(s, t).BeginSwap? ==> At(s, t).seen == s.state != Dialing
    requires At(s, t).RunSwap? ==> At(s, t).cur == s.state
    requires At(s, t).CloseSwap? ==> At(s, t).seen == s.state
    ensures Runs(s, es, s') && At(s', t).Finished? && forall j :: 0 <= j < |es| ==> es[j] == Step(t)
    ensures s'.threads == s.threads[t := At(s', t)] && s'.multi == s.multi
    ensures s' == match At(s, t)
                  case BeginLoad =>
                    if s.multi || s.state !in {Init, Reconnecting} then Stepped(s, t)
                    else Stepped(Stepped(Stepped(s, t), t), t)
                  case BeginSwap(_) => Stepped(Stepped(s, t), t)
                  case RunLoad => if s.state in {Closed, Active} then Stepped(s, t) else Stepped(Stepped(s, t), t)
                  case CloseLoad => if s.state == Closed then Stepped(s, t) else Stepped(Stepped(s, t), t)
                  case _ => Stepped(s, t)
    decreases StepsLeft(At(s, t))
  {
    if At(Stepped(s, t), t).Finished? {
      StepLast(s, t);
      es, s' := [Step(t)], Stepped(s, t);
    } else {
      es, s' := Steps(Stepped(s, t), t);
      StepFirst(s, t, es, s');
      es := [Step(t)] + es;
    }
  }

  /** The end of each call. */
  predicate Ended(s: System, t: Thread, op: Op, s': System) {
    && At(s', t) == Finished(op, Admits(s.multi, s.state, op))
    && s'.state == (if Admits(s.multi, s.state, op) then Leads(s.multi, s.state, op) else s.state)
    && s'.reconnects == s.reconnects + if op.EnterReconnecting? && s.state == Active then 1 else 0
  }

  lemma HandshakeAlone(s: System, t: Thread)
    requires At(s, t) == BeginLoad
    ensures Ended(s, t, BeginHandshake, if s.multi || s.state !in {Init, Reconnecting} then Stepped(s, t)
                                        else Stepped(Stepped(Stepped(s, t), t), t))
  {
  }

  lemma RunAlone(s: System, t: Thread)
    requires At(s, t) == if s.multi then RunLoad else RunSwapOnce
    ensures Ended(s, t, Run, if !s.multi || s.state in {Closed, Active} then Stepped(s, t)
                             else Stepped(Stepped(s, t), t))
  {
  }

  lemma EnterAlone(s: System, t: Thread)
    requires At(s, t) == EnterSwap
    ensures Ended(s, t, EnterReconnecting, Stepped(s, t))
  {
  }

  lemma CloseAlone(s: System, t: Thread)
    requires At(s, t) == CloseLoad || (At(s, t) == CloseWait && s.state == Closed)
    ensures Ended(s, t, Close, if s.state == Closed then Stepped(s, t) else Stepped(Stepped(s, t), t))
  {
  }

  /** A thread that calls on its own, whatever other threads are in the middle of: the
      call returns, succeeds exactly from the states that admit it, and leads to the state
      it should; a refused call changes nothing. */
  lemma Alone(s: System, t: Thread, op: Op) returns (es: seq<Event>, s': System)
    requires Enabled(s, Call(t, op)) && (op.Close? && s.closing ==> s.state == Closed)
    ensures IsCall(t, op, es) && Runs(s, es, s')
    ensures At(s', t) == Finished(op, Admits(s.multi, s.state, op))
    ensures s'.state == if Admits(s.multi, s.state, op) then Leads(s.multi, s.state, op) else s.state
    ensures s'.multi == s.multi && forall u :: u != t ==> At(s', u) == At(s, u)
    ensures s'.reconnects == s.reconnects + if op.EnterReconnecting? && s.state == Active then 1 else 0
  {
    hide PossibleRun, Outcome, Stepped;
    var called := Called(s, t, op);
    es, s' := Steps(called, t);
    match op {
      case BeginHandshake => HandshakeAlone(called, t);
      case Run => RunAlone(called, t);
      case EnterReconnecting => EnterAlone(called, t);
      case Close => CloseAlone(called, t);
    }
    OneMore(s, Call(t, op), es);
    es := [Call(t, op)] + es;
  }

  lemma {:induction false} RunsOn(s: System, a: seq<Event>, m: System, b: seq<Event>, s': System)
    requires Runs(s, a, m) && Runs(m, b, s')
    ensures Runs(s, a + b, s')
    decreases |a|
  {
    hide After, Enabled;
    if |a| == 0 {
      assert a + b == b;
    } else {
      assert (a + b)[0] == a[0] && (a + b)[1..] == a[1..] + b;
      RunsOn(After(s, a[0]), a[1..], m, b, s');
    }
  }

  /** A lost link costs no session: handshake, runtime and reconnect can follow one
      another any number of times, each admitted. */
  lemma {:induction false} ReconnectsForEver(s: System, t: Thread, n: nat) returns (es: seq<Event>, s': System)
    requires !s.multi && s.state in {Init, Reconnecting} && (At(s, t).Idle? || At(s, t).Finished?)
    ensures Runs(s, es, s') && !s'.multi && s'.state in {Init, Reconnecting}
    ensures At(s', t).Idle? || At(s', t).Finished?
    ensures s'.reconnects == s.reconnects + n
    decreases n
  {
    hide Runs;
    if n == 0 {
      NoRunAtAll(s);
      es, s' := [], s;
    } else {
      var a, s1 := Alone(s, t, BeginHandshake);
      var b, s2 := Alone(s1, t, Run);
      var c, s3 := Alone(s2, t, EnterReconnecting);
      var d: seq<Event>;
      d, s' := ReconnectsForEver(s3, t, n - 1);
      RunsOn(s, a, s1, b, s2);
      RunsOn(s, a + b, s2, c, s3);
      RunsOn(s, a + b + c, s3, d, s');
      es := a + b + c + d;
    }
  }

  lemma NoRunAtAll(s: System)
    ensures Runs(s, [], s)
  {
  }
}
