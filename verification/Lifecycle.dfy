/**
 The lifecycle of a session under concurrent callers (internal/session/state.go,
 run.go:120-186, session.go:217-228). The shared cell is only ever read and compared
 and swapped; every thread runs its own copy of the loops, and any interleaving of the
 single reads and swaps is considered.
 */
module Lifecycle {

  datatype State = Init | Dialing | Handshaking | Active | Reconnecting | Closed

  datatype Op = BeginHandshake | Run | EnterReconnecting | Close

  /** Where a thread stands: between two accesses to the cell it remembers what it
      read. `Finished` carries whether the call succeeded. */
  datatype Pc =
    | Idle
    | BeginLoad
    | BeginSwap(seen: State)
    | BeginSwapAgain
    | RunLoad
    | RunSwap(cur: State)
    | RunSwapOnce
    | EnterSwap
    | CloseLoad
    | CloseSwap(seen: State)
    | CloseWait
    | Finished(op: Op, ok: bool)

  type Thread = nat

  /** The cell, the threads, and how often each transition was made; `last` is the
      state the session had before it was closed. */
  datatype System = System(multi: bool, state: State, last: State, threads: map<Thread, Pc>, closing: bool,
                           dials: nat, handshakes: nat, runs: nat, reconnects: nat)

  function Start(multi: bool): System {
    System(multi, Init, Init, map[], false, 0, 0, 0, 0)
  }

  function At(s: System, t: Thread): Pc {
    if t in s.threads then s.threads[t] else Idle
  }

  function Goes(s: System, t: Thread, pc: Pc): System {
    s.(threads := s.threads[t := pc])
  }

  /** A successful swap. */
  function Moves(s: System, to: State): System {
    s.(state := to, last := if to == Closed then s.last else to)
  }

  datatype Event = Call(thread: Thread, op: Op) | Step(thread: Thread)

  predicate Enabled(s: System, e: Event) {
    match e
    case Call(t, _) => At(s, t).Idle? || At(s, t).Finished?
    case Step(t) => !At(s, t).Idle? && !At(s, t).Finished?
  }

  /** The shutdown loop runs at most once; a later Close waits for it. */
  function Called(s: System, t: Thread, op: Op): System {
    match op
    case BeginHandshake => Goes(s, t, BeginLoad)
    case Run => Goes(s, t, if s.multi then RunLoad else RunSwapOnce)
    case EnterReconnecting => Goes(s, t, EnterSwap)
    case Close => if s.closing then Goes(s, t, CloseWait) else Goes(s, t, CloseLoad).(closing := true)
  }

  /** One access to the cell: what it changes, and where the thread goes. */
  function Turn(s: System, pc: Pc): (System, Pc) {
    match pc
    case BeginLoad =>
      if s.multi || s.state == Handshaking then (s, Finished(BeginHandshake, s.state != Closed))
      else if s.state == Init || s.state == Reconnecting then (s, BeginSwap(s.state))
      else (s, Finished(BeginHandshake, false))
    case BeginSwap(seen) =>
      if s.state == seen then (Moves(s, Dialing).(dials := s.dials + 1), BeginSwapAgain) else (s, BeginLoad)
    case BeginSwapAgain =>
      if s.state == Dialing then
        (Moves(s, Handshaking).(handshakes := s.handshakes + 1), Finished(BeginHandshake, true))
      else (s, Finished(BeginHandshake, false))
    case RunLoad =>
      if s.state == Closed then (s, Finished(Run, false))
      else if s.state == Active then (s.(runs := s.runs + 1), Finished(Run, true))
      else (s, RunSwap(s.state))
    case RunSwap(cur) =>
      if s.state == cur then (Moves(s, Active).(runs := s.runs + 1), Finished(Run, true)) else (s, RunLoad)
    case RunSwapOnce =>
      if s.state == Handshaking then (Moves(s, Active).(runs := s.runs + 1), Finished(Run, true))
      else (s, Finished(Run, false))
    case EnterSwap =>
      if s.state == Active then
        (Moves(s, Reconnecting).(reconnects := s.reconnects + 1), Finished(EnterReconnecting, true))
      else (s, Finished(EnterReconnecting, false))
    case CloseLoad =>
      if s.state == Closed then (s, Finished(Close, true)) else (s, CloseSwap(s.state))
    case CloseSwap(seen) =>
      if s.state == seen then (Moves(s, Closed), Finished(Close, true)) else (s, CloseLoad)
    case CloseWait => (s, if s.state == Closed then Finished(Close, true) else CloseWait)
    case Idle => (s, pc)
    case Finished(_, _) => (s, pc)
  }

  function Stepped(s: System, t: Thread): System {
    var (s', pc) := Turn(s, At(s, t));
    Goes(s', t, pc)
  }

  function After(s: System, e: Event): System {
    match e
    case Call(t, op) => Called(s, t, op)
    case Step(t) => Stepped(s, t)
  }

  predicate PossibleRun(s: System, es: seq<Event>)
    decreases |es|
  {
    |es| == 0 || (Enabled(s, es[0]) && PossibleRun(After(s, es[0]), es[1..]))
  }

  function Outcome(s: System, es: seq<Event>): System
    decreases |es|
  {
    if |es| == 0 then s else Outcome(After(s, es[0]), es[1..])
  }

  // ----- what every reachable state keeps -----

  function One(b: bool): nat {
    if b then 1 else 0
  }

  /** What a thread remembers is not Closed, the single-runtime swaps are only attempted
      in single-runtime mode, and no Close has returned early. */
  predicate ThreadIsSound(s: System, t: Thread) {
    match At(s, t)
    case BeginSwap(seen) => !s.multi && (seen == Init || seen == Reconnecting)
    case BeginSwapAgain => !s.multi && (s.state == Dialing || s.state == Closed)
    case RunLoad => s.multi
    case RunSwap(cur) => s.multi && cur != Closed
    case RunSwapOnce => !s.multi
    case CloseSwap(seen) => seen != Closed && s.closing
    case CloseLoad => s.closing
    case CloseWait => s.closing
    case Finished(Close, _) => s.state == Closed
    case _ => true
  }

  /** `last` is the state itself until the session is closed; in single-runtime mode the
      transitions alternate: each count is one ahead of the next exactly in the state
      between the two. */
  predicate Counted(s: System) {
    && (if s.state == Closed then s.last != Closed && s.closing else s.last == s.state)
    && (!s.multi ==>
          && s.dials == s.handshakes + One(s.last == Dialing)
          && s.handshakes == s.runs + One(s.last == Handshaking)
          && s.runs == s.reconnects + One(s.last == Active))
  }

  predicate Dials(s: System, t: Thread) {
    At(s, t) == BeginSwapAgain
  }

  /** While dialling, exactly one thread holds the dial; otherwise only one whose dial was
      cut off by Close. */
  ghost predicate OneDialler(s: System) {
    && (forall t, u :: Dials(s, t) && Dials(s, u) ==> t == u)
    && (!s.multi && s.state == Dialing ==> exists t :: Dials(s, t))
  }

  ghost predicate Sound(s: System) {
    Counted(s) && OneDialler(s) && forall t: Thread :: ThreadIsSound(s, t)
  }

  lemma CallStays(s: System, t: Thread, op: Op)
    requires Counted(s)
    ensures Counted(Called(s, t, op)) && ThreadIsSound(Called(s, t, op), t)
    ensures Called(s, t, op).multi == s.multi && (s.closing ==> Called(s, t, op).closing)
  {
  }

  lemma CountsStep(s: System, t: Thread)
    requires Counted(s) && ThreadIsSound(s, t)
    ensures Counted(Stepped(s, t))
  {
  }

  lemma ThreadStep(s: System, t: Thread)
    requires ThreadIsSound(s, t)
    ensures ThreadIsSound(Stepped(s, t), t)
  {
  }

  lemma TurnKeeps(s: System, pc: Pc)
    ensures var s' := Turn(s, pc).0;
            s'.threads == s.threads && s'.multi == s.multi && s'.closing == s.closing
  {
  }

  lemma StepKeepsFlags(s: System, t: Thread)
    ensures Stepped(s, t).multi == s.multi && Stepped(s, t).closing == s.closing
  {
    hide At, Turn;
    TurnKeeps(s, At(s, t));
  }

  lemma CountsStay(s: System, e: Event)
    requires Counted(s) && ThreadIsSound(s, e.thread) && Enabled(s, e)
    ensures Counted(After(s, e)) && After(s, e).multi == s.multi
    ensures ThreadIsSound(After(s, e), e.thread)
    ensures s.closing ==> After(s, e).closing
  {
    hide Counted, ThreadIsSound, Called, Stepped;
    match e
    case Call(t, op) => CallStays(s, t, op);
    case Step(t) =>
      CountsStep(s, t);
      ThreadStep(s, t);
      StepKeepsFlags(s, t);
  }

  lemma OtherThreads(s: System, e: Event, t: Thread)
    requires t != e.thread
    ensures At(After(s, e), t) == At(s, t)
  {
    hide Turn;
    TurnKeeps(s, At(s, e.thread));
  }

  /** What a step of one thread means to another. */
  lemma OthersStay(s: System, e: Event, t: Thread)
    requires Counted(s) && ThreadIsSound(s, e.thread) && ThreadIsSound(s, t) && Enabled(s, e) && t != e.thread
    requires !(Dials(s, t) && Dials(s, e.thread))
    ensures At(After(s, e), t) == At(s, t)
    ensures ThreadIsSound(After(s, e), t)
    ensures Dials(s, t) ==> !Dials(After(s, e), e.thread)
  {
  }

  lemma StepStaysSound(s: System, e: Event)
    requires Sound(s) && Enabled(s, e)
    ensures Sound(After(s, e)) && After(s, e).multi == s.multi
  {
    hide Counted, ThreadIsSound, Enabled, After, At;
    var s' := After(s, e);
    CountsStay(s, e);
    forall t: Thread
      ensures ThreadIsSound(s', t)
      ensures t != e.thread ==> Dials(s', t) == Dials(s, t) && (Dials(s, t) ==> !Dials(s', e.thread))
    {
      if t != e.thread {
        OthersStay(s, e, t);
      }
    }
    if !s.multi && s'.state == Dialing {
      DialsOn(s, e);
    }
  }

  lemma DialsOn(s: System, e: Event)
    requires Enabled(s, e) && After(s, e).state == Dialing && !s.multi
    ensures Dials(After(s, e), e.thread) || (s.state == Dialing && !Dials(s, e.thread))
  {
  }

  lemma {:induction false} RunsAreSound(s: System, es: seq<Event>)
    requires Sound(s) && PossibleRun(s, es)
    ensures Sound(Outcome(s, es)) && Outcome(s, es).multi == s.multi
    decreases |es|
  {
    hide Sound, After, Enabled;
    if |es| > 0 {
      StepStaysSound(s, es[0]);
      RunsAreSound(After(s, es[0]), es[1..]);
    }
  }

  lemma StartIsSound(multi: bool)
    ensures Sound(Start(multi))
  {
  }

  // ----- the theorems -----

  /** Closed is never left, in either mode, whatever the threads do. */
  lemma {:induction false} ClosedForGood(s: System, es: seq<Event>)
    requires Sound(s) && PossibleRun(s, es) && s.state == Closed
    ensures Outcome(s, es).state == Closed && Outcome(s, es).last == s.last && Outcome(s, es).runs == s.runs
    decreases |es|
  {
    hide Sound, After, Enabled;
    if |es| > 0 {
      ClosedStep(s, es[0]);
      StepStaysSound(s, es[0]);
      ClosedForGood(After(s, es[0]), es[1..]);
    }
  }

  lemma ClosedStep(s: System, e: Event)
    requires Sound(s) && Enabled(s, e) && s.state == Closed
    ensures After(s, e).state == Closed && After(s, e).last == s.last && After(s, e).runs == s.runs
  {
    hide OneDialler;
    assert ThreadIsSound(s, e.thread);
  }

  /** In single-runtime mode there is at most one runtime: successful Runs exceed
      successful EnterReconnectings by one exactly while the session is Active, or was
      Active when it was closed, and otherwise by none. */
  lemma OneRuntime(es: seq<Event>)
    requires PossibleRun(Start(false), es)
    ensures var s := Outcome(Start(false), es);
            && s.runs == s.reconnects + One(s.last == Active)
            && (s.state != Closed ==> s.last == s.state)
  {
    hide PossibleRun, Outcome, ThreadIsSound, OneDialler;
    StartIsSound(false);
    RunsAreSound(Start(false), es);
  }

  /** Each runtime had a handshake of its own, and each handshake a dial. */
  lemma HandshakesAreNotShared(es: seq<Event>)
    requires PossibleRun(Start(false), es)
    ensures var s := Outcome(Start(false), es);
            s.reconnects <= s.runs <= s.handshakes <= s.dials <= s.reconnects + 1
  {
    hide PossibleRun, Outcome, ThreadIsSound, OneDialler;
    StartIsSound(false);
    RunsAreSound(Start(false), es);
  }

  /** Between its two swaps a BeginHandshake is alone: nobody but Close can make the
      second one fail. */
  lemma OnlyCloseInterrupts(es: seq<Event>, t: Thread)
    requires PossibleRun(Start(false), es) && At(Outcome(Start(false), es), t) == BeginSwapAgain
    ensures var s := Outcome(Start(false), es);
            && (At(After(s, Step(t)), t) == Finished(BeginHandshake, false) <==> s.state == Closed)
            && (At(After(s, Step(t)), t) == Finished(BeginHandshake, true) <==> s.state == Dialing)
            && forall u :: Dials(s, u) ==> u == t
  {
    hide PossibleRun, Outcome, Counted;
    StartIsSound(false);
    RunsAreSound(Start(false), es);
    assert ThreadIsSound(Outcome(Start(false), es), t);
    assert Dials(Outcome(Start(false), es), t);
  }

  predicate Closes(s: System, t: Thread) {
    At(s, t).CloseLoad? || At(s, t).CloseSwap?
  }

  /** Once the shutdown loop has finished, the session is closed. */
  ghost predicate CloserIsDone(s: System) {
    s.closing ==> s.state == Closed || exists t :: Closes(s, t)
  }

  lemma {:induction false} CloseCloses(s: System, es: seq<Event>)
    requires Sound(s) && CloserIsDone(s) && PossibleRun(s, es)
    ensures CloserIsDone(Outcome(s, es))
    decreases |es|
  {
    hide Sound, CloserIsDone, After, Enabled;
    if |es| > 0 {
      CloserStep(s, es[0]);
      StepStaysSound(s, es[0]);
      CloseCloses(After(s, es[0]), es[1..]);
    }
  }

  /** A closing thread goes on closing until the session is closed. */
  lemma ClosesOn(s: System, e: Event, t: Thread)
    requires Enabled(s, e) && Closes(s, t)
    ensures Closes(After(s, e), t) || After(s, e).state == Closed
  {
    if t != e.thread {
      hide Called, Stepped;
      OtherThreads(s, e, t);
    }
  }

  lemma CallsClose(s: System, e: Event)
    requires Enabled(s, e) && !s.closing && After(s, e).closing
    ensures Closes(After(s, e), e.thread)
  {
    hide Stepped;
    if e.Step? {
      StepKeepsFlags(s, e.thread);
    }
  }

  lemma CloserStep(s: System, e: Event)
    requires Sound(s) && CloserIsDone(s) && Enabled(s, e)
    ensures CloserIsDone(After(s, e))
  {
    hide Sound, After, Enabled, Closes;
    if s.state == Closed {
      ClosedStep(s, e);
    } else if t :| s.closing && Closes(s, t) {
      ClosesOn(s, e, t);
    } else if After(s, e).closing {
      CallsClose(s, e);
    }
  }

  /** A Close that has returned, the first or a later one, has left the session closed. */
  lemma CloseReturnsClosed(multi: bool, es: seq<Event>, t: Thread)
    requires PossibleRun(Start(multi), es) && At(Outcome(Start(multi), es), t) == Finished(Close, true)
    ensures Outcome(Start(multi), es).state == Closed
  {
    hide PossibleRun, Outcome, OneDialler, Counted;
    StartIsSound(multi);
    RunsAreSound(Start(multi), es);
    assert ThreadIsSound(Outcome(Start(multi), es), t);
  }

  // ----- the shared object -----

  /** The cell and the calls in progress. A call runs one access at a time; between two
      of them any other call may run. The ghost fields count what happened. */
  class SharedSession {
    const multi: bool
    var state: State
    var closing: bool
    var threads: map<Thread, Pc>
    ghost var last: State
    ghost var dials: nat
    ghost var handshakes: nat
    ghost var runs: nat
    ghost var reconnects: nat

    constructor (multi: bool)
      ensures View() == Start(multi)
    {
      this.multi := multi;
      state, closing, threads := Init, false, map[];
      last, dials, handshakes, runs, reconnects := Init, 0, 0, 0, 0;
    }

    ghost function View(): System
      reads this
    {
      System(multi, state, last, threads, closing, dials, handshakes, runs, reconnects)
    }

    method CompareAndSwap(seen: State, to: State) returns (ok: bool)
      modifies this`state, this`last
      ensures ok == (old(state) == seen)
      ensures View() == if ok then Moves(old(View()), to) else old(View())
    {
      ok := state == seen;
      if ok {
        state := to;
        last := if to == Closed then last else to;
      }
    }

    method Call(t: Thread, op: Op)
      requires Enabled(View(), Event.Call(t, op))
      modifies this`threads, this`closing
      ensures View() == Called(old(View()), t, op)
    {
      match op
      case BeginHandshake => threads := threads[t := BeginLoad];
      case Run => threads := threads[t := if multi then RunLoad else RunSwapOnce];
      case EnterReconnecting => threads := threads[t := EnterSwap];
      case Close =>
        threads := threads[t := if closing then CloseWait else CloseLoad];
        closing := true;
    }

    /** The next access of a call: one load or one swap, and what follows from it. */
    method Advance(t: Thread)
      requires t in threads && Enabled(View(), Step(t))
      modifies this
      ensures View() == Stepped(old(View()), t)
    {
      hide Enabled;
      var pc := threads[t];
      match pc {
        case BeginLoad => pc := AfterBeginLoad(state);
        case BeginSwap(seen) =>
          var ok := CompareAndSwap(seen, Dialing);
          if ok { dials := dials + 1; }
          pc := if ok then BeginSwapAgain else BeginLoad;
        case BeginSwapAgain =>
          var ok := CompareAndSwap(Dialing, Handshaking);
          if ok { handshakes := handshakes + 1; }
          pc := Finished(BeginHandshake, ok);
        case RunLoad =>
          if state == Active { runs := runs + 1; }
          pc := if state == Closed || state == Active then Finished(Run, state == Active) else RunSwap(state);
        case RunSwap(cur) =>
          var ok := CompareAndSwap(cur, Active);
          if ok { runs := runs + 1; }
          pc := if ok then Finished(Run, true) else RunLoad;
        case RunSwapOnce =>
          var ok := CompareAndSwap(Handshaking, Active);
          if ok { runs := runs + 1; }
          pc := Finished(Run, ok);
        case EnterSwap =>
          var ok := CompareAndSwap(Active, Reconnecting);
          if ok { reconnects := reconnects + 1; }
          pc := Finished(EnterReconnecting, ok);
        case CloseLoad => pc := if state == Closed then Finished(Close, true) else CloseSwap(state);
        case CloseSwap(seen) =>
          var ok := CompareAndSwap(seen, Closed);
          pc := if ok then Finished(Close, true) else CloseLoad;
        case CloseWait => pc := if state == Closed then Finished(Close, true) else CloseWait;
        case _ =>
      }
      threads := threads[t := pc];
    }

    function AfterBeginLoad(seen: State): Pc {
      if multi then Finished(BeginHandshake, seen != Closed)
      else
        match seen
        case Handshaking => Finished(BeginHandshake, true)
        case Init => BeginSwap(Init)
        case Reconnecting => BeginSwap(Reconnecting)
        case _ => Finished(BeginHandshake, false)
    }
  }
}
