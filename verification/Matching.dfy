/**
 The matching registry (internal/session/matching.go): which remote declarations
 intersect a local INTEREST, and what the listeners attached to it are told.
 */
module Matching {
  import opened Wrappers
  import opened Buffer
  import opened KeyText
  import opened KeyIntersect

  datatype Kind = Subscribers | Queryables

  /** One remote declaration: ids are unique per peer only. */
  datatype DeclKey = DeclKey(peer: bytes, entityId: uint32)

  /** What a listener was told, and after which snapshot. */
  datatype Notice = Notice(epoch: nat, matching: bool)

  type ListenerId = uint32

  /** Tracking state of one INTEREST; `epoch` counts its completed snapshots, and each
      listener is represented by everything it has been told. */
  datatype Entry = Entry(keyExpr: string, kind: Kind, initialDone: bool, declarations: set<DeclKey>, matchCount: nat,
                         nextListenerId: ListenerId, listeners: map<ListenerId, seq<Notice>>, epoch: nat)

  type Entries = map<uint32, Entry>

  datatype Event =
    | Register(interest: uint32, keyExpr: string, kind: Kind)
    | Unregister(interest: uint32)
    | Attach(interest: uint32)
    | Detach(interest: uint32, listener: ListenerId)
    | Declare(kind: Kind, key: DeclKey, keyExpr: string)
    | Undeclare(kind: Kind, key: DeclKey)
    | SnapshotDone(interest: uint32)
    | Reset

  // ----- one step -----

  function NewEntry(ke: string, kind: Kind): Entry {
    Entry(ke, kind, false, {}, 0, 0, map[], 0)
  }

  /** Every listener is told the current status. */
  function Told(e: Entry): Entry {
    e.(listeners := map l | l in e.listeners :: e.listeners[l] + [Notice(e.epoch, e.matchCount > 0)])
  }

  function Attached(e: Entry): Entry {
    var id := (e.nextListenerId + 1) % U32;
    var first := if e.initialDone then [Notice(e.epoch, e.matchCount > 0)] else [];
    e.(nextListenerId := id, listeners := e.listeners[id := first])
  }

  /** The declaration set changes; listeners hear of it only when the set becomes empty
      or stops being empty, and only after the snapshot. */
  function Counted(e: Entry, declarations: set<DeclKey>): Entry {
    var e' := e.(declarations := declarations, matchCount := |declarations|);
    if e.initialDone && (e.matchCount > 0) != (|declarations| > 0) then Told(e') else e'
  }

  ghost function Declared(e: Entry, kind: Kind, key: DeclKey, ke: string): Entry {
    if e.kind != kind || !ShareAKey(e.keyExpr, ke) || key in e.declarations then e
    else Counted(e, e.declarations + {key})
  }

  function Undeclared(e: Entry, kind: Kind, key: DeclKey): Entry {
    if e.kind != kind || key !in e.declarations then e else Counted(e, e.declarations - {key})
  }

  function Snapshot(e: Entry): Entry {
    if e.initialDone then e else Told(e.(initialDone := true, epoch := e.epoch + 1))
  }

  function Cleared(e: Entry): Entry {
    e.(matchCount := 0, initialDone := false, declarations := {})
  }

  ghost function Step(s: Entries, event: Event): Entries {
    match event
    case Register(i, ke, kind) => s[i := NewEntry(ke, kind)]
    case Unregister(i) => s - {i}
    case Attach(i) => if i in s then s[i := Attached(s[i])] else s
    case Detach(i, l) => if i in s then s[i := s[i].(listeners := s[i].listeners - {l})] else s
    case Declare(kind, key, ke) => map i | i in s :: Declared(s[i], kind, key, ke)
    case Undeclare(kind, key) => map i | i in s :: Undeclared(s[i], kind, key)
    case SnapshotDone(i) => if i in s then s[i := Snapshot(s[i])] else s
    case Reset => map i | i in s :: Cleared(s[i])
  }

  ghost function After(h: seq<Event>): Entries {
    if |h| == 0 then map[] else Step(After(h[..|h| - 1]), h[|h| - 1])
  }

  // ----- the declaration set -----

  /** The j-th event declares `key` for the interest `i` in `ke`, and nothing since
      then takes it back. */
  ghost predicate Alive(h: seq<Event>, i: uint32, kind: Kind, ke: string, key: DeclKey, j: nat) {
    && j < |h| && h[j].Declare? && h[j].kind == kind && h[j].key == key && ShareAKey(ke, h[j].keyExpr)
    && forall m :: j < m < |h| ==> !Ends(h[m], i, kind, key)
  }

  /** In every reachable state the set of an entry holds exactly the (peer, id) pairs
      with an intersecting declaration since registration or reset and no later
      undeclaration of the same kind. */
  lemma {:induction false} DeclarationsAreAlive(h: seq<Event>, i: uint32, key: DeclKey)
    requires i in After(h)
    ensures var e := After(h)[i];
            key in e.declarations <==> exists j :: Alive(h, i, e.kind, e.keyExpr, key, j)
  {
    hide ShareAKey;
    var n := |h| - 1;
    var before, event := h[..n], h[n];
    var e := After(h)[i];
    if Ends(event, i, e.kind, key) {
      forall j: nat
        ensures !Alive(h, i, e.kind, e.keyExpr, key, j)
      {
        assert j < n ==> Ends(h[n], i, e.kind, key);
      }
    } else {
      var was := After(before)[i];
      DeclarationsAreAlive(before, i, key);
      assert was.kind == e.kind && was.keyExpr == e.keyExpr;
      AliveLater(h, i, e.kind, e.keyExpr, key);
      if key in was.declarations {
        var j :| Alive(before, i, e.kind, e.keyExpr, key, j);
        assert Alive(h, i, e.kind, e.keyExpr, key, j);
      } else if key in e.declarations {
        assert Alive(h, i, e.kind, e.keyExpr, key, n);
      }
    }
  }

  /** The event takes every earlier declaration of `key` back. */
  predicate Ends(event: Event, i: uint32, kind: Kind, key: DeclKey) {
    event == Undeclare(kind, key) || event == Reset || (event.Register? && event.interest == i)
  }

  /** A declaration that was alive stays so unless the last event ends it. */
  lemma AliveLater(h: seq<Event>, i: uint32, kind: Kind, ke: string, key: DeclKey)
    requires |h| > 0
    ensures forall j | 0 <= j < |h| - 1 ::
              Alive(h, i, kind, ke, key, j) <==>
              Alive(h[..|h| - 1], i, kind, ke, key, j) && !Ends(h[|h| - 1], i, kind, key)
  {
    hide ShareAKey;
    var n := |h| - 1;
    forall j | 0 <= j < n
      ensures Alive(h, i, kind, ke, key, j) <==> Alive(h[..n], i, kind, ke, key, j) && !Ends(h[n], i, kind, key)
    {
      assert forall m :: j < m < n ==> h[..n][m] == h[m];
    }
  }

  // ----- the notices -----

  /** Notices come from snapshots that have happened, never go back to an earlier one,
      and alternate strictly within one. */
  predicate Alternates(heard: seq<Notice>, epoch: nat) {
    && (forall j :: 0 <= j < |heard| ==> 1 <= heard[j].epoch <= epoch)
    && forall j {:trigger heard[j]} :: 0 <= j < |heard| - 1 ==>
         var (a, b) := (heard[j], heard[j + 1]);
         a.epoch < b.epoch || (a.epoch == b.epoch && a.matching != b.matching)
  }

  /** The count is the size of the set; once the snapshot is done, the last thing every
      listener was told is whether the count is positive. */
  predicate Truthful(e: Entry) {
    && e.matchCount == |e.declarations| && (e.initialDone ==> e.epoch > 0)
    && forall l :: l in e.listeners ==>
         && Alternates(e.listeners[l], e.epoch)
         && (e.initialDone ==>
               |e.listeners[l]| > 0 && e.listeners[l][|e.listeners[l]| - 1] == Notice(e.epoch, e.matchCount > 0))
  }

  /** What a listener should know of an entry, and the last thing it was told. */
  function Status(e: Entry): Notice {
    Notice(e.epoch, e.declarations != {})
  }

  function LastHeard(e: Entry, l: ListenerId): Option<Notice> {
    if l !in e.listeners || e.listeners[l] == [] then None else Some(e.listeners[l][|e.listeners[l]| - 1])
  }

  lemma HearsMore(heard: seq<Notice>, epoch: nat, n: Notice)
    requires Alternates(heard, epoch) && 1 <= epoch <= n.epoch
    requires |heard| > 0 && heard[|heard| - 1].epoch == n.epoch ==> heard[|heard| - 1].matching != n.matching
    ensures Alternates(heard + [n], n.epoch)
  {
    var all := heard + [n];
    forall j | 0 <= j < |all| - 1
      ensures || all[j].epoch < all[j + 1].epoch
              || (all[j].epoch == all[j + 1].epoch && all[j].matching != all[j + 1].matching)
    {
      assert all[j] == heard[j];
      assert j < |heard| - 1 ==> all[j + 1] == heard[j + 1];
    }
  }

  lemma CountedStaysTruthful(e: Entry, declarations: set<DeclKey>)
    requires Truthful(e)
    ensures Truthful(Counted(e, declarations))
  {
    var e' := Counted(e, declarations);
    forall l | l in e'.listeners
      ensures Alternates(e'.listeners[l], e'.epoch)
    {
      assert Alternates(e.listeners[l], e.epoch);
      if e.initialDone && (e.matchCount > 0) != (|declarations| > 0) {
        var heard := e.listeners[l];
        assert heard[|heard| - 1].epoch >= 1;
        HearsMore(e.listeners[l], e.epoch, Notice(e.epoch, |declarations| > 0));
      }
    }
  }

  lemma SnapshotStaysTruthful(e: Entry)
    requires Truthful(e)
    ensures Truthful(Snapshot(e))
  {
    var e' := Snapshot(e);
    forall l | l in e'.listeners
      ensures Alternates(e'.listeners[l], e'.epoch)
    {
      assert Alternates(e.listeners[l], e.epoch);
      if !e.initialDone {
        assert Alternates(e.listeners[l], e.epoch + 1);
        NewEpoch(e.listeners[l], e.epoch, Notice(e.epoch + 1, e.matchCount > 0));
      }
    }
  }

  lemma NewEpoch(heard: seq<Notice>, epoch: nat, n: Notice)
    requires Alternates(heard, epoch) && n.epoch == epoch + 1
    ensures Alternates(heard + [n], epoch + 1)
  {
    assert Alternates(heard, epoch + 1);
    HearsMore(heard, epoch + 1, n);
  }

  lemma AttachedStaysTruthful(e: Entry)
    requires Truthful(e)
    ensures Truthful(Attached(e))
  {
  }

  lemma StepStaysTruthful(s: Entries, event: Event)
    requires forall i :: i in s ==> Truthful(s[i])
    ensures forall i :: i in Step(s, event) ==> Truthful(Step(s, event)[i])
  {
    hide ShareAKey, Counted, Snapshot, Alternates;
    forall i | i in Step(s, event)
      ensures Truthful(Step(s, event)[i])
    {
      if i in s {
        CountedStaysTruthful(s[i], s[i].declarations + if event.Declare? then {event.key} else {});
        CountedStaysTruthful(s[i], s[i].declarations - if event.Undeclare? then {event.key} else {});
        SnapshotStaysTruthful(s[i]);
        if event.Attach? {
          AttachedStaysTruthful(s[i]);
        }
      }
    }
  }

  /** In every reachable state the count equals the size of the set, every listener's
      last notice after the snapshot is right, and its notices alternate strictly within
      each epoch. */
  lemma {:induction false} RegistryStaysTruthful(h: seq<Event>)
    ensures forall i :: i in After(h) ==> Truthful(After(h)[i])
  {
    hide Step, Truthful;
    if |h| > 0 {
      RegistryStaysTruthful(h[..|h| - 1]);
      StepStaysTruthful(After(h[..|h| - 1]), h[|h| - 1]);
    }
  }

  // ----- the registry object -----

  class Registry {
    var byId: Entries

    constructor ()
      ensures byId == map[]
    {
      byId := map[];
    }

    ghost predicate Valid()
      reads this
    {
      forall i :: i in byId ==> KeyText.Valid(byId[i].keyExpr) && byId[i].matchCount == |byId[i].declarations|
    }

    method RegisterMatching(interest: uint32, ke: string, kind: Kind)
      requires Valid() && KeyText.Valid(ke)
      modifies this
      ensures Valid() && byId == Step(old(byId), Register(interest, ke, kind))
    {
      byId := byId[interest := NewEntry(ke, kind)];
    }

    /** Returns the listeners whose removal hooks have to run. */
    method UnregisterMatching(interest: uint32) returns (removed: set<ListenerId>)
      requires Valid()
      modifies this
      ensures Valid() && byId == Step(old(byId), Unregister(interest))
      ensures removed == if interest in old(byId) then old(byId)[interest].listeners.Keys else {}
    {
      removed := {};
      if interest in byId {
        removed := byId[interest].listeners.Keys;
      }
      byId := byId - {interest};
    }

    method AttachMatchingListener(interest: uint32) returns (id: ListenerId, ok: bool)
      requires Valid()
      modifies this
      ensures Valid() && byId == Step(old(byId), Attach(interest))
      ensures ok == (interest in old(byId))
      ensures ok ==> id in byId[interest].listeners && id == byId[interest].nextListenerId
    {
      if interest !in byId {
        return 0, false;
      }
      var e := byId[interest];
      id := (e.nextListenerId + 1) % U32;
      var heard: seq<Notice> := [];
      if e.initialDone {
        heard := [Notice(e.epoch, e.matchCount > 0)];
      }
      byId := byId[interest := e.(nextListenerId := id, listeners := e.listeners[id := heard])];
      ok := true;
    }

    method DetachMatchingListener(interest: uint32, listener: ListenerId)
      requires Valid()
      modifies this
      ensures Valid() && byId == Step(old(byId), Detach(interest, listener))
    {
      if interest in byId {
        var e := byId[interest];
        byId := byId[interest := e.(listeners := e.listeners - {listener})];
      }
    }

    method GetMatchingStatus(interest: uint32) returns (status: Option<bool>)
      requires Valid()
      ensures status == if interest in byId then Some(byId[interest].declarations != {}) else None
    {
      if interest !in byId {
        return None;
      }
      status := Some(byId[interest].matchCount > 0);
    }

    /** Tells every listener of an entry, one after the other. */
    method TellAll(e: Entry) returns (e': Entry)
      ensures e' == Told(e)
    {
      var todo, listeners := e.listeners.Keys, e.listeners;
      while todo != {}
        invariant todo <= e.listeners.Keys == listeners.Keys
        invariant forall l :: l in e.listeners ==>
                    listeners[l] == if l in todo then e.listeners[l] else Told(e).listeners[l]
        decreases |todo|
      {
        var l :| l in todo;
        listeners := listeners[l := listeners[l] + [Notice(e.epoch, e.matchCount > 0)]];
        todo := todo - {l};
      }
      assert listeners == Told(e).listeners;
      e' := e.(listeners := listeners);
    }

    method ApplyDelta(e: Entry, kind: Kind, key: DeclKey, ke: string, declare: bool) returns (e': Entry)
      requires e.matchCount == |e.declarations| && KeyText.Valid(e.keyExpr) && (declare ==> KeyText.Valid(ke))
      ensures e' == Changed(e, kind, key, ke, declare)
    {
      e' := e;
      if e.kind != kind {
        return;
      }
      if declare {
        var touches := Intersects(e.keyExpr, ke);
        if !touches {
          return;
        }
      }
      var before, declarations := e.matchCount, e.declarations;
      if declare {
        if key in declarations {
          return;
        }
        declarations := declarations + {key};
      } else {
        if key !in declarations {
          return;
        }
        declarations := declarations - {key};
      }
      e' := e.(declarations := declarations, matchCount := |declarations|);
      if !e.initialDone {
        return;
      }
      var transitioned := (before == 0 && e'.matchCount > 0) || (before > 0 && e'.matchCount == 0);
      if transitioned {
        e' := TellAll(e');
      }
    }

    method ApplyMatchingDelta(kind: Kind, key: DeclKey, ke: string, declare: bool)
      requires Valid() && (declare ==> KeyText.Valid(ke))
      modifies this
      ensures Valid() && byId == Step(old(byId), if declare then Declare(kind, key, ke) else Undeclare(kind, key))
    {
      hide Declared, Undeclared, KeyText.Valid, Changed;
      var todo := byId.Keys;
      while todo != {}
        invariant todo <= byId.Keys == old(byId.Keys) && Valid()
        invariant forall i :: i in byId ==>
                    byId[i] == if i in todo then old(byId)[i] else Changed(old(byId)[i], kind, key, ke, declare)
        decreases |todo|
      {
        var i :| i in todo;
        var e := ApplyDelta(byId[i], kind, key, ke, declare);
        ChangedKeepsSize(byId[i], kind, key, ke, declare);
        byId := byId[i := e];
        todo := todo - {i};
      }
      AllChanged(old(byId), byId, kind, key, ke, declare);
    }

    /** From now on the snapshot counts as done. If it was not before, every listener is
        told the status, once; in any case that is the last thing each has heard. */
    method OnSnapshotDone(interest: uint32) returns (known: bool)
      requires Valid()
      modifies this
      ensures Valid() && byId == Step(old(byId), SnapshotDone(interest)) && known == (interest in old(byId))
      ensures known ==> byId[interest].initialDone
      ensures known ==> byId[interest].listeners.Keys == old(byId)[interest].listeners.Keys
      ensures known && !old(byId)[interest].initialDone ==>
                forall l :: l in byId[interest].listeners ==>
                  byId[interest].listeners[l] == old(byId)[interest].listeners[l] + [Status(byId[interest])]
      ensures known && Truthful(old(byId)[interest]) ==>
                forall l :: l in byId[interest].listeners ==>
                  LastHeard(byId[interest], l) == Some(Status(byId[interest]))
    {
      if interest !in byId {
        return false;
      }
      known := true;
      var e := byId[interest];
      if e.initialDone {
        assert byId[interest := e] == byId;
        return;
      }
      e := TellAll(e.(initialDone := true, epoch := e.epoch + 1));
      byId := byId[interest := e];
    }

    method ResetMatching()
      requires Valid()
      modifies this
      ensures Valid() && byId == Step(old(byId), Reset)
    {
      hide KeyText.Valid;
      var todo := byId.Keys;
      while todo != {}
        invariant todo <= byId.Keys == old(byId.Keys) && Valid()
        invariant forall i :: i in byId ==> byId[i] == if i in todo then old(byId)[i] else Cleared(old(byId)[i])
        decreases |todo|
      {
        var i :| i in todo;
        var e := byId[i].(matchCount := 0, initialDone := false, declarations := {});
        byId := byId[i := e];
        todo := todo - {i};
      }
    }
  }

  ghost function Changed(e: Entry, kind: Kind, key: DeclKey, ke: string, declare: bool): Entry {
    if declare then Declared(e, kind, key, ke) else Undeclared(e, kind, key)
  }

  lemma AllChanged(s: Entries, s': Entries, kind: Kind, key: DeclKey, ke: string, declare: bool)
    requires s'.Keys == s.Keys && forall i :: i in s' ==> s'[i] == Changed(s[i], kind, key, ke, declare)
    ensures s' == Step(s, if declare then Declare(kind, key, ke) else Undeclare(kind, key))
  {
    hide Declared, Undeclared;
  }

  lemma ChangedKeepsSize(e: Entry, kind: Kind, key: DeclKey, ke: string, declare: bool)
    requires e.matchCount == |e.declarations|
    ensures var e' := Changed(e, kind, key, ke, declare);
            e'.matchCount == |e'.declarations| && e'.keyExpr == e.keyExpr
  {
  }
}
