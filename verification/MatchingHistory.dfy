/**
 The matching registry seen through its history (internal/session/matching.go): which
 entries there are, when a snapshot counts as done, who listens, and how often a listener
 is told. Together with `Truthful` this says what every listener knows at any time.
 */
module MatchingHistory {
  import opened Wrappers
  import opened Buffer
  import opened Matching

  // ----- entries -----

  /** The event takes the entry `i` away or replaces it. */
  predicate Replaces(event: Event, i: uint32) {
    (event.Register? || event.Unregister?) && event.interest == i
  }

  /** The j-th event has registered `i`, and nothing since has replaced it. */
  predicate RegisteredAt(h: seq<Event>, i: uint32, j: nat) {
    && j < |h| && h[j].Register? && h[j].interest == i
    && forall m :: j < m < |h| ==> !Replaces(h[m], i)
  }

  lemma RegisteredLater(h: seq<Event>, i: uint32)
    requires |h| > 0
    ensures forall j: nat | j < |h| - 1 ::
              RegisteredAt(h, i, j) <==> RegisteredAt(h[..|h| - 1], i, j) && !Replaces(h[|h| - 1], i)
  {
    var n := |h| - 1;
    forall j: nat | j < n
      ensures RegisteredAt(h, i, j) <==> RegisteredAt(h[..n], i, j) && !Replaces(h[n], i)
    {
      assert forall m :: j < m < n ==> h[..n][m] == h[m];
    }
  }

  /** An entry exists if and only if it was registered and not unregistered since; it is
      about the key expression and the kind of its last registration. */
  lemma {:induction false} EntriesAreRegistered(h: seq<Event>, i: uint32)
    ensures i in After(h) <==> exists j: nat :: RegisteredAt(h, i, j)
    ensures forall j: nat :: RegisteredAt(h, i, j) && i in After(h) ==>
              After(h)[i].keyExpr == h[j].keyExpr && After(h)[i].kind == h[j].kind
  {
    hide Attached, Declared, Undeclared, Snapshot;
    if |h| > 0 {
      var n := |h| - 1;
      EntriesAreRegistered(h[..n], i);
      RegisteredLater(h, i);
      if i in After(h) && !Replaces(h[n], i) {
        EntryStays(After(h[..n]), h[n], i);
        var j :| RegisteredAt(h[..n], i, j);
        assert RegisteredAt(h, i, j);
      }
      if h[n].Register? && h[n].interest == i {
        assert RegisteredAt(h, i, n);
      }
    }
  }

  lemma EntryStays(s: Entries, event: Event, i: uint32)
    requires !Replaces(event, i)
    ensures i in Step(s, event) <==> i in s
    ensures i in s ==> Step(s, event)[i].keyExpr == s[i].keyExpr && Step(s, event)[i].kind == s[i].kind
  {
  }

  // ----- snapshots -----

  /** The event makes every earlier snapshot of `i` void. */
  predicate Voids(event: Event, i: uint32) {
    event == Reset || (event.Register? && event.interest == i)
  }

  /** A snapshot of `i` was reported by the j-th event and is still good. */
  predicate DoneAt(h: seq<Event>, i: uint32, j: nat) {
    && j < |h| && h[j] == SnapshotDone(i)
    && forall m :: j < m < |h| ==> !Voids(h[m], i)
  }

  /** The j-th event is the first report of a snapshot since registration or reset, and
      belongs to the present registration. */
  ghost predicate FirstReport(h: seq<Event>, i: uint32, j: nat) {
    && j < |h| && h[j] == SnapshotDone(i)
    && (forall m :: j < m < |h| ==> !(h[m].Register? && h[m].interest == i))
    && !exists m: nat :: DoneAt(h[..j], i, m)
  }

  ghost function FirstReports(h: seq<Event>, i: uint32): set<nat> {
    set j: nat | j < |h| && FirstReport(h, i, j)
  }

  lemma DoneLater(h: seq<Event>, i: uint32)
    requires |h| > 0
    ensures forall j: nat | j < |h| - 1 :: DoneAt(h, i, j) <==> DoneAt(h[..|h| - 1], i, j) && !Voids(h[|h| - 1], i)
    ensures var before := h[..|h| - 1];
            forall j: nat :: DoneAt(before, i, j) ==> j < |before|
  {
    var n := |h| - 1;
    forall j: nat | j < n
      ensures DoneAt(h, i, j) <==> DoneAt(h[..n], i, j) && !Voids(h[n], i)
    {
      assert forall m :: j < m < n ==> h[..n][m] == h[m];
    }
  }

  lemma FirstLater(h: seq<Event>, i: uint32)
    requires |h| > 0
    ensures var n := |h| - 1;
            forall j: nat | j < n ::
              FirstReport(h, i, j) <==> FirstReport(h[..n], i, j) && !(h[n].Register? && h[n].interest == i)
  {
    var n := |h| - 1;
    forall j: nat | j < n
      ensures FirstReport(h, i, j) <==> FirstReport(h[..n], i, j) && !(h[n].Register? && h[n].interest == i)
    {
      assert h[..n][..j] == h[..j] && h[..n][j] == h[j];
      assert forall m :: j < m < n ==> h[..n][m] == h[m];
    }
  }

  /** The snapshot of an entry counts as done if and only if it was reported since the
      last registration and the last reset; the epoch is the number of first reports. */
  lemma {:induction false} SnapshotsAreReported(h: seq<Event>, i: uint32)
    requires i in After(h)
    ensures After(h)[i].initialDone <==> exists j: nat :: DoneAt(h, i, j)
    ensures After(h)[i].epoch == |FirstReports(h, i)|
  {
    hide DoneAt, FirstReport, Step;
    var n := |h| - 1;
    DoneLater(h, i);
    FirstLater(h, i);
    LastReport(h, i);
    if Replaces(h[n], i) {
      Replaced(After(h[..n]), h[n], i);
      assert FirstReports(h, i) == {};
    } else {
      EntryStays(After(h[..n]), h[n], i);
      SnapshotsAreReported(h[..n], i);
      SnapshotStep(After(h[..n]), h[n], i);
      if j: nat :| DoneAt(h[..n], i, j) {
        assert DoneAt(h, i, j) <==> !Voids(h[n], i);
      }
      assert h[n] != SnapshotDone(i) ==> FirstReports(h, i) == FirstReports(h[..n], i);
      assert FirstReport(h, i, n) ==> FirstReports(h, i) == FirstReports(h[..n], i) + {n};
      assert !FirstReport(h, i, n) ==> FirstReports(h, i) == FirstReports(h[..n], i);
    }
  }

  /** What the last event reports. */
  lemma LastReport(h: seq<Event>, i: uint32)
    requires |h| > 0
    ensures var n := |h| - 1;
            && (DoneAt(h, i, n) <==> h[n] == SnapshotDone(i))
            && (FirstReport(h, i, n) <==> h[n] == SnapshotDone(i) && !exists m: nat :: DoneAt(h[..n], i, m))
    ensures forall j: nat :: DoneAt(h, i, j) || FirstReport(h, i, j) ==> j < |h|
  {
  }

  lemma Replaced(s: Entries, event: Event, i: uint32)
    requires Replaces(event, i) && i in Step(s, event)
    ensures event.Register? && !Step(s, event)[i].initialDone && Step(s, event)[i].epoch == 0
  {
  }

  lemma SnapshotStep(s: Entries, event: Event, i: uint32)
    requires !Replaces(event, i) && i in s
    ensures var (e, e') := (s[i], Step(s, event)[i]);
            && (e'.initialDone <==> (event == SnapshotDone(i) || (e.initialDone && event != Reset)))
            && e'.epoch == e.epoch + if event == SnapshotDone(i) && !e.initialDone then 1 else 0
  {
  }

  /** Right after a report: whoever listens has last been told whether anything matches. */
  lemma ReportIsHeard(h: seq<Event>, i: uint32, l: ListenerId)
    requires i in After(h) && l in After(h)[i].listeners
    ensures var e := After(h + [SnapshotDone(i)])[i];
            e.initialDone && l in e.listeners && LastHeard(e, l) == Some(Status(e))
  {
    hide Truthful;
    var h' := h + [SnapshotDone(i)];
    assert h'[..|h|] == h && h'[|h|] == SnapshotDone(i);
    RegistryStaysTruthful(h');
    KnowsWhenDone(After(h')[i], l);
  }

  /** At any time after the snapshot that is so. */
  lemma KnowsWhenDone(e: Entry, l: ListenerId)
    requires Truthful(e) && e.initialDone && l in e.listeners
    ensures LastHeard(e, l) == Some(Status(e))
  {
    if e.declarations != {} {
      var d :| d in e.declarations;
    }
  }

  /** At any time: an entry whose snapshot has been reported since registration and reset
      has told each of its listeners last whether a declaration is alive. */
  lemma ListenersKnow(h: seq<Event>, i: uint32, j: nat, l: ListenerId)
    requires i in After(h) && DoneAt(h, i, j) && l in After(h)[i].listeners
    ensures LastHeard(After(h)[i], l) == Some(Notice(|FirstReports(h, i)|, After(h)[i].declarations != {}))
  {
    hide Truthful, DoneAt;
    SnapshotsAreReported(h, i);
    RegistryStaysTruthful(h);
    KnowsWhenDone(After(h)[i], l);
  }

  // ----- listeners -----

  /** How many listeners were attached since the last registration. */
  function Attachments(h: seq<Event>, i: uint32): nat {
    if |h| == 0 || Replaces(h[|h| - 1], i) then 0
    else Attachments(h[..|h| - 1], i) + if h[|h| - 1] == Attach(i) then 1 else 0
  }

  /** The j-th event has attached a listener under the identifier `l`, the number of
      attachments so far as a 32-bit word, and nothing since has detached it. */
  predicate AttachedAt(h: seq<Event>, i: uint32, l: ListenerId, j: nat) {
    && j < |h| && h[j] == Attach(i) && Attachments(h[..j + 1], i) % U32 == l
    && forall m :: j < m < |h| ==> !Replaces(h[m], i) && h[m] != Detach(i, l)
  }

  lemma AttachedLater(h: seq<Event>, i: uint32, l: ListenerId)
    requires |h| > 0
    ensures var n := |h| - 1;
            forall j: nat | j < n ::
              AttachedAt(h, i, l, j) <==> AttachedAt(h[..n], i, l, j) && !Replaces(h[n], i) && h[n] != Detach(i, l)
    ensures var before := h[..|h| - 1];
            forall j: nat :: AttachedAt(before, i, l, j) ==> j < |before|
  {
    hide Attachments;
    var n := |h| - 1;
    forall j: nat | j < n
      ensures AttachedAt(h, i, l, j) <==> AttachedAt(h[..n], i, l, j) && !Replaces(h[n], i) && h[n] != Detach(i, l)
    {
      assert h[..n][..j + 1] == h[..j + 1];
      assert forall m :: j < m < n ==> h[..n][m] == h[m];
    }
  }

  /** The listeners of an entry are exactly those attached since its registration and not
      detached since; resets and snapshots keep them. */
  lemma {:induction false} ListenersAreAttached(h: seq<Event>, i: uint32, l: ListenerId)
    requires i in After(h)
    ensures l in After(h)[i].listeners <==> exists j: nat :: AttachedAt(h, i, l, j)
    ensures After(h)[i].nextListenerId == Attachments(h, i) % U32
  {
    hide AttachedAt, Step;
    var n := |h| - 1;
    AttachedLater(h, i, l);
    LastAttached(h, i, l);
    if Replaces(h[n], i) {
      NoListenersYet(After(h[..n]), h[n], i);
    } else {
      EntryStays(After(h[..n]), h[n], i);
      ListenersAreAttached(h[..n], i, l);
      ListenerStep(After(h[..n]), h[n], i, l);
      NextWord(Attachments(h[..n], i));
    }
  }

  lemma LastAttached(h: seq<Event>, i: uint32, l: ListenerId)
    requires |h| > 0
    ensures AttachedAt(h, i, l, |h| - 1) <==> h[|h| - 1] == Attach(i) && Attachments(h, i) % U32 == l
    ensures forall j: nat :: AttachedAt(h, i, l, j) ==> j < |h|
  {
    assert h[..|h| - 1 + 1] == h;
  }

  lemma NextWord(n: nat)
    ensures (n % U32 + 1) % U32 == (n + 1) % U32
  {
  }

  lemma NoListenersYet(s: Entries, event: Event, i: uint32)
    requires Replaces(event, i) && i in Step(s, event)
    ensures event.Register? && Step(s, event)[i].listeners == map[] && Step(s, event)[i].nextListenerId == 0
  {
  }

  lemma ListenerStep(s: Entries, event: Event, i: uint32, l: ListenerId)
    requires !Replaces(event, i) && i in s
    ensures var (e, e') := (s[i], Step(s, event)[i]);
            && e'.nextListenerId == (if event == Attach(i) then (e.nextListenerId + 1) % U32 else e.nextListenerId)
            && (l in e'.listeners <==>
                  (l in e.listeners && event != Detach(i, l)) || (event == Attach(i) && l == e'.nextListenerId))
  {
  }

  /** No event tells a listener more than once, and nothing that was told is taken back. */
  lemma OneNoticeAtATime(s: Entries, event: Event, i: uint32, l: ListenerId)
    requires i in s && l in s[i].listeners && i in Step(s, event) && l in Step(s, event)[i].listeners
    requires !Replaces(event, i) && !(event == Attach(i) && l == Step(s, event)[i].nextListenerId)
    ensures var (heard, heard') := (s[i].listeners[l], Step(s, event)[i].listeners[l]);
            heard <= heard' && |heard'| <= |heard| + 1
  {
  }

  /** Before the snapshot nobody is told anything; a reset makes that so again. */
  lemma SilentBeforeSnapshot(s: Entries, event: Event, i: uint32, l: ListenerId)
    requires i in s && l in s[i].listeners && i in Step(s, event) && l in Step(s, event)[i].listeners
    requires !Replaces(event, i) && !(event == Attach(i) && l == Step(s, event)[i].nextListenerId)
    requires !s[i].initialDone && event != SnapshotDone(i)
    ensures Step(s, event)[i].listeners[l] == s[i].listeners[l]
  {
  }

  /** A new listener hears the status at once if the snapshot is done, and otherwise nothing
      yet. */
  lemma NewcomerHears(h: seq<Event>, i: uint32)
    requires i in After(h)
    ensures var e := After(h + [Attach(i)])[i];
            && e.nextListenerId in e.listeners
            && e.listeners[e.nextListenerId] == if exists j: nat :: DoneAt(h, i, j) then [Status(e)] else []
  {
    hide Truthful, DoneAt;
    var h' := h + [Attach(i)];
    assert h'[..|h|] == h && h'[|h|] == Attach(i);
    SnapshotsAreReported(h, i);
    RegistryStaysTruthful(h');
    var e := After(h')[i];
    if e.initialDone {
      KnowsWhenDone(e, e.nextListenerId);
    }
  }
}
