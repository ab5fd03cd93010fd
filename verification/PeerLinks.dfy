/**
 Two peers that dial each other at the same time end up with two links; one of them
 must go, the same one on both sides (zenoh/session_peer.go:356-427, the registry in
 internal/session/session.go:125-155). Any number of peers, at most one link in each
 direction between two of them, and every interleaving of handshake completions,
 installations, teardowns, lost links and session shutdowns.
 */
module PeerLinks {
  import opened Wrappers
  import opened Buffer

  type Zid = bytes

  /** The link that `initiator` dialled and `responder` accepted. */
  datatype Link = Link(initiator: Zid, responder: Zid) {
    predicate At(a: Zid) {
      initiator != responder && (initiator == a || responder == a)
    }

    function Other(a: Zid): Zid {
      if initiator == a then responder else initiator
    }
  }

  // ----- the tiebreak -----

  /** Lexicographic comparison of byte strings: negative, zero or positive. */
  function Compare(a: bytes, b: bytes): int {
    if a == b then 0
    else if a == [] then -1
    else if b == [] then 1
    else if a[0] != b[0] then a[0] - b[0]
    else Compare(a[1..], b[1..])
  }

  lemma {:induction false} CompareIsAntisymmetric(a: bytes, b: bytes)
    ensures Compare(a, b) < 0 <==> Compare(b, a) > 0
    ensures Compare(a, b) == 0 <==> a == b
  {
    if a != b && a != [] && b != [] && a[0] == b[0] {
      CompareIsAntisymmetric(a[1..], b[1..]);
      assert a == [a[0]] + a[1..] && b == [b[0]] + b[1..];
    }
  }

  /** The first `i` bytes agree; there `a` ends, or has the smaller byte. */
  predicate BelowAt(a: bytes, b: bytes, i: nat) {
    i <= |a| && i < |b| && a[..i] == b[..i] && (i < |a| ==> a[i] < b[i])
  }

  predicate Below(a: bytes, b: bytes) {
    exists i: nat :: i < |b| && BelowAt(a, b, i)
  }

  lemma BelowBehind(a: bytes, b: bytes, i: nat)
    requires a != [] && b != [] && a[0] == b[0]
    ensures !BelowAt(a, b, 0) && (BelowAt(a, b, i + 1) <==> BelowAt(a[1..], b[1..], i))
  {
    if BelowAt(a, b, i + 1) {
      assert a[1..][..i] == a[..i + 1][1..] && b[1..][..i] == b[..i + 1][1..];
    }
    if BelowAt(a[1..], b[1..], i) {
      assert a[..i + 1] == [a[0]] + a[1..][..i] && b[..i + 1] == [b[0]] + b[1..][..i];
    }
  }

  lemma BelowInFront(a: bytes, b: bytes)
    requires a != [] && b != [] && a[0] == b[0]
    ensures Below(a, b) <==> Below(a[1..], b[1..])
  {
    hide BelowAt;
    if i: nat :| i < |b| && BelowAt(a, b, i) {
      BelowBehind(a, b, 0);
      BelowBehind(a, b, if i > 0 then i - 1 else 0);
      assert i > 0 && BelowAt(a[1..], b[1..], i - 1);
    } else if i: nat :| i < |b[1..]| && BelowAt(a[1..], b[1..], i) {
      BelowBehind(a, b, i);
      assert false;
    }
  }

  lemma BelowAtOnce(a: bytes, b: bytes)
    requires a == b || a == [] || b == [] || a[0] != b[0]
    ensures Below(a, b) <==> a != b && b != [] && (a == [] || a[0] < b[0])
  {
    assert BelowAt(a, b, 0) <==> b != [] && (a == [] || a[0] < b[0]);
    assert forall i: nat :: i > 0 && BelowAt(a, b, i) ==> a[..i][0] == a[0] && b[..i][0] == b[0];
  }

  /** The comparison is by the first byte in which the two differ. */
  lemma {:induction false} CompareIsBelow(a: bytes, b: bytes)
    ensures Compare(a, b) < 0 <==> Below(a, b)
  {
    if a == b || a == [] || b == [] || a[0] != b[0] {
      BelowAtOnce(a, b);
    } else {
      CompareIsBelow(a[1..], b[1..]);
      BelowInFront(a, b);
      assert a == [a[0]] + a[1..] && b == [b[0]] + b[1..];
    }
  }

  predicate IsCanonicalLink(mine: Zid, peer: Zid, isInitiator: bool) {
    var myLower := Compare(mine, peer) < 0;
    if isInitiator then myLower else !myLower
  }

  /** The link that both sides should keep. */
  predicate Wins(l: Link) {
    Compare(l.initiator, l.responder) < 0
  }

  function Reversed(l: Link): Link {
    Link(l.responder, l.initiator)
  }

  /** Both ends of a link come to the same verdict about it, and to opposite verdicts
      about the two directions. */
  lemma BothSidesAgree(l: Link, a: Zid)
    requires l.At(a)
    ensures IsCanonicalLink(a, l.Other(a), a == l.initiator) <==> Wins(l)
    ensures Wins(l) <==> !Wins(Reversed(l))
  {
    CompareIsAntisymmetric(l.initiator, l.responder);
    CompareIsAntisymmetric(l.responder, l.initiator);
  }

  // ----- one peer -----

  /** `installing` is set between the check and the registration, under the install
      lock; `done` and `installed` remember past handshakes and runtimes; a session that
      is no longer `open` starts no runtime. */
  datatype Node = Node(registry: map<Zid, Link>, installing: Option<Link>, done: set<Link>, installed: set<Link>,
                       open: bool)

  const NewNode := Node(map[], None, {}, {}, true)

  function RuntimeFor(n: Node, peer: Zid): Option<Link> {
    if peer in n.registry then Some(n.registry[peer]) else None
  }

  /** A handshake has completed: check what is registered. Returns what gets closed. */
  function Checked(n: Node, at: Zid, l: Link): (Node, set<Link>) {
    var peer := l.Other(at);
    var n' := n.(done := n.done + {l});
    match RuntimeFor(n, peer)
    case None => (n'.(installing := Some(l)), {})
    case Some(existing) =>
      if !IsCanonicalLink(at, peer, at == l.initiator) then (n', {l})
      else (n'.(installing := Some(l)), {existing})
  }

  /** The new runtime is running and takes the peer's place in the registry. */
  function Registered(n: Node, at: Zid, l: Link): Node {
    n.(registry := n.registry[l.Other(at) := l], installing := None, installed := n.installed + {l})
  }

  /** The session was closed in the meantime: no runtime is started. */
  function Refused(n: Node): Node {
    n.(installing := None)
  }

  /** A runtime has ended: its entry goes, unless a successor holds it. */
  function Unregistered(n: Node, at: Zid, l: Link): Node {
    if RuntimeFor(n, l.Other(at)) == Some(l) then n.(registry := n.registry - {l.Other(at)}) else n
  }

  // ----- all peers -----

  datatype Event =
    | Complete(at: Zid, link: Link)
    | Install(at: Zid, link: Link)
    | Refuse(at: Zid, link: Link)
    | Uninstall(at: Zid, link: Link)
    | Lose(link: Link)
    | Shut(at: Zid)

  /** `closed` holds the links that are down; `lost` those of them that went down for
      another reason than the tiebreak. */
  datatype Net = Net(nodes: map<Zid, Node>, closed: set<Link>, lost: set<Link>) {
    function Of(z: Zid): Node {
      if z in nodes then nodes[z] else NewNode
    }
  }

  /** A handshake completes at most once per end and waits for the install lock; a
      runtime ends only after its link went down. */
  predicate Enabled(net: Net, e: Event) {
    match e
    case Complete(at, l) => l.At(at) && net.Of(at).installing == None && l !in net.Of(at).done
    case Install(at, l) => l.At(at) && net.Of(at).installing == Some(l) && net.Of(at).open
    case Refuse(at, l) => l.At(at) && net.Of(at).installing == Some(l) && !net.Of(at).open
    case Uninstall(at, l) => l.At(at) && l in net.Of(at).installed && l in net.closed
    case Lose(_) => true
    case Shut(_) => true
  }

  function With(net: Net, at: Zid, n: Node): Net {
    net.(nodes := net.nodes[at := n])
  }

  function Losing(net: Net, links: set<Link>): Net {
    net.(closed := net.closed + links, lost := net.lost + links)
  }

  function After(net: Net, e: Event): Net {
    match e
    case Complete(at, l) =>
      var (n', closing) := Checked(net.Of(at), at, l);
      With(net, at, n').(closed := net.closed + closing)
    case Install(at, l) => With(net, at, Registered(net.Of(at), at, l))
    case Refuse(at, l) => With(Losing(net, {l}), at, Refused(net.Of(at)))
    case Uninstall(at, l) => With(net, at, Unregistered(net.Of(at), at, l))
    case Lose(l) => Losing(net, {l})
    case Shut(at) => With(Losing(net, net.Of(at).registry.Values), at, net.Of(at).(open := false))
  }

  const Start := Net(map[], {}, {})

  predicate PossibleRun(net: Net, es: seq<Event>)
    decreases |es|
  {
    |es| == 0 || (Enabled(net, es[0]) && PossibleRun(After(net, es[0]), es[1..]))
  }

  function Outcome(net: Net, es: seq<Event>): Net
    decreases |es|
  {
    if |es| == 0 then net else Outcome(After(net, es[0]), es[1..])
  }

  // ----- what every reachable state keeps -----

  predicate EntryIsSound(n: Node, at: Zid, peer: Zid) {
    peer in n.registry ==>
      n.registry[peer].At(at) && n.registry[peer].Other(at) == peer && n.registry[peer] in n.installed
  }

  /** What holds of a link at one of its ends. */
  predicate LinkIsSound(net: Net, at: Zid, l: Link) {
    var n := net.Of(at);
    && (l in n.installed ==> l in n.done)
    && (n.installing == Some(l) ==> l in n.done && l !in n.installed)
    && (l in n.done ==> l in n.installed || n.installing == Some(l) || l in net.closed)
    && (l in n.installed ==> RuntimeFor(n, l.Other(at)) == Some(l) || l in net.closed)
    && (n.installing == Some(l) && Reversed(l) in n.done ==> Reversed(l) in net.closed)
    && (!Wins(l) && l in n.done && Reversed(l) in n.done ==> l in net.closed || Reversed(l) in net.lost)
  }

  ghost predicate Sound(net: Net) {
    && (forall l | Wins(l) && l in net.closed :: l in net.lost)
    && net.lost <= net.closed
    && (forall at, peer :: EntryIsSound(net.Of(at), at, peer))
    && (forall at, l: Link | l.At(at) :: LinkIsSound(net, at, l))
  }

  lemma TwoLinks(at: Zid, l: Link, k: Link)
    requires l.At(at) && k.At(at) && l.Other(at) == k.Other(at)
    ensures k == l || k == Reversed(l)
    ensures Reversed(l).At(at) && Reversed(l).Other(at) == l.Other(at) && Reversed(Reversed(l)) == l
  {
  }

  lemma CompleteKeepsSound(net: Net, at: Zid, l: Link)
    requires Sound(net) && Enabled(net, Complete(at, l))
    ensures Sound(After(net, Complete(at, l)))
  {
    hide Compare, IsCanonicalLink, Wins;
    var n, net' := net.Of(at), After(net, Complete(at, l));
    BothSidesAgree(l, at);
    assert EntryIsSound(n, at, l.Other(at));
    if l.Other(at) in n.registry {
      TwoLinks(at, l, n.registry[l.Other(at)]);
    }
    assert LinkIsSound(net, at, l) && LinkIsSound(net, at, Reversed(l));
    forall z, peer
      ensures EntryIsSound(net'.Of(z), z, peer)
    {
      assert EntryIsSound(net.Of(z), z, peer);
    }
    forall z, k: Link | k.At(z)
      ensures LinkIsSound(net', z, k)
    {
      assert LinkIsSound(net, z, k);
      BothSidesAgree(k, z);
    }
  }

  lemma InstallKeepsSound(net: Net, at: Zid, l: Link)
    requires Sound(net) && Enabled(net, Install(at, l))
    ensures Sound(After(net, Install(at, l)))
  {
    var n, net' := net.Of(at), After(net, Install(at, l));
    BothSidesAgree(l, at);
    assert LinkIsSound(net, at, l) && LinkIsSound(net, at, Reversed(l));
    forall z, peer
      ensures EntryIsSound(net'.Of(z), z, peer)
    {
      assert EntryIsSound(net.Of(z), z, peer);
    }
    forall z, k: Link | k.At(z)
      ensures LinkIsSound(net', z, k)
    {
      assert LinkIsSound(net, z, k);
      if z == at && k.Other(z) == l.Other(z) {
        TwoLinks(at, l, k);
      }
    }
  }

  lemma UninstallKeepsSound(net: Net, at: Zid, l: Link)
    requires Sound(net) && Enabled(net, Uninstall(at, l))
    ensures Sound(After(net, Uninstall(at, l)))
  {
    var net' := After(net, Uninstall(at, l));
    forall z, peer
      ensures EntryIsSound(net'.Of(z), z, peer)
    {
      assert EntryIsSound(net.Of(z), z, peer);
    }
    forall z, k: Link | k.At(z)
      ensures LinkIsSound(net', z, k)
    {
      assert LinkIsSound(net, z, k);
    }
  }

  lemma RefuseKeepsSound(net: Net, at: Zid, l: Link)
    requires Sound(net) && Enabled(net, Refuse(at, l))
    ensures Sound(After(net, Refuse(at, l)))
  {
    var net' := After(net, Refuse(at, l));
    forall z, peer
      ensures EntryIsSound(net'.Of(z), z, peer)
    {
      assert EntryIsSound(net.Of(z), z, peer);
    }
    forall z, k: Link | k.At(z)
      ensures LinkIsSound(net', z, k)
    {
      assert LinkIsSound(net, z, k);
    }
  }

  lemma LosingKeepsSound(net: Net, links: set<Link>)
    requires Sound(net)
    ensures Sound(Losing(net, links))
  {
    var net' := Losing(net, links);
    forall z, peer
      ensures EntryIsSound(net'.Of(z), z, peer)
    {
      assert EntryIsSound(net.Of(z), z, peer);
    }
    forall z, k: Link | k.At(z)
      ensures LinkIsSound(net', z, k)
    {
      assert LinkIsSound(net, z, k);
    }
  }

  lemma ShutKeepsSound(net: Net, at: Zid)
    requires Sound(net)
    ensures Sound(After(net, Shut(at)))
  {
    var mid, net' := Losing(net, net.Of(at).registry.Values), After(net, Shut(at));
    LosingKeepsSound(net, net.Of(at).registry.Values);
    forall z, peer
      ensures EntryIsSound(net'.Of(z), z, peer)
    {
      assert EntryIsSound(mid.Of(z), z, peer);
    }
    forall z, k: Link | k.At(z)
      ensures LinkIsSound(net', z, k)
    {
      assert LinkIsSound(mid, z, k);
    }
  }

  lemma {:induction false} RunsAreSound(net: Net, es: seq<Event>)
    requires Sound(net) && PossibleRun(net, es)
    ensures Sound(Outcome(net, es))
    decreases |es|
  {
    hide Sound, Losing;
    if |es| > 0 {
      match es[0] {
        case Complete(at, l) => CompleteKeepsSound(net, at, l);
        case Install(at, l) => InstallKeepsSound(net, at, l);
        case Refuse(at, l) => RefuseKeepsSound(net, at, l);
        case Uninstall(at, l) => UninstallKeepsSound(net, at, l);
        case Lose(l) => LosingKeepsSound(net, {l});
        case Shut(at) => ShutKeepsSound(net, at);
      }
      RunsAreSound(After(net, es[0]), es[1..]);
    }
  }

  // ----- the theorems -----

  /** In every interleaving the link with the smaller initiator goes down only when it is
      lost, never by the tiebreak; until then an end never rejects it, and one that has
      installed it still has it in its registry. */
  lemma WinnerStays(es: seq<Event>, l: Link, at: Zid)
    requires PossibleRun(Start, es) && l.At(at) && Wins(l)
    ensures var net := Outcome(Start, es);
            && (l in net.closed <==> l in net.lost)
            && (l in net.Of(at).installed && l !in net.lost ==> RuntimeFor(net.Of(at), l.Other(at)) == Some(l))
            && (l in net.Of(at).done && l !in net.lost ==>
                  l in net.Of(at).installed || net.Of(at).installing == Some(l))
  {
    RunsAreSound(Start, es);
    assert LinkIsSound(Outcome(Start, es), at, l);
  }

  /** Unless the winner is lost: once it is installed at both ends, both registries agree
      on it; and where both links completed, the other one has been closed. */
  lemma PeersConverge(es: seq<Event>, l: Link)
    requires PossibleRun(Start, es) && l.initiator != l.responder && Wins(l)
    requires l !in Outcome(Start, es).lost
    ensures var net := Outcome(Start, es);
            var (a, b) := (net.Of(l.initiator), net.Of(l.responder));
            && (l in a.installed && l in b.installed ==>
                  RuntimeFor(a, l.responder) == RuntimeFor(b, l.initiator) == Some(l))
            && ((l in a.done && Reversed(l) in a.done) || (l in b.done && Reversed(l) in b.done) ==>
                  Reversed(l) in net.closed && l !in net.closed)
  {
    WinnerStays(es, l, l.initiator);
    WinnerStays(es, l, l.responder);
    RunsAreSound(Start, es);
    BothSidesAgree(l, l.initiator);
    var net := Outcome(Start, es);
    assert LinkIsSound(net, l.initiator, Reversed(l)) && LinkIsSound(net, l.responder, Reversed(l));
  }

  lemma StaysInstalled(net: Net, e: Event, l: Link, at: Zid)
    requires Enabled(net, e) && l in net.Of(at).installed
    ensures l in After(net, e).Of(at).installed
  {
  }

  lemma InstalledIsRegistered(net: Net, l: Link, at: Zid)
    requires Sound(net) && l.At(at) && Wins(l) && l in net.Of(at).installed && l !in net.lost
    ensures RuntimeFor(net.Of(at), l.Other(at)) == Some(l)
  {
    assert LinkIsSound(net, at, l);
  }

  /** Whatever happens later, an installed winner stays in the registry until it is lost:
      in particular a late teardown of the other link does not remove it. */
  lemma {:induction false} InstalledForGood(net: Net, es: seq<Event>, l: Link, at: Zid)
    requires Sound(net) && PossibleRun(net, es) && l.At(at) && Wins(l) && l in net.Of(at).installed
    requires l !in Outcome(net, es).lost
    ensures RuntimeFor(Outcome(net, es).Of(at), l.Other(at)) == Some(l)
    decreases |es|
  {
    hide Sound, After;
    if |es| == 0 {
      InstalledIsRegistered(net, l, at);
    } else {
      RunsAreSound(net, [es[0]]);
      assert [es[0]][1..] == [] && Outcome(net, [es[0]]) == After(net, es[0]);
      StaysInstalled(net, es[0], l, at);
      InstalledForGood(After(net, es[0]), es[1..], l, at);
    }
  }

  /** The winner is the link whose initiator has the smaller ZID. */
  lemma SmallerInitiatorWins(l: Link)
    ensures Wins(l) <==> Below(l.initiator, l.responder)
  {
    CompareIsBelow(l.initiator, l.responder);
  }

  /** A link without a competitor is kept too, in whichever direction it was dialled: as
      long as the other direction has not completed at this end and the link is not lost,
      this end has not closed it. */
  lemma LoneLinkStays(es: seq<Event>, l: Link, at: Zid)
    requires PossibleRun(Start, es) && l.At(at)
    requires Reversed(l) !in Outcome(Start, es).Of(l.initiator).done
    requires Reversed(l) !in Outcome(Start, es).Of(l.responder).done
    ensures var net := Outcome(Start, es);
            && (l in net.closed ==> l in net.lost)
            && (l in net.Of(at).done && l !in net.lost ==>
                  net.Of(at).installing == Some(l) || RuntimeFor(net.Of(at), l.Other(at)) == Some(l))
  {
    RunsAreSound(Start, es);
    ClosedForAReason(Start, es, l);
    assert LinkIsSound(Outcome(Start, es), at, l);
  }

  /** Only the completion of the reversed link closes a link that is not lost. */
  predicate ClosedOnlyByRival(net: Net, l: Link) {
    l in net.closed ==>
      l in net.lost || Reversed(l) in net.Of(l.initiator).done || Reversed(l) in net.Of(l.responder).done
  }

  lemma RivalStep(net: Net, e: Event, l: Link)
    requires Sound(net) && ClosedOnlyByRival(net, l) && Enabled(net, e)
    ensures ClosedOnlyByRival(After(net, e), l)
  {
    if e.Complete? {
      assert EntryIsSound(net.Of(e.at), e.at, e.link.Other(e.at));
      assert LinkIsSound(net, e.at, e.link);
      if e.link.Other(e.at) in net.Of(e.at).registry {
        assert LinkIsSound(net, e.at, net.Of(e.at).registry[e.link.Other(e.at)]);
        TwoLinks(e.at, e.link, net.Of(e.at).registry[e.link.Other(e.at)]);
      }
    }
  }

  lemma {:induction false} ClosedForAReason(net: Net, es: seq<Event>, l: Link)
    requires Sound(net) && ClosedOnlyByRival(net, l) && PossibleRun(net, es)
    ensures ClosedOnlyByRival(Outcome(net, es), l)
    decreases |es|
  {
    hide Sound, After, Enabled, ClosedOnlyByRival;
    if |es| > 0 {
      RivalStep(net, es[0], l);
      RunsAreSound(net, [es[0]]);
      assert [es[0]][1..] == [] && Outcome(net, [es[0]]) == After(net, es[0]);
      ClosedForAReason(After(net, es[0]), es[1..], l);
    }
  }

  /** A dead entry does not stay: as long as the registry names a link that is down, its
      teardown is still to come, and it removes the entry. */
  lemma DeadEntriesGo(es: seq<Event>, at: Zid, peer: Zid, l: Link)
    requires PossibleRun(Start, es) && RuntimeFor(Outcome(Start, es).Of(at), peer) == Some(l)
    requires l in Outcome(Start, es).closed
    ensures var net := Outcome(Start, es);
            && Enabled(net, Uninstall(at, l))
            && RuntimeFor(After(net, Uninstall(at, l)).Of(at), peer) == None
  {
    RunsAreSound(Start, es);
    assert EntryIsSound(Outcome(Start, es).Of(at), at, peer);
  }

  /** Once a runtime has been torn down its end does not name its link any more, and no
      other entry has changed. */
  lemma UninstalledIsGone(es: seq<Event>, at: Zid, l: Link, peer: Zid)
    requires PossibleRun(Start, es) && Enabled(Outcome(Start, es), Uninstall(at, l))
    ensures var (net, net') := (Outcome(Start, es), After(Outcome(Start, es), Uninstall(at, l)));
            && RuntimeFor(net'.Of(at), peer) != Some(l)
            && (RuntimeFor(net.Of(at), peer) != Some(l) ==>
                  RuntimeFor(net'.Of(at), peer) == RuntimeFor(net.Of(at), peer))
  {
    RunsAreSound(Start, es);
    assert EntryIsSound(Outcome(Start, es).Of(at), at, peer);
  }

  // ----- the session object -----

  class PeerSession {
    const zid: Zid
    var runtimes: map<Zid, Link>
    var current: Option<Link>
    var done: set<Link>
    var installed: set<Link>
    var closedLinks: set<Link>
    var open: bool

    constructor (zid: Zid)
      ensures this.zid == zid && State() == NewNode && current == None && closedLinks == {}
    {
      this.zid := zid;
      runtimes, current, done, installed, closedLinks, open := map[], None, {}, {}, {}, true;
    }

    function State(): Node
      reads this
    {
      Node(runtimes, None, done, installed, open)
    }

    method Lookup(peer: Zid) returns (rt: Option<Link>)
      ensures rt == RuntimeFor(State(), peer)
    {
      rt := if peer in runtimes then Some(runtimes[peer]) else None;
    }

    method RegisterRuntime(peer: Zid, rt: Link)
      modifies this`runtimes
      ensures runtimes == old(runtimes)[peer := rt]
    {
      runtimes := runtimes[peer := rt];
    }

    /** Runs when a runtime has ended, possibly long after it was replaced. */
    method UninstallRuntime(rt: Link)
      modifies this`runtimes, this`current
      ensures State() == Unregistered(old(State()), zid, rt)
      ensures current == if old(current) == Some(rt) then None else old(current)
    {
      var peer := rt.Other(zid);
      var cur := Lookup(peer);
      if cur == Some(rt) {
        runtimes := runtimes - {peer};
      }
      if current == Some(rt) {
        current := None;
      }
    }

    /** Check and installation in one piece, as the lock makes them for other
        handshakes. Returns the runtime that survives, or none if the session is closed
        and the link therefore gets none. */
    method StartRuntimeForPeer(link: Link, isInitiator: bool) returns (kept: Option<Link>)
      requires link.At(zid) && isInitiator == (zid == link.initiator)
      modifies this`runtimes, this`current, this`done, this`installed, this`closedLinks
      ensures var (checked, closing) := Checked(old(State()), zid, link);
              if checked.installing != Some(link) then
                State() == checked && closedLinks == old(closedLinks) + closing && current == old(current)
              else if open then
                && State() == Registered(checked, zid, link) && closedLinks == old(closedLinks) + closing
                && current == Some(link)
              else
                && State() == Refused(checked) && closedLinks == old(closedLinks) + closing + {link}
                && current == old(current) && kept == None
      ensures open ==> kept.Some? && kept == RuntimeFor(State(), link.Other(zid))
      ensures open && Wins(link) ==> kept == Some(link)
    {
      BothSidesAgree(link, zid);
      done := done + {link};
      var peer := link.Other(zid);
      var existing := Lookup(peer);
      if existing.Some? {
        if !IsCanonicalLink(zid, peer, isInitiator) {
          closedLinks := closedLinks + {link};
          return existing;
        }
        closedLinks := closedLinks + {existing.value};
      }
      if !open {
        closedLinks := closedLinks + {link};
        return None;
      }
      RegisterRuntime(peer, link);
      current := Some(link);
      installed := installed + {link};
      kept := Some(link);
    }
  }
}
