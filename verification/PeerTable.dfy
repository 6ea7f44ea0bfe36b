/** The table of active peers as a value: one connection for each peer, the log of
    events sent to subscribers, and the history of connections added and closed. */
module PeerTable {
  import opened Types

  datatype Table = Table(
    connections: map<PeerId, Connection>,
    log: seq<PeerEvent>,
    added: set<Connection>,
    closed: set<Connection>)

  const EMPTY := Table(map[], [], {}, {})

  /** True if the existing connection gives way to the new one. */
  predicate TieBreak(own: PeerId, remote: PeerId, existing: Origin, new_: Origin) {
    match (existing, new_)
    case (Inbound, Inbound) => true
    case (Outbound, Outbound) => true
    case (Inbound, Outbound) => Less(remote, own)
    case (Outbound, Inbound) => Less(own, remote)
  }

  predicate Accepts(own: PeerId, t: Table, c: Connection) {
    c.peer in t.connections ==> TieBreak(own, c.peer, t.connections[c.peer].origin, c.origin)
  }

  function Insert(own: PeerId, t: Table, c: Connection): Table {
    if c.peer !in t.connections then
      Table(t.connections[c.peer := c], t.log + [NewPeer(c.peer)], t.added + {c}, t.closed)
    else if Accepts(own, t, c) then
      Table(t.connections[c.peer := c],
            t.log + [LostPeer(c.peer, Requested), NewPeer(c.peer)],
            t.added + {c},
            t.closed + {t.connections[c.peer]})
    else
      t.(added := t.added + {c}, closed := t.closed + {c})
  }

  function Remove(t: Table, p: PeerId, reason: DisconnectReason): Table {
    if p in t.connections then
      t.(connections := t.connections - {p},
         log := t.log + [LostPeer(p, reason)],
         closed := t.closed + {t.connections[p]})
    else
      t
  }

  function RemoveWithStableId(t: Table, p: PeerId, stableId: nat, reason: DisconnectReason): Table {
    if p in t.connections && t.connections[p].stableId == stableId then Remove(t, p, reason) else t
  }

  // ---------------------------------------------------------------- invariant

  /** Each entry is filed under its own peer, and each connection ever added is
      exactly one of "current entry of its own peer" or "closed by the table". */
  ghost predicate Conserved(t: Table) {
    && (forall p :: p in t.connections ==> t.connections[p].peer == p)
    && (forall p :: p in t.connections ==> t.connections[p] in t.added)
    && (forall c :: c in t.added <==> (c in t.closed || IsEntry(t, c)))
    && (forall c :: c in t.closed ==> !IsEntry(t, c))
  }

  predicate IsEntry(t: Table, c: Connection) {
    c.peer in t.connections && t.connections[c.peer] == c
  }

  lemma InsertConserves(own: PeerId, t: Table, c: Connection)
    requires Conserved(t) && c !in t.added
    ensures Conserved(Insert(own, t, c))
  {
    var u := Insert(own, t, c);
    forall d
      ensures d in u.added <==> (d in u.closed || IsEntry(u, d))
      ensures d in u.closed ==> !IsEntry(u, d)
    {
      assert d in t.added <==> (d in t.closed || IsEntry(t, d));
    }
  }

  lemma RemoveConserves(t: Table, p: PeerId, reason: DisconnectReason)
    requires Conserved(t)
    ensures Conserved(Remove(t, p, reason))
  {
    var u := Remove(t, p, reason);
    forall d
      ensures d in u.added <==> (d in u.closed || IsEntry(u, d))
      ensures d in u.closed ==> !IsEntry(u, d)
    {
      assert d in t.added <==> (d in t.closed || IsEntry(t, d));
    }
  }

  // ------------------------------------------------------------ event stream

  /** Replays events over a snapshot of connected peers. A NewPeer for a connected
      peer, or a LostPeer for one that is not connected, has no meaning. */
  function Replay(peers: set<PeerId>, events: seq<PeerEvent>): Option<set<PeerId>>
    decreases events
  {
    if events == [] then Some(peers)
    else match events[0]
      case NewPeer(p) => if p in peers then None else Replay(peers + {p}, events[1..])
      case LostPeer(p, _) => if p !in peers then None else Replay(peers - {p}, events[1..])
  }

  lemma {:induction false} ReplayComposes(peers: set<PeerId>, first: seq<PeerEvent>, second: seq<PeerEvent>)
    ensures Replay(peers, first + second) ==
            match Replay(peers, first)
            case None => None
            case Some(mid) => Replay(mid, second)
    decreases first
  {
    if first == [] {
      assert first + second == second;
    } else {
      assert (first + second)[0] == first[0] && (first + second)[1..] == first[1..] + second;
      match first[0]
      case NewPeer(p) => if p !in peers { ReplayComposes(peers + {p}, first[1..], second); }
      case LostPeer(p, _) => if p in peers { ReplayComposes(peers - {p}, first[1..], second); }
    }
  }

  /** What `u` logged since `t` takes the peers of `t` to the peers of `u`. */
  ghost predicate Extends(t: Table, u: Table) {
    && t.log <= u.log
    && Replay(t.connections.Keys, u.log[|t.log|..]) == Some(u.connections.Keys)
  }

  lemma ExtendsBy(t: Table, u: Table, events: seq<PeerEvent>)
    requires u.log == t.log + events
    requires Replay(t.connections.Keys, events) == Some(u.connections.Keys)
    ensures Extends(t, u)
  {
    assert u.log[|t.log|..] == events;
  }

  lemma ExtendsTransitive(t: Table, u: Table, v: Table)
    requires Extends(t, u) && Extends(u, v)
    ensures Extends(t, v)
  {
    var first, second := u.log[|t.log|..], v.log[|u.log|..];
    assert v.log[|t.log|..] == first + second by {
      assert u.log == v.log[..|u.log|];
    }
    ReplayComposes(t.connections.Keys, first, second);
  }

  lemma InsertExtends(own: PeerId, t: Table, c: Connection)
    ensures Extends(t, Insert(own, t, c))
  {
    var u := Insert(own, t, c);
    var peers := t.connections.Keys;
    if c.peer !in peers {
      assert u.connections.Keys == peers + {c.peer};
      assert Replay(peers, [NewPeer(c.peer)]) == Replay(peers + {c.peer}, []);
      ExtendsBy(t, u, [NewPeer(c.peer)]);
    } else if Accepts(own, t, c) {
      var lost := LostPeer(c.peer, Requested);
      assert u.connections.Keys == peers == (peers - {c.peer}) + {c.peer};
      assert [lost, NewPeer(c.peer)][1..] == [NewPeer(c.peer)];
      assert Replay(peers - {c.peer}, [NewPeer(c.peer)]) == Replay((peers - {c.peer}) + {c.peer}, []);
      ExtendsBy(t, u, [lost, NewPeer(c.peer)]);
    } else {
      ExtendsBy(t, u, []);
    }
  }

  lemma RemoveExtends(t: Table, p: PeerId, reason: DisconnectReason)
    ensures Extends(t, Remove(t, p, reason))
  {
    var u := Remove(t, p, reason);
    var peers := t.connections.Keys;
    if p in peers {
      assert u.connections.Keys == peers - {p};
      assert Replay(peers, [LostPeer(p, reason)]) == Replay(peers - {p}, []);
      ExtendsBy(t, u, [LostPeer(p, reason)]);
    } else {
      ExtendsBy(t, u, []);
    }
  }

  /** The events about one peer, oldest first. */
  function About(p: PeerId, events: seq<PeerEvent>): seq<PeerEvent> {
    if events == [] then []
    else (if events[0].peer == p then [events[0]] else []) + About(p, events[1..])
  }

  /** NewPeer and LostPeer take turns, starting with NewPeer if and only if `newFirst`. */
  ghost predicate Alternates(events: seq<PeerEvent>, newFirst: bool) {
    forall i :: 0 <= i < |events| ==> (events[i].NewPeer? <==> ((i % 2 == 0) == newFirst))
  }

  /** A log that replays strictly alternates for every peer. */
  lemma {:induction false} ReplayAlternates(peers: set<PeerId>, events: seq<PeerEvent>, p: PeerId)
    requires Replay(peers, events).Some?
    ensures Alternates(About(p, events), p !in peers)
    decreases events
  {
    if events == [] {
    } else {
      var next := if events[0].NewPeer? then peers + {events[0].peer} else peers - {events[0].peer};
      ReplayAlternates(next, events[1..], p);
      if events[0].peer == p {
        AlternatesOneMore(events[0], About(p, events[1..]), p !in peers);
      }
    }
  }

  /** In the end a peer is connected exactly if it was at first and has been the subject of
      an even number of events, or was not and has been of an odd number. */
  lemma {:induction false} ReplayParity(peers: set<PeerId>, events: seq<PeerEvent>, p: PeerId)
    requires Replay(peers, events).Some?
    ensures p in Replay(peers, events).value <==> (p in peers) == (|About(p, events)| % 2 == 0)
    decreases events
  {
    if events == [] {
    } else {
      var next := if events[0].NewPeer? then peers + {events[0].peer} else peers - {events[0].peer};
      ReplayParity(next, events[1..], p);
    }
  }

  lemma AlternatesOneMore(e: PeerEvent, rest: seq<PeerEvent>, newFirst: bool)
    requires Alternates(rest, !newFirst) && (e.NewPeer? <==> newFirst)
    ensures Alternates([e] + rest, newFirst)
  {
    var all := [e] + rest;
    forall i | 0 <= i < |all| ensures all[i].NewPeer? <==> ((i % 2 == 0) == newFirst) {
      if i > 0 { assert all[i] == rest[i - 1]; }
    }
  }

  // ------------------------------------------------- folding adds of one peer

  /** The connection was dialed by the side with the greater identity. */
  predicate DialedByGreater(own: PeerId, c: Connection) {
    c.origin == if Less(c.peer, own) then Outbound else Inbound
  }

  function InsertAll(own: PeerId, t: Table, conns: seq<Connection>): Table {
    if conns == [] then t else Insert(own, InsertAll(own, t, conns[..|conns| - 1]), conns[|conns| - 1])
  }

  /** Independent description of the survivor: the last connection dialed by the
      greater side if there is one, else the last one. */
  ghost predicate Survives(own: PeerId, conns: seq<Connection>, i: nat) {
    && i < |conns|
    && (DialedByGreater(own, conns[i]) || forall j :: 0 <= j < |conns| ==> !DialedByGreater(own, conns[j]))
    && (forall j :: i < j < |conns| ==> DialedByGreater(own, conns[i]) && !DialedByGreater(own, conns[j]))
  }

  /** Adding any sequence of connections with one other peer to a table without an
      entry for it leaves the survivor, and no event of another peer matters. */
  lemma {:induction false} LastPreferredSurvives(own: PeerId, remote: PeerId, t: Table, conns: seq<Connection>)
    returns (i: nat)
    requires own != remote && remote !in t.connections && conns != []
    requires forall k :: 0 <= k < |conns| ==> conns[k].peer == remote
    ensures Survives(own, conns, i)
    ensures InsertAll(own, t, conns).connections == t.connections[remote := conns[i]]
  {
    var n := |conns| - 1;
    var init, last := conns[..n], conns[n];
    if n == 0 {
      assert InsertAll(own, t, init) == t;
      i := 0;
    } else {
      var k := LastPreferredSurvives(own, remote, t, init);
      TieBreakPrefersGreater(own, remote, conns[k], last);
      InsertOverEntry(own, t, InsertAll(own, t, init), conns[k], last);
      i := if DialedByGreater(own, conns[k]) && !DialedByGreater(own, last) then k else n;
      SurvivesOneMore(own, init, last, k);
      assert conns == init + [last];
    }
  }

  lemma InsertOverEntry(own: PeerId, t: Table, u: Table, existing: Connection, c: Connection)
    requires u.connections == t.connections[c.peer := existing]
    ensures Insert(own, u, c).connections ==
            t.connections[c.peer := if TieBreak(own, c.peer, existing.origin, c.origin) then c else existing]
  {
  }

  lemma SurvivesOneMore(own: PeerId, conns: seq<Connection>, last: Connection, k: nat)
    requires Survives(own, conns, k)
    ensures Survives(own, conns + [last],
                     if DialedByGreater(own, conns[k]) && !DialedByGreater(own, last) then k else |conns|)
  {
  }

  /** The new connection loses only if it was dialed by the lesser side and the
      existing one by the greater. */
  lemma TieBreakPrefersGreater(own: PeerId, remote: PeerId, existing: Connection, c: Connection)
    requires own != remote && existing.peer == remote == c.peer
    ensures TieBreak(own, remote, existing.origin, c.origin) <==>
            !(DialedByGreater(own, existing) && !DialedByGreater(own, c))
  {
    PeerOrderIsTotal(own, remote);
  }

  /** The connections of one direction, in their own order. */
  function OfOrigin(conns: seq<Connection>, o: Origin): seq<Connection> {
    if conns == [] then []
    else
      var last := conns[|conns| - 1];
      OfOrigin(conns[..|conns| - 1], o) + if last.origin == o then [last] else []
  }

  ghost predicate IsLastOf(conns: seq<Connection>, o: Origin, k: nat) {
    && k < |conns| && conns[k].origin == o
    && forall j :: k < j < |conns| ==> conns[j].origin != o
  }

  lemma {:induction false} NoneOfOrigin(conns: seq<Connection>, o: Origin)
    ensures OfOrigin(conns, o) == [] <==> forall k :: 0 <= k < |conns| ==> conns[k].origin != o
  {
    if conns == [] {
    } else {
      var n := |conns| - 1;
      NoneOfOrigin(conns[..n], o);
      assert forall k :: 0 <= k < n ==> conns[..n][k] == conns[k];
    }
  }

  lemma {:induction false} LastOfOrigin(conns: seq<Connection>, o: Origin, k: nat)
    requires IsLastOf(conns, o, k)
    ensures OfOrigin(conns, o) != [] && conns[k] == OfOrigin(conns, o)[|OfOrigin(conns, o)| - 1]
  {
    var n := |conns| - 1;
    if k == n {
    } else {
      assert conns[n].origin != o;
      LastOfOrigin(conns[..n], o, k);
    }
  }

  /** The direction whose last connection survives: the one dialed by the greater side,
      unless it is empty. */
  function SurvivingDirection(own: PeerId, remote: PeerId, conns: seq<Connection>): Origin {
    var greater := if Less(remote, own) then Outbound else Inbound;
    var lesser := if Less(remote, own) then Inbound else Outbound;
    if OfOrigin(conns, greater) != [] then greater else lesser
  }

  function Survivor(own: PeerId, remote: PeerId, conns: seq<Connection>): Option<Connection> {
    var direction := OfOrigin(conns, SurvivingDirection(own, remote, conns));
    if direction == [] then None else Some(direction[|direction| - 1])
  }

  /** Positions carry over: the survivor is the last of its direction. */
  lemma SurvivorIsLastOfItsDirection(own: PeerId, remote: PeerId, conns: seq<Connection>, i: nat)
    requires forall k :: 0 <= k < |conns| ==> conns[k].peer == remote
    requires Survives(own, conns, i)
    ensures Survivor(own, remote, conns) == Some(conns[i])
  {
    var o := SurvivingDirection(own, remote, conns);
    NoneOfOrigin(conns, if Less(remote, own) then Outbound else Inbound);
    assert IsLastOf(conns, o, i);
    LastOfOrigin(conns, o, i);
  }

  lemma SurvivorIsLeft(own: PeerId, remote: PeerId, t: Table, conns: seq<Connection>)
    requires own != remote && remote !in t.connections && conns != []
    requires forall k :: 0 <= k < |conns| ==> conns[k].peer == remote
    ensures Survivor(own, remote, conns).Some?
    ensures InsertAll(own, t, conns).connections == t.connections[remote := Survivor(own, remote, conns).value]
  {
    var i := LastPreferredSurvives(own, remote, t, conns);
    SurvivorIsLastOfItsDirection(own, remote, conns, i);
  }

  lemma SurvivorDependsOnDirections(own: PeerId, remote: PeerId, xs: seq<Connection>, ys: seq<Connection>)
    requires forall o: Origin :: OfOrigin(xs, o) == OfOrigin(ys, o)
    ensures Survivor(own, remote, xs) == Survivor(own, remote, ys)
  {
  }

  /** Two orders of adding that keep each direction's own order end the same way. */
  lemma InterleavingDoesNotMatter(own: PeerId, remote: PeerId, t: Table, xs: seq<Connection>, ys: seq<Connection>)
    requires own != remote && remote !in t.connections && xs != [] && ys != []
    requires forall k :: 0 <= k < |xs| ==> xs[k].peer == remote
    requires forall k :: 0 <= k < |ys| ==> ys[k].peer == remote
    requires forall o: Origin :: OfOrigin(xs, o) == OfOrigin(ys, o)
    ensures InsertAll(own, t, xs).connections == InsertAll(own, t, ys).connections
  {
    SurvivorIsLeft(own, remote, t, xs);
    SurvivorIsLeft(own, remote, t, ys);
    SurvivorDependsOnDirections(own, remote, xs, ys);
  }

  /** The same for a node connected to itself: no end of a connection ever gives way to
      one of the other direction, so the direction that came first keeps its last. */
  lemma {:induction false} FirstDirectionSurvives(own: PeerId, t: Table, conns: seq<Connection>) returns (i: nat)
    requires own !in t.connections && conns != []
    requires forall k :: 0 <= k < |conns| ==> conns[k].peer == own
    ensures IsLastOf(conns, conns[0].origin, i)
    ensures InsertAll(own, t, conns).connections == t.connections[own := conns[i]]
  {
    var n := |conns| - 1;
    var init, last := conns[..n], conns[n];
    if n == 0 {
      assert InsertAll(own, t, init) == t;
      i := 0;
    } else {
      var k := FirstDirectionSurvives(own, t, init);
      PeerOrderIsTotal(own, own);
      i := if last.origin == conns[0].origin then n else k;
    }
  }

  /** What is last in its direction stays last however the directions interleave. */
  lemma LastOfDirectionIsSame(xs: seq<Connection>, ys: seq<Connection>, o: Origin, i: nat, j: nat)
    requires OfOrigin(xs, o) == OfOrigin(ys, o)
    requires IsLastOf(xs, o, i) && IsLastOf(ys, o, j)
    ensures xs[i] == ys[j]
  {
    LastOfOrigin(xs, o, i);
    LastOfOrigin(ys, o, j);
  }

  lemma OrderMattersToOneself(own: PeerId, t: Table, xs: seq<Connection>, ys: seq<Connection>)
    requires own !in t.connections && xs != [] && ys != []
    requires forall k :: 0 <= k < |xs| ==> xs[k].peer == own
    requires forall k :: 0 <= k < |ys| ==> ys[k].peer == own
    requires forall o: Origin :: OfOrigin(xs, o) == OfOrigin(ys, o)
    ensures InsertAll(own, t, xs).connections == InsertAll(own, t, ys).connections <==> xs[0].origin == ys[0].origin
  {
    var i := FirstDirectionSurvives(own, t, xs);
    var j := FirstDirectionSurvives(own, t, ys);
    if xs[0].origin == ys[0].origin {
      LastOfDirectionIsSame(xs, ys, xs[0].origin, i, j);
    } else {
      assert InsertAll(own, t, xs).connections[own] == xs[i];
      assert InsertAll(own, t, ys).connections[own] == ys[j];
    }
  }

  /** Of two orders of adding that keep each direction's own order, the outcome is the
      same exactly if the peer is another node or the same direction came first. */
  lemma OrderMattersOnlyToOneself(own: PeerId, remote: PeerId, t: Table, xs: seq<Connection>, ys: seq<Connection>)
    requires remote !in t.connections && xs != [] && ys != []
    requires forall k :: 0 <= k < |xs| ==> xs[k].peer == remote
    requires forall k :: 0 <= k < |ys| ==> ys[k].peer == remote
    requires forall o: Origin :: OfOrigin(xs, o) == OfOrigin(ys, o)
    ensures InsertAll(own, t, xs).connections == InsertAll(own, t, ys).connections <==>
            own != remote || xs[0].origin == ys[0].origin
  {
    if own == remote {
      OrderMattersToOneself(own, t, xs, ys);
    } else {
      InterleavingDoesNotMatter(own, remote, t, xs, ys);
    }
  }

  /** The smallest such pair of orders: the two ends of one connection with oneself. */
  lemma DialingOneselfDependsOnOrder(own: PeerId)
    ensures var i, o := Connection(own, Inbound, 0, 0), Connection(own, Outbound, 1, 1);
            InsertAll(own, EMPTY, [i, o]).connections != InsertAll(own, EMPTY, [o, i]).connections
  {
    var i, o := Connection(own, Inbound, 0, 0), Connection(own, Outbound, 1, 1);
    PeerOrderIsTotal(own, own);
    assert [i, o][..1] == [i] && [o, i][..1] == [o];
    assert InsertAll(own, EMPTY, [i]) == Insert(own, EMPTY, i) by { assert [i][..0] == []; }
    assert InsertAll(own, EMPTY, [o]) == Insert(own, EMPTY, o) by { assert [o][..0] == []; }
    assert InsertAll(own, EMPTY, [i, o]).connections[own] == i;
    assert InsertAll(own, EMPTY, [o, i]).connections[own] == o;
  }
}
