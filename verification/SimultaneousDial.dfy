/** Two nodes that dial each other. Each runs its own table and handlers; the only
    coupling is that closing a connection at one end makes the handler at the other
    end exit. Other peers come and go freely at both nodes. */
module SimultaneousDial {
  import opened Types
  import opened PeerTable
  import opened HandlerRuns

  /** The side with the greater, and the side with the lesser identity. */
  datatype Side = Greater | Lesser

  datatype Ids = Ids(greater: PeerId, lesser: PeerId) {
    function Own(s: Side): PeerId { if s.Greater? then greater else lesser }
    function Remote(s: Side): PeerId { if s.Greater? then lesser else greater }
  }

  /** A connection between the two nodes, with the stable id it has at each end. */
  datatype Link = Link(serial: nat, dialer: Side, idAtGreater: nat, idAtLesser: nat)

  /** How one side sees a link. */
  function End(ids: Ids, s: Side, k: Link): Connection {
    Connection(ids.Remote(s),
               if k.dialer == s then Outbound else Inbound,
               if s.Greater? then k.idAtGreater else k.idAtLesser,
               k.serial)
  }

  datatype Net = Net(greater: Node, lesser: Node) {
    function At(s: Side): Node { if s.Greater? then greater else lesser }

    function With(s: Side, n: Node): Net {
      if s.Greater? then this.(greater := n) else this.(lesser := n)
    }
  }

  datatype NetEvent = NetEvent(side: Side, event: Event)

  function StartNet(ids: Ids): Net {
    Net(Start(ids.greater), Start(ids.lesser))
  }

  predicate ClosedSomewhere(ids: Ids, net: Net, k: Link) {
    End(ids, Greater, k) in net.greater.table.closed || End(ids, Lesser, k) in net.lesser.table.closed
  }

  ghost predicate IsEndOf(ids: Ids, links: set<Link>, s: Side, c: Connection) {
    exists k :: k in links && End(ids, s, k) == c
  }

  /** Between the two nodes only the given links exist, nobody disconnects the other on
      request, and a handler exits only if its link was closed by either end. */
  ghost predicate CanHappen(ids: Ids, links: set<Link>, net: Net, e: NetEvent) {
    var remote := ids.Remote(e.side);
    && Enabled(net.At(e.side), e.event)
    && match e.event
       case AddPeer(c) => c.peer == remote ==> IsEndOf(ids, links, e.side, c)
       case Disconnect(p, _) => p != remote
       case HandlerExit(c, _) =>
         c.peer == remote ==> exists k :: k in links && End(ids, e.side, k) == c && ClosedSomewhere(ids, net, k)
       case HandlerJoined(_) => true
  }

  function NetStep(net: Net, e: NetEvent): Net {
    net.With(e.side, Step(net.At(e.side), e.event))
  }

  ghost predicate ValidNetRun(ids: Ids, links: set<Link>, net: Net, events: seq<NetEvent>)
    decreases events
  {
    events != [] ==>
      CanHappen(ids, links, net, events[0]) && ValidNetRun(ids, links, NetStep(net, events[0]), events[1..])
  }

  function NetRun(net: Net, events: seq<NetEvent>): Net
    decreases events
  {
    if events == [] then net else NetRun(NetStep(net, events[0]), events[1..])
  }

  ghost predicate WellFormed(ids: Ids, links: set<Link>) {
    && Less(ids.lesser, ids.greater)
    && (forall j, k :: j in links && k in links && j.serial == k.serial ==> j == k)
  }

  /** `w` wins against all others: it is the only link, or the only one dialed by the
      greater side. */
  ghost predicate Dominant(links: set<Link>, w: Link) {
    w in links && forall k :: k in links && k != w ==> w.dialer.Greater? && k.dialer.Lesser?
  }

  ghost predicate NetInv(ids: Ids, links: set<Link>, net: Net, w: Link) {
    && !ClosedSomewhere(ids, net, w)
    && (forall s: Side :: SideInv(ids, links, net.At(s), s))
  }

  ghost predicate SideInv(ids: Ids, links: set<Link>, n: Node, s: Side) {
    && n.own == ids.Own(s)
    && Inv(n)
    && forall c :: c in n.table.added && c.peer == ids.Remote(s) ==> IsEndOf(ids, links, s, c)
  }

  /** At either side a dominant link displaces, and is never displaced by, another. */
  lemma DominantWinsTies(ids: Ids, links: set<Link>, s: Side, w: Link, k: Link)
    requires WellFormed(ids, links) && Dominant(links, w) && k in links && k != w
    ensures TieBreak(ids.Own(s), ids.Remote(s), End(ids, s, k).origin, End(ids, s, w).origin)
    ensures !TieBreak(ids.Own(s), ids.Remote(s), End(ids, s, w).origin, End(ids, s, k).origin)
  {
    PeerOrderIsTotal(ids.greater, ids.lesser);
  }

  lemma EndsAreDistinct(ids: Ids, links: set<Link>, s: Side, j: Link, k: Link)
    requires WellFormed(ids, links) && j in links && k in links && j != k
    ensures End(ids, s, j) != End(ids, s, k)
  {
  }

  /** If the tie is between the dominant link and another, the dominant one stays. */
  lemma AddNeverClosesDominant(ids: Ids, links: set<Link>, n: Node, s: Side, w: Link, c: Connection)
    requires WellFormed(ids, links) && Dominant(links, w)
    requires SideInv(ids, links, n, s) && c !in n.table.added
    requires c.peer == ids.Remote(s) ==> IsEndOf(ids, links, s, c)
    requires End(ids, s, w) !in n.table.closed
    ensures End(ids, s, w) !in Insert(n.own, n.table, c).closed
  {
    if c.peer == ids.Remote(s) && c.peer in n.table.connections {
      var entry := n.table.connections[c.peer];
      assert IsEndOf(ids, links, s, entry);
      var j :| j in links && End(ids, s, j) == entry;
      var k :| k in links && End(ids, s, k) == c;
      assert j != k;
      if k == w {
        DominantWinsTies(ids, links, s, w, j);
      } else if j == w {
        DominantWinsTies(ids, links, s, w, k);
      }
    }
  }

  lemma StepKeepsSideInv(ids: Ids, links: set<Link>, n: Node, s: Side, e: Event)
    requires SideInv(ids, links, n, s) && Enabled(n, e)
    requires e.AddPeer? && e.conn.peer == ids.Remote(s) ==> IsEndOf(ids, links, s, e.conn)
    ensures SideInv(ids, links, Step(n, e), s)
  {
    StepKeepsInv(n, e);
  }

  lemma StepNeverClosesDominant(ids: Ids, links: set<Link>, net: Net, w: Link, e: NetEvent)
    requires WellFormed(ids, links) && Dominant(links, w)
    requires SideInv(ids, links, net.At(e.side), e.side) && CanHappen(ids, links, net, e)
    requires !ClosedSomewhere(ids, net, w)
    ensures End(ids, e.side, w) !in NetStep(net, e).At(e.side).table.closed
  {
    var n := net.At(e.side);
    match e.event
    case AddPeer(c) => AddNeverClosesDominant(ids, links, n, e.side, w, c);
    case Disconnect(_, _) =>
    case HandlerExit(c, reason) => ExitRemovesOnlyItsOwn(n, c, reason);
    case HandlerJoined(_) =>
  }

  lemma StepKeepsNetInv(ids: Ids, links: set<Link>, net: Net, w: Link, e: NetEvent)
    requires WellFormed(ids, links) && Dominant(links, w)
    requires NetInv(ids, links, net, w) && CanHappen(ids, links, net, e)
    ensures NetInv(ids, links, NetStep(net, e), w)
  {
    StepNeverClosesDominant(ids, links, net, w, e);
    StepKeepsSideInv(ids, links, net.At(e.side), e.side, e.event);
    var other := if e.side.Greater? then Lesser else Greater;
    assert SideInv(ids, links, net.At(other), other);
  }

  lemma {:induction false} RunKeepsNetInv(ids: Ids, links: set<Link>, net: Net, w: Link, events: seq<NetEvent>)
    requires WellFormed(ids, links) && Dominant(links, w)
    requires NetInv(ids, links, net, w) && ValidNetRun(ids, links, net, events)
    ensures NetInv(ids, links, NetRun(net, events), w)
    decreases events
  {
    if events == [] {
    } else {
      StepKeepsNetInv(ids, links, net, w, events[0]);
      RunKeepsNetInv(ids, links, NetStep(net, events[0]), w, events[1..]);
    }
  }

  /** The two sides agree: a dominant link is never closed by either side, each side
      that has added it holds it, and every other link added there is closed. */
  lemma DominantLinkIsKept(ids: Ids, links: set<Link>, w: Link, events: seq<NetEvent>)
    requires WellFormed(ids, links) && Dominant(links, w)
    requires ValidNetRun(ids, links, StartNet(ids), events)
    ensures var net := NetRun(StartNet(ids), events);
            && !ClosedSomewhere(ids, net, w)
            && forall s: Side :: End(ids, s, w) in net.At(s).table.added ==>
                 && IsEntry(net.At(s).table, End(ids, s, w))
                 && forall k :: k in links && k != w && End(ids, s, k) in net.At(s).table.added ==>
                      End(ids, s, k) in net.At(s).table.closed
  {
    var net := StartNet(ids);
    forall s: Side ensures SideInv(ids, links, net.At(s), s) {}
    RunKeepsNetInv(ids, links, net, w, events);
    net := NetRun(net, events);
    forall s: Side | End(ids, s, w) in net.At(s).table.added
      ensures IsEntry(net.At(s).table, End(ids, s, w))
      ensures forall k :: k in links && k != w && End(ids, s, k) in net.At(s).table.added ==>
                End(ids, s, k) in net.At(s).table.closed
    {
      assert SideInv(ids, links, net.At(s), s);
    }
  }

  /** Once all links are added and the handlers of closed links have exited, the dominant
      link is the only one that is still served, at both sides. */
  lemma OnlyDominantIsServed(ids: Ids, links: set<Link>, w: Link, events: seq<NetEvent>)
    requires WellFormed(ids, links) && Dominant(links, w)
    requires ValidNetRun(ids, links, StartNet(ids), events)
    requires AllAdded(ids, links, NetRun(StartNet(ids), events))
    requires forall s: Side, k :: k in links && ClosedSomewhere(ids, NetRun(StartNet(ids), events), k) ==>
               End(ids, s, k) !in NetRun(StartNet(ids), events).At(s).running
    ensures forall s: Side, k :: k in links ==>
              (End(ids, s, k) in NetRun(StartNet(ids), events).At(s).running <==> k == w)
  {
    var net := NetRun(StartNet(ids), events);
    DominantLinkIsKept(ids, links, w, events);
    forall s: Side ensures SideInv(ids, links, StartNet(ids).At(s), s) {}
    RunKeepsNetInv(ids, links, StartNet(ids), w, events);
    forall s: Side, k | k in links ensures End(ids, s, k) in net.At(s).running <==> k == w {
      assert SideInv(ids, links, net.At(s), s);
      assert End(ids, s, w) in net.At(s).table.added;
      if k != w {
        assert End(ids, s, k) in net.At(s).table.closed;
        assert ClosedSomewhere(ids, net, k);
      }
    }
  }

  // ------------------------------------------- what happens without dominance

  ghost predicate AllAdded(ids: Ids, links: set<Link>, net: Net) {
    forall s: Side, k :: k in links ==> End(ids, s, k) in net.At(s).table.added
  }

  /** Both sides hold the link and neither has closed it. */
  predicate HeldByBoth(ids: Ids, net: Net, k: Link) {
    && !ClosedSomewhere(ids, net, k)
    && IsEntry(net.greater.table, End(ids, Greater, k))
    && IsEntry(net.lesser.table, End(ids, Lesser, k))
  }

  ghost predicate IdsDistinctAtBothEnds(links: set<Link>) {
    forall j, k :: j in links && k in links && j != k ==>
      j.idAtGreater != k.idAtGreater && j.idAtLesser != k.idAtLesser
  }

  function Ends(ids: Ids, s: Side, order: seq<Link>): (conns: seq<Connection>)
    ensures |conns| == |order| && forall i :: 0 <= i < |order| ==> conns[i] == End(ids, s, order[i])
  {
    seq(|order|, i requires 0 <= i < |order| => End(ids, s, order[i]))
  }

  function Adds(ids: Ids, s: Side, order: seq<Link>): (events: seq<NetEvent>)
    ensures |events| == |order|
    ensures forall i :: 0 <= i < |order| ==> events[i] == NetEvent(s, AddPeer(End(ids, s, order[i])))
  {
    seq(|order|, i requires 0 <= i < |order| => NetEvent(s, AddPeer(End(ids, s, order[i]))))
  }

  lemma {:induction false} NetRunComposes(ids: Ids, links: set<Link>, net: Net, first: seq<NetEvent>,
                                          second: seq<NetEvent>)
    ensures NetRun(net, first + second) == NetRun(NetRun(net, first), second)
    ensures ValidNetRun(ids, links, net, first + second) <==>
            ValidNetRun(ids, links, net, first) && ValidNetRun(ids, links, NetRun(net, first), second)
    decreases first
  {
    if first == [] {
      assert first + second == second;
    } else {
      assert (first + second)[0] == first[0] && (first + second)[1..] == first[1..] + second;
      NetRunComposes(ids, links, NetStep(net, first[0]), first[1..], second);
    }
  }

  /** The node has added exactly the given links, in this order, and nothing else. */
  ghost predicate HasAdded(ids: Ids, s: Side, order: seq<Link>, n: Node) {
    && n.own == ids.Own(s) && n.ending == {} && n.running <= n.table.added
    && Conserved(n.table)
    && n.table == InsertAll(ids.Own(s), EMPTY, Ends(ids, s, order))
    && forall c :: c in n.table.added <==> c in Ends(ids, s, order)
  }

  lemma NextIsNew(ids: Ids, links: set<Link>, s: Side, order: seq<Link>, n: Node, k: Link)
    requires WellFormed(ids, links) && IdsDistinctAtBothEnds(links)
    requires k in links && k !in order && forall i :: 0 <= i < |order| ==> order[i] in links
    requires HasAdded(ids, s, order, n)
    ensures Enabled(n, AddPeer(End(ids, s, k)))
  {
    forall d | d in n.table.added
      ensures d != End(ids, s, k) && d.stableId != End(ids, s, k).stableId
    {
      var before := Ends(ids, s, order);
      var i :| 0 <= i < |before| && before[i] == d;
      assert order[i] in order;
    }
  }

  lemma AddingOneMore(ids: Ids, s: Side, order: seq<Link>, n: Node, k: Link)
    requires HasAdded(ids, s, order, n) && Enabled(n, AddPeer(End(ids, s, k)))
    ensures HasAdded(ids, s, order + [k], Step(n, AddPeer(End(ids, s, k))))
  {
    var c := End(ids, s, k);
    var before, after := Ends(ids, s, order), Ends(ids, s, order + [k]);
    assert after == before + [c];
    assert after[..|order|] == before;
    InsertConserves(ids.Own(s), n.table, c);
    assert InsertAll(ids.Own(s), EMPTY, after) == Insert(ids.Own(s), n.table, c);
    assert forall d :: d in after <==> d in before || d == c;
  }

  /** One side adds the given links in the given order, before anything else there. */
  lemma {:induction false} AddingInOrder(ids: Ids, links: set<Link>, net: Net, s: Side, order: seq<Link>)
    requires WellFormed(ids, links) && IdsDistinctAtBothEnds(links)
    requires net.At(s) == Start(ids.Own(s))
    requires forall i :: 0 <= i < |order| ==> order[i] in links
    requires forall i, j :: 0 <= i < j < |order| ==> order[i] != order[j]
    ensures ValidNetRun(ids, links, net, Adds(ids, s, order))
    ensures NetRun(net, Adds(ids, s, order)) == net.With(s, NetRun(net, Adds(ids, s, order)).At(s))
    ensures HasAdded(ids, s, order, NetRun(net, Adds(ids, s, order)).At(s))
  {
    if order == [] {
      assert net == net.With(s, net.At(s));
    } else {
      var init, k := order[..|order| - 1], order[|order| - 1];
      AddingInOrder(ids, links, net, s, init);
      var e := NetEvent(s, AddPeer(End(ids, s, k)));
      var mid := NetRun(net, Adds(ids, s, init));
      NextIsNew(ids, links, s, init, mid.At(s), k);
      AddingOneMore(ids, s, init, mid.At(s), k);
      assert init + [k] == order;
      assert IsEndOf(ids, links, s, End(ids, s, k));
      assert Adds(ids, s, order) == Adds(ids, s, init) + [e];
      SingleStep(ids, links, mid, e);
      NetRunComposes(ids, links, net, Adds(ids, s, init), [e]);
    }
  }

  lemma SingleStep(ids: Ids, links: set<Link>, net: Net, e: NetEvent)
    ensures NetRun(net, [e]) == NetStep(net, e)
    ensures ValidNetRun(ids, links, net, [e]) <==> CanHappen(ids, links, net, e)
  {
    assert [e][1..] == [];
  }

  lemma {:induction false} Enumerate(links: set<Link>) returns (order: seq<Link>)
    ensures forall k :: k in links <==> k in order
    ensures forall i, j :: 0 <= i < j < |order| ==> order[i] != order[j]
    decreases |links|
  {
    if links == {} {
      order := [];
    } else {
      var k :| k in links;
      var rest := Enumerate(links - {k});
      order := rest + [k];
    }
  }

  /** A side that adds all links, `w` last, ends up holding `w` and closing the others,
      provided `w` was dialed by the greater side or no link was. */
  lemma AddingLastWins(ids: Ids, links: set<Link>, net: Net, s: Side, w: Link) returns (events: seq<NetEvent>)
    requires WellFormed(ids, links) && IdsDistinctAtBothEnds(links) && w in links
    requires w.dialer.Greater? || forall k :: k in links ==> k.dialer.Lesser?
    requires net.At(s) == Start(ids.Own(s))
    ensures ValidNetRun(ids, links, net, events)
    ensures var n := NetRun(net, events).At(s);
            && NetRun(net, events) == net.With(s, n)
            && (forall k :: k in links ==> End(ids, s, k) in n.table.added)
            && (forall k :: k in links && k != w ==> End(ids, s, k) in n.table.closed)
  {
    PeerOrderIsTotal(ids.greater, ids.lesser);
    var rest := Enumerate(links - {w});
    var order := rest + [w];
    forall i | 0 <= i < |order| ensures order[i] in links {
      if i < |rest| { assert rest[i] in rest; }
    }
    var conns := Ends(ids, s, order);
    AddingInOrder(ids, links, net, s, order);
    events := Adds(ids, s, order);
    var i := LastPreferredSurvives(ids.Own(s), ids.Remote(s), EMPTY, conns);
    assert order[i] in links;
    assert DialedByGreater(ids.Own(s), conns[i]) <==> order[i].dialer.Greater?;
    assert DialedByGreater(ids.Own(s), conns[|rest|]) <==> w.dialer.Greater?;
    assert conns[i] == End(ids, s, w);
    var n := NetRun(net, events).At(s);
    forall k | k in links
      ensures End(ids, s, k) in n.table.added && (k != w ==> End(ids, s, k) in n.table.closed)
    {
      assert k in order by {
        if k == w { assert order[|rest|] == w; } else { assert k in rest; }
      }
      var j :| 0 <= j < |order| && order[j] == k;
      assert conns[j] in conns;
      if k != w { EndsAreDistinct(ids, links, s, k, w); }
    }
  }

  /** Agreement is guaranteed exactly if there is a dominant link: otherwise two links
      with equal claims can be added in opposite orders, and each side closes the one
      that the other keeps. */
  lemma AgreementExactlyIfDominant(ids: Ids, links: set<Link>)
    requires WellFormed(ids, links) && IdsDistinctAtBothEnds(links) && links != {}
    ensures (exists w :: Dominant(links, w)) <==>
            (forall events ::
               ValidNetRun(ids, links, StartNet(ids), events) && AllAdded(ids, links, NetRun(StartNet(ids), events)) ==>
               exists k :: k in links && HeldByBoth(ids, NetRun(StartNet(ids), events), k))
  {
    var start := StartNet(ids);
    if w :| Dominant(links, w) {
      forall events | ValidNetRun(ids, links, start, events) && AllAdded(ids, links, NetRun(start, events))
        ensures HeldByBoth(ids, NetRun(start, events), w)
      {
        DominantLinkIsKept(ids, links, w, events);
        assert start.At(Greater) == start.greater;
      }
    } else {
      var v, w := EqualClaims(links);
      var first := AddingLastWins(ids, links, start, Greater, v);
      var mid := NetRun(start, first);
      var second := AddingLastWins(ids, links, mid, Lesser, w);
      var events := first + second;
      NetRunComposes(ids, links, start, first, second);
      var end := NetRun(start, events);
      assert end.greater == mid.greater;
      assert AllAdded(ids, links, end);
      forall k | k in links ensures ClosedSomewhere(ids, end, k) {}
    }
  }

  lemma EqualClaims(links: set<Link>) returns (v: Link, w: Link)
    requires links != {} && !exists k :: Dominant(links, k)
    ensures v in links && w in links && v != w
    ensures v.dialer == w.dialer
    ensures v.dialer.Greater? || forall k :: k in links ==> k.dialer.Lesser?
  {
    if g :| g in links && g.dialer.Greater? {
      v := g;
    } else {
      v :| v in links;
    }
    assert !Dominant(links, v);
    w :| w in links && w != v && !(v.dialer.Greater? && w.dialer.Lesser?);
  }
}
