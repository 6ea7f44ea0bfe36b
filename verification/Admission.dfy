/** Admission of inbound connections: the limit is checked when a connection comes in,
    but the connection is added to the table only after its handshake. */
module Admission {
  import opened Types
  import opened PeerTable
  import Encoding
  import HandlerRuns

  datatype Verdict = Bypass | Passed | RejectedNever | RejectedLimit

  /** What the incoming task decides, given what is known of the peer, the configured
      limit and the number of active peers. */
  function Decide(known: Option<PeerInfo>, limit: Option<nat>, active: nat): Verdict {
    match known
    case Some(PeerInfo(_, High, _)) => Bypass
    case Some(PeerInfo(_, Allowed, _)) => Bypass
    case Some(PeerInfo(_, Never, _)) => RejectedNever
    case None =>
      if limit.Some? && active >= limit.value then RejectedLimit else Passed
  }

  /** The decision in terms of what is known, each verdict in its own right. */
  lemma DecisionIsExact(known: Option<PeerInfo>, limit: Option<nat>, active: nat)
    ensures Decide(known, limit, active).RejectedNever? <==> known.Some? && known.value.affinity == Never
    ensures Decide(known, limit, active).Bypass? <==> known.Some? && known.value.affinity != Never
    ensures Decide(known, limit, active).RejectedLimit? <==> known.None? && limit.Some? && limit.value <= active
    ensures Decide(known, limit, active).Passed? <==> known.None? && (limit.Some? ==> active < limit.value)
  {
  }

  /** `inflight`: connections that passed the limit check and are not added yet.
      `checked`: all connections that ever passed it. */
  datatype Gate = Gate(own: PeerId, table: Table, inflight: set<Connection>, checked: set<Connection>)

  datatype Event =
    | Arrive(conn: Connection, known: Option<PeerInfo>)
    | Abandon(conn: Connection)
    | AddChecked(conn: Connection)
    | AddOther(conn: Connection)
    | Leave(peer: PeerId, reason: DisconnectReason)
    | HandlerExit(conn: Connection, reason: DisconnectReason)

  function Open(own: PeerId): Gate {
    Gate(own, EMPTY, {}, {})
  }

  /** At most `parallel` checked connections are between check and add at once. Dials and
      inbound connections of known peers are added by AddOther at any time. */
  ghost predicate Enabled(g: Gate, limit: nat, parallel: nat, e: Event) {
    && EnvironmentAllows(g, e)
    && |Step(g, limit, e).inflight| <= parallel
  }

  /** Each connection arrives or is added once, and when it is added its stable id differs
      from those of the current connections. */
  ghost predicate EnvironmentAllows(g: Gate, e: Event) {
    match e
    case Arrive(c, known) => c !in g.table.added && c !in g.checked
    case Abandon(c) => c in g.inflight
    case AddChecked(c) => c in g.inflight && c !in g.table.added && IdIsFree(g.table, c)
    case AddOther(c) => c !in g.table.added && c !in g.checked && IdIsFree(g.table, c)
    case Leave(_, _) => true
    case HandlerExit(_, _) => true
  }

  ghost predicate IdIsFree(t: Table, c: Connection) {
    forall p :: p in t.connections ==> t.connections[p].stableId != c.stableId
  }

  function Step(g: Gate, limit: nat, e: Event): Gate {
    match e
    case Arrive(c, known) =>
      if Decide(known, Some(limit), |g.table.connections|).Passed? then
        g.(inflight := g.inflight + {c}, checked := g.checked + {c})
      else
        g
    case Abandon(c) => g.(inflight := g.inflight - {c})
    case AddChecked(c) => g.(inflight := g.inflight - {c}, table := Insert(g.own, g.table, c))
    case AddOther(c) => g.(table := Insert(g.own, g.table, c))
    case Leave(p, reason) => g.(table := Remove(g.table, p, reason))
    case HandlerExit(c, reason) => g.(table := RemoveWithStableId(g.table, c.peer, c.stableId, reason))
  }

  ghost predicate ValidRun(g: Gate, limit: nat, parallel: nat, events: seq<Event>)
    decreases events
  {
    events != [] ==>
      Enabled(g, limit, parallel, events[0]) && ValidRun(Step(g, limit, events[0]), limit, parallel, events[1..])
  }

  function Run(g: Gate, limit: nat, events: seq<Event>): Gate
    decreases events
  {
    if events == [] then g else Run(Step(g, limit, events[0]), limit, events[1..])
  }

  /** Peers whose current connection had to pass the limit check. */
  function ActiveChecked(g: Gate): set<PeerId> {
    set p | p in g.table.connections && g.table.connections[p] in g.checked
  }

  ghost predicate GateInv(g: Gate) {
    && g.inflight <= g.checked
    && forall p :: p in g.table.connections ==> g.table.connections[p] in g.table.added
  }

  function Load(g: Gate): nat {
    |ActiveChecked(g)| + |g.inflight|
  }

  lemma SmallerSet<T>(a: set<T>, b: set<T>)
    requires a <= b
    ensures |a| <= |b|
  {
    assert b == a + (b - a);
  }

  /** Only passing the check adds to the load. */
  lemma OtherStepsAddNoLoad(g: Gate, limit: nat, e: Event)
    requires GateInv(g) && !e.Arrive?
    requires e.AddOther? ==> e.conn !in g.checked
    requires e.Abandon? || e.AddChecked? ==> e.conn in g.inflight
    ensures Load(Step(g, limit, e)) <= Load(g)
  {
    var h := Step(g, limit, e);
    match e
    case Abandon(c) =>
      assert ActiveChecked(h) == ActiveChecked(g);
      SmallerSet(h.inflight, g.inflight);
    case AddChecked(c) =>
      SmallerSet(ActiveChecked(h) - {c.peer}, ActiveChecked(g));
      SmallerSet(ActiveChecked(h), (ActiveChecked(h) - {c.peer}) + {c.peer});
      assert |h.inflight| == |g.inflight| - 1;
    case AddOther(c) => SmallerSet(ActiveChecked(h), ActiveChecked(g));
    case Leave(_, _) => SmallerSet(ActiveChecked(h), ActiveChecked(g));
    case HandlerExit(_, _) => SmallerSet(ActiveChecked(h), ActiveChecked(g));
  }

  /** When the check passes, fewer than `limit` peers are active at all. */
  lemma PassingBoundsLoad(g: Gate, limit: nat, parallel: nat, c: Connection, known: Option<PeerInfo>)
    requires GateInv(g) && Enabled(g, limit, parallel, Arrive(c, known))
    ensures var h := Step(g, limit, Arrive(c, known));
            Load(h) == Load(g) || (limit > 0 && Load(h) <= limit - 1 + parallel)
  {
    var h := Step(g, limit, Arrive(c, known));
    if h != g {
      assert ActiveChecked(h) == ActiveChecked(g) by {
        assert forall p :: p in g.table.connections ==> g.table.connections[p] != c;
      }
      SmallerSet(ActiveChecked(g), g.table.connections.Keys);
      assert |g.table.connections.Keys| == |g.table.connections|;
    }
  }

  ghost predicate WithinBound(g: Gate, limit: nat, parallel: nat) {
    Load(g) <= if limit == 0 then 0 else limit - 1 + parallel
  }

  lemma {:induction false} RunKeepsBound(g: Gate, limit: nat, parallel: nat, events: seq<Event>)
    requires GateInv(g) && WithinBound(g, limit, parallel) && ValidRun(g, limit, parallel, events)
    ensures GateInv(Run(g, limit, events)) && WithinBound(Run(g, limit, events), limit, parallel)
    decreases events
  {
    if events == [] {
    } else {
      var e := events[0];
      if e.Arrive? {
        PassingBoundsLoad(g, limit, parallel, e.conn, e.known);
      } else {
        OtherStepsAddNoLoad(g, limit, e);
      }
      RunKeepsBound(Step(g, limit, e), limit, parallel, events[1..]);
    }
  }

  /** The overshoot that the code admits is bounded: active connections that had to pass
      the check, together with those in flight, never exceed limit - 1 + parallel, whatever
      other traffic does; serial admission keeps the limit and limit 0 admits none. */
  lemma OvershootIsBounded(own: PeerId, limit: nat, parallel: nat, events: seq<Event>)
    requires ValidRun(Open(own), limit, parallel, events)
    ensures var g := Run(Open(own), limit, events);
            if limit == 0 then ActiveChecked(g) == {} && g.inflight == {}
            else |ActiveChecked(g)| + |g.inflight| <= limit - 1 + parallel
  {
    assert ActiveChecked(Open(own)) == {};
    RunKeepsBound(Open(own), limit, parallel, events);
  }

  /** Terminating all connections in progress is a run that abandons one after the other. */
  lemma {:induction false} AbandonAll(g: Gate, limit: nat, parallel: nat) returns (events: seq<Event>)
    requires |g.inflight| <= parallel
    ensures ValidRun(g, limit, parallel, events) && Run(g, limit, events) == g.(inflight := {})
    decreases |g.inflight|
  {
    if c :| c in g.inflight {
      var rest := AbandonAll(Step(g, limit, Abandon(c)), limit, parallel);
      events := [Abandon(c)] + rest;
      assert events[1..] == rest;
    } else {
      events := [];
    }
  }

  // ------------------------------------------------------- the bound is attained

  lemma {:induction false} RunComposes(g: Gate, limit: nat, parallel: nat, first: seq<Event>, second: seq<Event>)
    ensures Run(g, limit, first + second) == Run(Run(g, limit, first), limit, second)
    ensures ValidRun(g, limit, parallel, first + second) <==>
            ValidRun(g, limit, parallel, first) && ValidRun(Run(g, limit, first), limit, parallel, second)
    decreases first
  {
    if first == [] {
      assert first + second == second;
    } else {
      assert (first + second)[0] == first[0] && (first + second)[1..] == first[1..] + second;
      RunComposes(Step(g, limit, first[0]), limit, parallel, first[1..], second);
    }
  }

  /** The key of a peer, read as a number, tells its connection from all others. */
  function Guest(p: PeerId): Connection {
    Connection(p, Inbound, Encoding.FromLittleEndian(p), Encoding.FromLittleEndian(p))
  }

  lemma GuestsDiffer(p: PeerId, q: PeerId)
    requires p != q
    ensures Guest(p).stableId != Guest(q).stableId && Guest(p).serial != Guest(q).serial
  {
    if Encoding.FromLittleEndian(p) == Encoding.FromLittleEndian(q) {
      Encoding.FromLittleEndianIsInjective(p, q);
    }
  }

  function Guests(peers: set<PeerId>): set<Connection> {
    set p | p in peers :: Guest(p)
  }

  lemma GuestsWith(peers: set<PeerId>, p: PeerId)
    ensures Guests(peers + {p}) == Guests(peers) + {Guest(p)}
    ensures Guest(p) in Guests(peers) <==> p in peers
  {
  }

  lemma GuestsWithout(peers: set<PeerId>, p: PeerId)
    requires p in peers
    ensures Guests(peers - {p}) == Guests(peers) - {Guest(p)}
  {
  }

  lemma {:induction false} CountGuests(peers: set<PeerId>)
    ensures |Guests(peers)| == |peers|
  {
    if p :| p in peers {
      CountGuests(peers - {p});
      GuestsWithout(peers, p);
      assert Guest(p) in Guests(peers);
    }
  }

  /** Guests of the peers `inside` were admitted, those of `waiting` are in flight, and
      nothing else has happened. */
  ghost predicate Holds(g: Gate, inside: set<PeerId>, waiting: set<PeerId>) {
    && inside !! waiting
    && g.table.connections.Keys == inside
    && g.table.added == Guests(inside)
    && g.inflight == Guests(waiting)
    && g.checked == Guests(inside + waiting)
    && forall p :: p in inside ==> g.table.connections[p] == Guest(p)
  }

  lemma GuestPasses(g: Gate, limit: nat, c: Connection)
    requires |g.table.connections.Keys| < limit
    ensures Step(g, limit, Arrive(c, None)) == g.(inflight := g.inflight + {c}, checked := g.checked + {c})
  {
    assert |g.table.connections| == |g.table.connections.Keys|;
  }

  lemma HoldsAfterPass(g: Gate, inside: set<PeerId>, waiting: set<PeerId>, p: PeerId, queue: set<PeerId>)
    requires Holds(g, inside, waiting) && p !in inside && queue == waiting + {p}
    ensures Holds(g.(inflight := g.inflight + {Guest(p)}, checked := g.checked + {Guest(p)}), inside, queue)
  {
    GuestsWith(waiting, p);
    GuestsWith(inside + waiting, p);
    assert inside + queue == (inside + waiting) + {p};
  }

  lemma StrangerMayArrive(g: Gate, inside: set<PeerId>, waiting: set<PeerId>, p: PeerId)
    requires Holds(g, inside, waiting) && p !in inside && p !in waiting
    ensures Guest(p) !in g.table.added && Guest(p) !in g.checked
  {
    GuestsWith(inside, p);
    GuestsWith(inside + waiting, p);
  }

  /** One more peer passes the check, so that those of `queue` are waiting. */
  lemma PassOne(g: Gate, limit: nat, parallel: nat, inside: set<PeerId>, waiting: set<PeerId>, p: PeerId,
                queue: set<PeerId>)
    requires Holds(g, inside, waiting) && p !in inside && p !in waiting && queue == waiting + {p}
    requires |inside| < limit && |queue| <= parallel
    ensures var e := Arrive(Guest(p), None);
            Enabled(g, limit, parallel, e) && Holds(Step(g, limit, e), inside, queue)
  {
    GuestPasses(g, limit, Guest(p));
    StrangerMayArrive(g, inside, waiting, p);
    HoldsAfterPass(g, inside, waiting, p, queue);
    CountGuests(queue);
  }

  lemma HoldsAfterAdd(g: Gate, t: Table, inside: set<PeerId>, waiting: set<PeerId>, p: PeerId, guests: set<PeerId>)
    requires Holds(g, inside, waiting) && p in waiting && guests == inside + {p}
    requires t.connections == g.table.connections[p := Guest(p)] && t.added == g.table.added + {Guest(p)}
    ensures Holds(g.(inflight := g.inflight - {Guest(p)}, table := t), guests, waiting - {p})
  {
    GuestsWith(inside, p);
    GuestsWithout(waiting, p);
    assert guests + (waiting - {p}) == inside + waiting;
  }

  lemma GuestMayBeAdded(g: Gate, inside: set<PeerId>, waiting: set<PeerId>, p: PeerId)
    requires Holds(g, inside, waiting) && p in waiting
    ensures Guest(p) !in g.table.added && IdIsFree(g.table, Guest(p))
  {
    GuestsWith(inside, p);
    forall q | q in inside ensures g.table.connections[q].stableId != Guest(p).stableId {
      GuestsDiffer(p, q);
    }
  }

  /** One waiting peer is added, so that those of `guests` are inside. */
  lemma AdmitOne(g: Gate, limit: nat, parallel: nat, inside: set<PeerId>, waiting: set<PeerId>, p: PeerId,
                 guests: set<PeerId>)
    requires Holds(g, inside, waiting) && p in waiting && |waiting| <= parallel && guests == inside + {p}
    ensures var e := AddChecked(Guest(p));
            Enabled(g, limit, parallel, e) && Holds(Step(g, limit, e), guests, waiting - {p})
  {
    GuestsWith(waiting, p);
    GuestMayBeAdded(g, inside, waiting, p);
    HoldsAfterAdd(g, Insert(g.own, g.table, Guest(p)), inside, waiting, p, guests);
    CountGuests(waiting - {p});
  }

  lemma ThenOne(g: Gate, limit: nat, parallel: nat, events: seq<Event>, e: Event)
    requires ValidRun(g, limit, parallel, events) && Enabled(Run(g, limit, events), limit, parallel, e)
    ensures ValidRun(g, limit, parallel, events + [e])
    ensures Run(g, limit, events + [e]) == Step(Run(g, limit, events), limit, e)
  {
    assert [e][1..] == [];
    RunComposes(g, limit, parallel, events, [e]);
  }

  predicate IsGuestEvent(e: Event) {
    (e.Arrive? || e.AddChecked?) && e.conn == Guest(e.conn.peer)
  }

  /** Nothing happens but that guests arrive and are added. */
  ghost predicate OnlyGuests(events: seq<Event>) {
    forall e :: e in events ==> IsGuestEvent(e)
  }

  lemma OnlyGuestsConcat(first: seq<Event>, second: seq<Event>)
    requires OnlyGuests(first) && OnlyGuests(second)
    ensures OnlyGuests(first + second)
  {
  }

  lemma OnlyGuestsThen(events: seq<Event>, e: Event)
    requires OnlyGuests(events) && IsGuestEvent(e)
    ensures OnlyGuests(events + [e]) && OnlyGuests([e] + events)
  {
  }

  lemma PassThenAdmitOne(own: PeerId, limit: nat, parallel: nat, events: seq<Event>, inside: set<PeerId>, p: PeerId,
                         guests: set<PeerId>)
    requires ValidRun(Open(own), limit, parallel, events) && Holds(Run(Open(own), limit, events), inside, {})
    requires p !in inside && guests == inside + {p} && |inside| < limit && parallel > 0 && OnlyGuests(events)
    ensures var more := events + [Arrive(Guest(p), None)] + [AddChecked(Guest(p))];
            && ValidRun(Open(own), limit, parallel, more) && OnlyGuests(more)
            && Holds(Run(Open(own), limit, more), guests, {})
  {
    OnlyGuestsThen(events, Arrive(Guest(p), None));
    OnlyGuestsThen(events + [Arrive(Guest(p), None)], AddChecked(Guest(p)));
    var g := Run(Open(own), limit, events);
    PassOne(g, limit, parallel, inside, {}, p, {p});
    ThenOne(Open(own), limit, parallel, events, Arrive(Guest(p), None));
    AdmitOne(Step(g, limit, Arrive(Guest(p), None)), limit, parallel, inside, {p}, p, guests);
    ThenOne(Open(own), limit, parallel, events + [Arrive(Guest(p), None)], AddChecked(Guest(p)));
    assert {p} - {p} == {};
  }

  /** One after the other the peers pass the check and are added. */
  lemma {:induction false} AdmitSerially(own: PeerId, limit: nat, parallel: nat, peers: set<PeerId>)
    returns (events: seq<Event>)
    requires |peers| < limit && parallel > 0
    ensures ValidRun(Open(own), limit, parallel, events)
    ensures Holds(Run(Open(own), limit, events), peers, {}) && OnlyGuests(events)
    decreases |peers|
  {
    if p :| p in peers {
      var first := AdmitSerially(own, limit, parallel, peers - {p});
      PassThenAdmitOne(own, limit, parallel, first, peers - {p}, p, peers);
      events := first + [Arrive(Guest(p), None)] + [AddChecked(Guest(p))];
    } else {
      events := [];
    }
  }

  lemma PassOneMore(own: PeerId, limit: nat, parallel: nat, events: seq<Event>, inside: set<PeerId>,
                    waiting: set<PeerId>, p: PeerId, queue: set<PeerId>)
    requires ValidRun(Open(own), limit, parallel, events) && Holds(Run(Open(own), limit, events), inside, waiting)
    requires p !in inside && p !in waiting && queue == waiting + {p}
    requires |inside| < limit && |queue| <= parallel && OnlyGuests(events)
    ensures var more := events + [Arrive(Guest(p), None)];
            && ValidRun(Open(own), limit, parallel, more) && OnlyGuests(more)
            && Holds(Run(Open(own), limit, more), inside, queue)
  {
    OnlyGuestsThen(events, Arrive(Guest(p), None));
    PassOne(Run(Open(own), limit, events), limit, parallel, inside, waiting, p, queue);
    ThenOne(Open(own), limit, parallel, events, Arrive(Guest(p), None));
  }

  /** All the peers pass the check before any of them is added. */
  lemma {:induction false} PassTogether(own: PeerId, limit: nat, parallel: nat, inside: set<PeerId>,
                                        peers: set<PeerId>)
    returns (events: seq<Event>)
    requires |inside| < limit && |peers| <= parallel && parallel > 0 && inside !! peers
    ensures ValidRun(Open(own), limit, parallel, events)
    ensures Holds(Run(Open(own), limit, events), inside, peers) && OnlyGuests(events)
    decreases |peers|
  {
    if p :| p in peers {
      var first := PassTogether(own, limit, parallel, inside, peers - {p});
      PassOneMore(own, limit, parallel, first, inside, peers - {p}, p, peers);
      events := first + [Arrive(Guest(p), None)];
    } else {
      events := AdmitSerially(own, limit, parallel, inside);
    }
  }

  lemma AdmitOneMore(g: Gate, limit: nat, parallel: nat, events: seq<Event>, inside: set<PeerId>,
                     waiting: set<PeerId>, p: PeerId, guests: set<PeerId>, queue: set<PeerId>)
    requires ValidRun(g, limit, parallel, events) && Holds(Run(g, limit, events), inside, waiting)
    requires p in waiting && |waiting| <= parallel && guests == inside + {p} && queue == waiting - {p}
    requires OnlyGuests(events)
    ensures var more := events + [AddChecked(Guest(p))];
            && ValidRun(g, limit, parallel, more) && OnlyGuests(more)
            && Holds(Run(g, limit, more), guests, queue)
  {
    OnlyGuestsThen(events, AddChecked(Guest(p)));
    AdmitOne(Run(g, limit, events), limit, parallel, inside, waiting, p, guests);
    ThenOne(g, limit, parallel, events, AddChecked(Guest(p)));
  }

  lemma MovingOneMore(inside: set<PeerId>, waiting: set<PeerId>, moved: set<PeerId>, p: PeerId)
    requires p in moved && moved <= waiting
    ensures inside + moved == (inside + (moved - {p})) + {p}
    ensures waiting - moved == (waiting - (moved - {p})) - {p}
    ensures p in waiting - (moved - {p}) && |waiting - (moved - {p})| <= |waiting|
  {
    SmallerSet(waiting - (moved - {p}), waiting);
  }

  lemma AddLast(g: Gate, limit: nat, parallel: nat, events: seq<Event>, inside: set<PeerId>, waiting: set<PeerId>,
                moved: set<PeerId>, p: PeerId)
    requires |waiting| <= parallel && p in moved && moved <= waiting
    requires ValidRun(g, limit, parallel, events) && OnlyGuests(events)
    requires Holds(Run(g, limit, events), inside + (moved - {p}), waiting - (moved - {p}))
    ensures var more := events + [AddChecked(Guest(p))];
            && ValidRun(g, limit, parallel, more) && OnlyGuests(more)
            && Holds(Run(g, limit, more), inside + moved, waiting - moved)
  {
    var rest := moved - {p};
    MovingOneMore(inside, waiting, moved, p);
    AdmitOneMore(g, limit, parallel, events, inside + rest, waiting - rest, p, inside + moved, waiting - moved);
  }

  /** Those of `moved` are added one after the other. */
  lemma {:induction false} AddTogether(g: Gate, limit: nat, parallel: nat, inside: set<PeerId>, waiting: set<PeerId>,
                                       moved: set<PeerId>)
    returns (events: seq<Event>)
    requires Holds(g, inside, waiting) && |waiting| <= parallel && moved <= waiting
    ensures ValidRun(g, limit, parallel, events)
    ensures Holds(Run(g, limit, events), inside + moved, waiting - moved) && OnlyGuests(events)
    decreases |moved|
  {
    if p :| p in moved {
      var first := AddTogether(g, limit, parallel, inside, waiting, moved - {p});
      AddLast(g, limit, parallel, first, inside, waiting, moved, p);
      events := first + [AddChecked(Guest(p))];
    } else {
      events := [];
      assert inside + moved == inside && waiting - moved == waiting;
    }
  }

  /** The run as the node's table and its handlers see it. */
  function NodeEvents(events: seq<Event>): seq<HandlerRuns.Event> {
    if events == [] then []
    else if events[0].AddChecked? then [HandlerRuns.AddPeer(events[0].conn)] + NodeEvents(events[1..])
    else NodeEvents(events[1..])
  }

  /** A node to which nothing but guests was added, and the gate in front of it. */
  ghost predicate ServesGuests(n: HandlerRuns.Node, g: Gate) {
    && n.own == g.own && n.table == g.table
    && n.ending == {} && n.running <= n.table.added
    && forall c :: c in n.table.added ==> c == Guest(c.peer)
  }

  lemma GuestIsNewToNode(n: HandlerRuns.Node, g: Gate, c: Connection)
    requires ServesGuests(n, g) && c == Guest(c.peer) && c !in g.table.added
    ensures HandlerRuns.Enabled(n, HandlerRuns.AddPeer(c))
  {
    forall h | h in n.running + n.ending ensures h.stableId != c.stableId {
      assert h == Guest(h.peer) && h != c;
      GuestsDiffer(h.peer, c.peer);
    }
  }

  lemma {:induction false} GuestsAreARunOfTheNode(n: HandlerRuns.Node, g: Gate, limit: nat, parallel: nat,
                                                  events: seq<Event>)
    requires ServesGuests(n, g) && ValidRun(g, limit, parallel, events) && OnlyGuests(events)
    ensures HandlerRuns.ValidRun(n, NodeEvents(events))
    ensures HandlerRuns.Run(n, NodeEvents(events)).table == Run(g, limit, events).table
    decreases events
  {
    if events == [] {
    } else {
      var e, h := events[0], Step(g, limit, events[0]);
      assert IsGuestEvent(e) && OnlyGuests(events[1..]);
      if e.AddChecked? {
        GuestIsNewToNode(n, g, e.conn);
        var m := HandlerRuns.Step(n, HandlerRuns.AddPeer(e.conn));
        GuestsAreARunOfTheNode(m, h, limit, parallel, events[1..]);
        assert NodeEvents(events)[1..] == NodeEvents(events[1..]);
      } else {
        GuestsAreARunOfTheNode(n, h, limit, parallel, events[1..]);
      }
    }
  }

  lemma AllInsideAreActive(g: Gate, inside: set<PeerId>)
    requires Holds(g, inside, {})
    ensures ActiveChecked(g) == inside
  {
    forall p | p in inside ensures Guest(p) in g.checked {
      GuestsWith(inside + {}, p);
    }
  }

  lemma PassThenAdd(own: PeerId, limit: nat, parallel: nat, early: set<PeerId>, late: set<PeerId>)
    returns (events: seq<Event>)
    requires limit > 0 && parallel > 0
    requires early !! late && |early| == limit - 1 && |late| == parallel
    ensures ValidRun(Open(own), limit, parallel, events) && OnlyGuests(events)
    ensures Holds(Run(Open(own), limit, events), early + late, {})
  {
    var first := PassTogether(own, limit, parallel, early, late);
    var g := Run(Open(own), limit, first);
    var second := AddTogether(g, limit, parallel, early, late, late);
    assert late - late == {};
    events := first + second;
    RunComposes(Open(own), limit, parallel, first, second);
    OnlyGuestsConcat(first, second);
  }

  /** No smaller bound holds: with enough distinct peers, limit - 1 of them admitted one
      by one and then `parallel` of them at once, the overshoot is exactly attained, by a
      run that the node with its handlers can have. */
  lemma OvershootIsAttained(own: PeerId, limit: nat, parallel: nat, early: set<PeerId>, late: set<PeerId>)
    returns (events: seq<Event>)
    requires limit > 0 && parallel > 0
    requires early !! late && |early| == limit - 1 && |late| == parallel
    ensures ValidRun(Open(own), limit, parallel, events)
    ensures |ActiveChecked(Run(Open(own), limit, events))| == limit - 1 + parallel
    ensures HandlerRuns.ValidRun(HandlerRuns.Start(own), NodeEvents(events))
    ensures HandlerRuns.Run(HandlerRuns.Start(own), NodeEvents(events)).table == Run(Open(own), limit, events).table
  {
    events := PassThenAdd(own, limit, parallel, early, late);
    AllInsideAreActive(Run(Open(own), limit, events), early + late);
    GuestsAreARunOfTheNode(HandlerRuns.Start(own), Open(own), limit, parallel, events);
  }

  /** The property that the limit is meant to have, that no run ever exceeds it, holds
      exactly if nobody is admitted at all or connections are admitted one at a time. */
  lemma LimitHoldsExactlyIfSerial(own: PeerId, limit: nat, parallel: nat, early: set<PeerId>, late: set<PeerId>)
    requires early !! late && |late| == parallel && (limit > 0 ==> |early| == limit - 1)
    ensures (forall events :: ValidRun(Open(own), limit, parallel, events) ==>
               |ActiveChecked(Run(Open(own), limit, events))| <= limit) <==> limit == 0 || parallel <= 1
  {
    if limit == 0 || parallel <= 1 {
      forall events | ValidRun(Open(own), limit, parallel, events)
        ensures |ActiveChecked(Run(Open(own), limit, events))| <= limit
      {
        OvershootIsBounded(own, limit, parallel, events);
      }
    } else {
      var events := OvershootIsAttained(own, limit, parallel, early, late);
      assert |ActiveChecked(Run(Open(own), limit, events))| > limit;
    }
  }
}
