/** One node over time: the table of active peers together with the request-handler
    tasks, under every interleaving of adds, application disconnects, handler exits
    and handlers being joined. */
module HandlerRuns {
  import opened Types
  import opened PeerTable

  /** `running` handlers still serve their connection and will remove it when it dies;
      `ending` ones have done so and wait for their requests to be shut down. */
  datatype Node = Node(own: PeerId, table: Table, running: set<Connection>, ending: set<Connection>)

  datatype Event =
    | AddPeer(conn: Connection)
    | Disconnect(peer: PeerId, reason: DisconnectReason)
    | HandlerExit(conn: Connection, reason: DisconnectReason)
    | HandlerJoined(conn: Connection)

  function Start(own: PeerId): Node {
    Node(own, EMPTY, {}, {})
  }

  /** What the environment guarantees of an event: a connection is added once, and its
      stable id differs from those of all connections that a handler keeps alive. */
  ghost predicate Enabled(n: Node, e: Event) {
    match e
    case AddPeer(c) =>
      && c !in n.table.added
      && (forall h :: h in n.running + n.ending ==> h.stableId != c.stableId)
    case Disconnect(_, _) => true
    case HandlerExit(c, _) => c in n.running
    case HandlerJoined(c) => c in n.ending
  }

  function Step(n: Node, e: Event): Node {
    match e
    case AddPeer(c) =>
      n.(table := Insert(n.own, n.table, c),
         running := if Accepts(n.own, n.table, c) then n.running + {c} else n.running)
    case Disconnect(p, reason) =>
      n.(table := Remove(n.table, p, reason))
    case HandlerExit(c, reason) =>
      n.(table := RemoveWithStableId(n.table, c.peer, c.stableId, reason),
         running := n.running - {c},
         ending := n.ending + {c})
    case HandlerJoined(c) =>
      n.(ending := n.ending - {c})
  }

  ghost predicate ValidRun(n: Node, events: seq<Event>)
    decreases events
  {
    events != [] ==> Enabled(n, events[0]) && ValidRun(Step(n, events[0]), events[1..])
  }

  function Run(n: Node, events: seq<Event>): Node
    decreases events
  {
    if events == [] then n else Run(Step(n, events[0]), events[1..])
  }

  // ---------------------------------------------------------------- invariant

  /** Every table entry has a live handler for that same connection. */
  ghost predicate EntriesHandled(n: Node) {
    forall p :: p in n.table.connections ==> n.table.connections[p] in n.running
  }

  ghost predicate IdsDistinct(live: set<Connection>) {
    forall c, d :: c in live && d in live && c.stableId == d.stableId ==> c == d
  }

  ghost predicate Inv(n: Node) {
    && Conserved(n.table)
    && EntriesHandled(n)
    && n.running + n.ending <= n.table.added
    && n.running !! n.ending
    && IdsDistinct(n.running + n.ending)
  }

  /** A handler's exit takes out its own connection or nothing. */
  lemma ExitRemovesOnlyItsOwn(n: Node, c: Connection, reason: DisconnectReason)
    requires Inv(n) && c in n.running
    ensures Step(n, HandlerExit(c, reason)).table ==
            if IsEntry(n.table, c) then Remove(n.table, c.peer, reason) else n.table
  {
    if c.peer in n.table.connections && n.table.connections[c.peer].stableId == c.stableId {
      var entry := n.table.connections[c.peer];
      assert entry in n.running + n.ending && c in n.running + n.ending;
      assert entry == c;
    }
  }

  /** A handler starts exactly for a connection that has become the entry of its peer. */
  lemma HandlerStartsForEntry(n: Node, c: Connection)
    requires Enabled(n, AddPeer(c))
    ensures var m := Step(n, AddPeer(c));
            m.running == n.running + (if IsEntry(m.table, c) then {c} else {}) && m.ending == n.ending
  {
  }

  lemma StepKeepsInv(n: Node, e: Event)
    requires Inv(n) && Enabled(n, e)
    ensures Inv(Step(n, e)) && Extends(n.table, Step(n, e).table)
  {
    match e
    case AddPeer(c) =>
      InsertConserves(n.own, n.table, c);
      InsertExtends(n.own, n.table, c);
    case Disconnect(p, reason) =>
      RemoveConserves(n.table, p, reason);
      RemoveExtends(n.table, p, reason);
    case HandlerExit(c, reason) =>
      ExitRemovesOnlyItsOwn(n, c, reason);
      RemoveConserves(n.table, c.peer, reason);
      RemoveExtends(n.table, c.peer, reason);
      ExtendsBy(n.table, n.table, []);
      var m := Step(n, e);
      assert m.running + m.ending == n.running + n.ending;
      forall p | p in m.table.connections ensures m.table.connections[p] in m.running {
        assert n.table.connections[p].peer == p;
      }
    case HandlerJoined(c) =>
      ExtendsBy(n.table, n.table, []);
  }

  /** The invariant holds in every reachable state, and whatever was logged in
      between replays from one state's peers to the other's. */
  lemma {:induction false} RunKeepsInv(n: Node, events: seq<Event>)
    requires Inv(n) && ValidRun(n, events)
    ensures Inv(Run(n, events)) && Extends(n.table, Run(n, events).table)
    decreases events
  {
    if events == [] {
      ExtendsBy(n.table, n.table, []);
    } else {
      StepKeepsInv(n, events[0]);
      var m := Step(n, events[0]);
      RunKeepsInv(m, events[1..]);
      ExtendsTransitive(n.table, m.table, Run(m, events[1..]).table);
    }
  }

  lemma {:induction false} RunComposes(n: Node, first: seq<Event>, second: seq<Event>)
    ensures Run(n, first + second) == Run(Run(n, first), second)
    ensures ValidRun(n, first + second) <==> ValidRun(n, first) && ValidRun(Run(n, first), second)
    decreases first
  {
    if first == [] {
      assert first + second == second;
    } else {
      assert (first + second)[0] == first[0] && (first + second)[1..] == first[1..] + second;
      RunComposes(Step(n, first[0]), first[1..], second);
    }
  }

  // ------------------------------------------------------------ main results

  /** Conservation over whole runs: each connection ever passed to `add` is exactly
      one of the current entry of its own peer and closed by the table. */
  lemma EveryConnectionIsEntryOrClosed(own: PeerId, events: seq<Event>, c: Connection)
    requires ValidRun(Start(own), events)
    ensures var t := Run(Start(own), events).table;
            (AddPeer(c) in events) ==> (IsEntry(t, c) != (c in t.closed))
    ensures var t := Run(Start(own), events).table;
            (IsEntry(t, c) || c in t.closed) ==> AddPeer(c) in events
  {
    RunKeepsInv(Start(own), events);
    AddedIsWhatWasPassed(Start(own), events, c);
  }

  lemma {:induction false} AddedIsWhatWasPassed(n: Node, events: seq<Event>, c: Connection)
    ensures c in Run(n, events).table.added <==> c in n.table.added || AddPeer(c) in events
    decreases events
  {
    if events == [] {
    } else {
      AddedIsWhatWasPassed(Step(n, events[0]), events[1..], c);
      assert AddPeer(c) in events <==> events[0] == AddPeer(c) || AddPeer(c) in events[1..];
    }
  }

  /** A subscriber that joins after `before` and receives the events of `after`:
      replaying them over its snapshot gives exactly the connected peers. */
  lemma SubscriberSeesCurrentPeers(own: PeerId, before: seq<Event>, after: seq<Event>)
    requires ValidRun(Start(own), before + after)
    ensures var joined := Run(Start(own), before).table;
            var now := Run(Start(own), before + after).table;
            && joined.log <= now.log
            && Replay(joined.connections.Keys, now.log[|joined.log|..]) == Some(now.connections.Keys)
  {
    RunComposes(Start(own), before, after);
    RunKeepsInv(Start(own), before);
    RunKeepsInv(Run(Start(own), before), after);
  }

  /** For each peer the whole log alternates NewPeer and LostPeer, NewPeer first, and
      ends with NewPeer exactly if the peer is connected. */
  lemma LogAlternates(own: PeerId, events: seq<Event>, p: PeerId)
    requires ValidRun(Start(own), events)
    ensures var t := Run(Start(own), events).table;
            && Alternates(About(p, t.log), true)
            && (p in t.connections <==> |About(p, t.log)| % 2 == 1)
  {
    RunKeepsInv(Start(own), events);
    var t := Run(Start(own), events).table;
    assert t.log[|EMPTY.log|..] == t.log && EMPTY.connections.Keys == {};
    ReplayAlternates({}, t.log, p);
    ReplayParity({}, t.log, p);
  }

  // ----------------------------------------------------- handlers over whole runs

  lemma LastStep(own: PeerId, init: seq<Event>, e: Event)
    requires ValidRun(Start(own), init + [e])
    ensures ValidRun(Start(own), init) && Enabled(Run(Start(own), init), e)
    ensures Run(Start(own), init + [e]) == Step(Run(Start(own), init), e)
  {
    assert [e][1..] == [];
    RunComposes(Start(own), init, [e]);
  }

  /** The connection became the entry of its peer when it was added, at position i. */
  ghost predicate AcceptedAt(own: PeerId, events: seq<Event>, c: Connection, i: nat) {
    && i < |events| && events[i] == AddPeer(c)
    && IsEntry(Run(Start(own), events[..i + 1]).table, c)
  }

  ghost predicate Accepted(own: PeerId, events: seq<Event>, c: Connection) {
    exists i: nat :: AcceptedAt(own, events, c, i)
  }

  ghost predicate HasExited(events: seq<Event>, c: Connection) {
    exists reason :: HandlerExit(c, reason) in events
  }

  lemma AcceptedOneMore(own: PeerId, init: seq<Event>, e: Event, c: Connection)
    ensures Accepted(own, init + [e], c) <==>
              Accepted(own, init, c) || (e == AddPeer(c) && IsEntry(Run(Start(own), init + [e]).table, c))
  {
    var events := init + [e];
    assert events[..|events|] == events;
    forall i: nat | i < |init| ensures events[..i + 1] == init[..i + 1] && events[i] == init[i] {}
    if e == AddPeer(c) && IsEntry(Run(Start(own), events).table, c) {
      assert AcceptedAt(own, events, c, |init|);
    }
    if i: nat :| AcceptedAt(own, init, c, i) {
      assert AcceptedAt(own, events, c, i);
    }
    if i: nat :| AcceptedAt(own, events, c, i) && i < |init| {
      assert AcceptedAt(own, init, c, i);
    }
  }

  lemma ExitedOneMore(init: seq<Event>, e: Event, c: Connection)
    ensures HasExited(init + [e], c) <==> HasExited(init, c) || (e.HandlerExit? && e.conn == c)
    ensures HandlerJoined(c) in init + [e] <==> HandlerJoined(c) in init || e == HandlerJoined(c)
  {
    if reason :| HandlerExit(c, reason) in init {
      assert HandlerExit(c, reason) in init + [e];
    }
    if e.HandlerExit? && e.conn == c {
      assert HandlerExit(c, e.reason) in init + [e];
    }
  }

  /** In every run a handler runs exactly for the connections that were accepted and have not
      died, and is being shut down exactly for those that died and were not joined. */
  lemma {:induction false} HandlersRunFromAcceptanceToExit(own: PeerId, events: seq<Event>, c: Connection)
    requires ValidRun(Start(own), events)
    ensures var n := Run(Start(own), events);
            && (c in n.running <==> Accepted(own, events, c) && !HasExited(events, c))
            && (c in n.ending <==> HasExited(events, c) && HandlerJoined(c) !in events)
    ensures HandlerJoined(c) in events ==> HasExited(events, c)
    ensures HasExited(events, c) ==> Accepted(own, events, c)
  {
    if events == [] {
    } else {
      var init, e := events[..|events| - 1], events[|events| - 1];
      assert events == init + [e];
      LastStep(own, init, e);
      HandlersRunFromAcceptanceToExit(own, init, c);
      AcceptedOneMore(own, init, e, c);
      ExitedOneMore(init, e, c);
      HandlerStep(own, init, e, c);
    }
  }

  /** How one event changes what a handler does. */
  lemma HandlerStep(own: PeerId, init: seq<Event>, e: Event, c: Connection)
    requires ValidRun(Start(own), init + [e])
    ensures var n, m := Run(Start(own), init), Run(Start(own), init + [e]);
            && (c in m.running <==>
                  (c in n.running && !(e.HandlerExit? && e.conn == c)) || (e == AddPeer(c) && IsEntry(m.table, c)))
            && (c in m.ending <==> (c in n.ending && e != HandlerJoined(c)) || (e.HandlerExit? && e.conn == c))
            && (e == AddPeer(c) ==> c !in n.running && c !in n.ending && AddPeer(c) !in init)
            && (e.HandlerExit? && e.conn == c ==> c in n.running)
            && (e == HandlerJoined(c) ==> c in n.ending)
  {
    LastStep(own, init, e);
    RunKeepsInv(Start(own), init);
    var n := Run(Start(own), init);
    if e.AddPeer? {
      HandlerStartsForEntry(n, e.conn);
    }
    AddedIsWhatWasPassed(Start(own), init, c);
  }

  // ------------------------------------------------- why a peer was lost, and what is closed

  /** Why an event may take a peer out of the table. */
  ghost predicate Removes(e: Event, p: PeerId, reason: DisconnectReason) {
    match e
    case AddPeer(c) => c.peer == p && reason == Requested
    case Disconnect(q, r) => q == p && r == reason
    case HandlerExit(c, r) => c.peer == p && r == reason
    case HandlerJoined(_) => false
  }

  /** What one event logs: a loss carries the reason of the event, and there is one exactly
      if the event takes the peer's connection out, which is then closed. */
  lemma LossCarriesReason(n: Node, e: Event)
    requires Inv(n) && Enabled(n, e)
    ensures var m := Step(n, e);
            && n.table.log <= m.table.log
            && (forall p, reason :: LostPeer(p, reason) in m.table.log[|n.table.log|..] <==>
                  && p in n.table.connections && Removes(e, p, reason)
                  && !IsEntry(m.table, n.table.connections[p]))
            && (forall p :: p in n.table.connections && !IsEntry(m.table, n.table.connections[p]) ==>
                  n.table.connections[p] in m.table.closed)
            && (e.Disconnect? ==> e.peer !in m.table.connections)
  {
    var m := Step(n, e);
    StepKeepsInv(n, e);
    if e.HandlerExit? {
      ExitRemovesOnlyItsOwn(n, e.conn, e.reason);
    }
    assert m.table.log == n.table.log + m.table.log[|n.table.log|..];
  }

  /** Over whole runs: whenever subscribers are told that a peer was lost, the reason is that
      of the disconnect or of the handler's end that took it out, or that a newer connection
      of that peer replaced it. */
  lemma {:induction false} EveryLossHasItsReason(own: PeerId, events: seq<Event>, p: PeerId, reason: DisconnectReason)
    returns (i: nat)
    requires ValidRun(Start(own), events)
    requires LostPeer(p, reason) in Run(Start(own), events).table.log
    ensures i < |events| && Removes(events[i], p, reason)
    ensures p in Run(Start(own), events[..i]).table.connections
  {
    if events == [] {
      assert false;
    } else {
      var init, e := events[..|events| - 1], events[|events| - 1];
      assert events == init + [e];
      LastStep(own, init, e);
      RunKeepsInv(Start(own), init);
      var n := Run(Start(own), init);
      LossCarriesReason(n, e);
      if LostPeer(p, reason) in n.table.log {
        i := EveryLossHasItsReason(own, init, p, reason);
        assert events[..i] == init[..i];
      } else {
        i := |init|;
        LostIsInTail(n.table.log, Step(n, e).table.log, LostPeer(p, reason));
      }
    }
  }

  lemma LostIsInTail(before: seq<PeerEvent>, after: seq<PeerEvent>, x: PeerEvent)
    requires before <= after && x in after && x !in before
    ensures x in after[|before|..]
  {
    assert after == before + after[|before|..];
  }

  function Live(n: Node): set<Connection> {
    n.running + n.ending
  }

  lemma NobodyRunningMeansNoPeers(n: Node)
    requires Inv(n) && n.running == {}
    ensures n.table.connections == map[]
  {
  }

  /** The assertion made by shutdown: whenever all handlers have been joined, in any
      reachable state, no active peer is left. */
  lemma NoHandlersMeansNoPeers(own: PeerId, events: seq<Event>)
    requires ValidRun(Start(own), events)
    requires Live(Run(Start(own), events)) == {}
    ensures Run(Start(own), events).table.connections == map[]
  {
    RunKeepsInv(Start(own), events);
  }

  /** Work left for the drain: an exit and a join for each running handler. */
  function Remaining(n: Node): nat {
    2 * |n.running| + |n.ending|
  }

  function HandlerSteps(events: seq<Event>): nat {
    if events == [] then 0
    else (if events[0].HandlerExit? || events[0].HandlerJoined? then 1 else 0) + HandlerSteps(events[1..])
  }

  lemma HandlerStepUsesOneUnit(n: Node, e: Event)
    requires Inv(n) && Enabled(n, e) && !e.AddPeer?
    ensures Remaining(n) == Remaining(Step(n, e)) + if e.HandlerExit? || e.HandlerJoined? then 1 else 0
  {
    match e
    case Disconnect(_, _) =>
    case HandlerExit(c, _) =>
      assert |n.running - {c}| == |n.running| - 1 && |n.ending + {c}| == |n.ending| + 1;
    case HandlerJoined(c) =>
      assert |n.ending - {c}| == |n.ending| - 1;
  }

  /** While nothing is added, as in shutdown, each handler step uses up exactly one unit
      of the remaining work, however disconnects interleave; so once `Remaining` handler
      steps have been taken no handler and no active peer is left. */
  lemma {:induction false} DrainTakesRemainingSteps(n: Node, events: seq<Event>)
    requires Inv(n) && ValidRun(n, events)
    requires forall i :: 0 <= i < |events| ==> !events[i].AddPeer?
    ensures HandlerSteps(events) + Remaining(Run(n, events)) == Remaining(n)
    ensures HandlerSteps(events) == Remaining(n) ==>
              Live(Run(n, events)) == {} && Run(n, events).table.connections == map[]
    decreases events
  {
    if events == [] {
      assert Remaining(n) == 0 ==> n.running == {} && n.ending == {};
    } else {
      StepKeepsInv(n, events[0]);
      HandlerStepUsesOneUnit(n, events[0]);
      DrainTakesRemainingSteps(Step(n, events[0]), events[1..]);
    }
  }
}
