/** The connection manager's event handlers, updating its state in place, each proved
    to be a step of the state machines in HandlerRuns, Dialing, IncomingTasks and Admission. */
module Manager {
  import opened Types
  import opened PeerTable
  import opened ActivePeers
  import HandlerRuns
  import Admission
  import IncomingTasks
  import opened Dialing

  class ConnectionManager {
    const config: Config
    /** The limit on connections that inbound ones of unknown peers must keep. */
    const connectionLimit: Option<nat>
    const activePeers: ActivePeers
    const knownPeers: KnownPeers

    var open: bool
    /** Inbound and outbound connections that are being established. */
    var pendingConnections: map<nat, Task>
    /** Request handlers, by the connection they serve. */
    var running: set<Connection>
    var ending: set<Connection>
    var pendingDials: map<PeerId, nat>
    var dialBackoffStates: map<PeerId, Backoff>
    /** The oneshot channels, and the number of the next task and channel. */
    var channels: map<nat, Channel>
    var next: nat
    /** What the incoming tasks have decided so far. */
    var stages: map<nat, Stage>
    /** All connections that ever passed the limit check. */
    ghost var checked: set<Connection>

    function Dials(): State
      reads this
    {
      State(open, pendingDials, dialBackoffStates, pendingConnections, channels, next)
    }

    ghost function Handlers(): HandlerRuns.Node
      reads this, activePeers
    {
      HandlerRuns.Node(config.own, activePeers.View(), running, ending)
    }

    ghost function Gate(): Admission.Gate
      reads this, activePeers
    {
      Admission.Gate(config.own, activePeers.View(), InFlight(stages), checked)
    }

    /** What Admission takes for the limit; no inbound connection is checked without one. */
    function Limit(): nat {
      if connectionLimit.Some? then connectionLimit.value else 0
    }

    ghost predicate Valid()
      reads this, activePeers, knownPeers
    {
      && Inv(Dials())
      && HandlerRuns.Inv(Handlers())
      && knownPeers.Valid()
      && IncomingValid(pendingConnections.Keys, stages, checked)
    }

    constructor (config: Config, connectionLimit: Option<nat>, activePeers: ActivePeers, knownPeers: KnownPeers)
      requires activePeers.View() == EMPTY && knownPeers.Valid()
      ensures Valid() && Dials() == INITIAL && Handlers() == HandlerRuns.Start(config.own)
      ensures Gate() == Admission.Open(config.own) && this.connectionLimit == connectionLimit
      ensures this.config == config && this.activePeers == activePeers && this.knownPeers == knownPeers
    {
      this.config, this.connectionLimit := config, connectionLimit;
      this.activePeers, this.knownPeers := activePeers, knownPeers;
      stages, checked := map[], {};
      open, pendingConnections, running, ending := true, map[], {}, {};
      pendingDials, dialBackoffStates, channels, next := map[], map[], map[], 0;
    }

    // ------------------------------------------------- connections and handlers

    method AddPeer(c: Connection)
      requires Valid() && HandlerRuns.Enabled(Handlers(), HandlerRuns.AddPeer(c))
      modifies this`running, activePeers
      ensures Valid() && Dials() == old(Dials())
      ensures Handlers() == HandlerRuns.Step(old(Handlers()), HandlerRuns.AddPeer(c))
      ensures running == old(running) + if PeerTable.IsEntry(activePeers.View(), c) then {c} else {}
      ensures Gate() == Admission.Step(old(Gate()), Limit(), Admission.AddOther(c))
    {
      HandlerRuns.StepKeepsInv(Handlers(), HandlerRuns.AddPeer(c));
      HandlerRuns.HandlerStartsForEntry(Handlers(), c);
      var handle := activePeers.Add(config.own, c);
      if handle.Some? {
        running := running + {handle.value};
      }
    }

    /** The end of a handler's loop: it removes its own connection from the table and
        goes on to shut down its requests. */
    method HandlerExits(c: Connection, reason: DisconnectReason)
      requires Valid() && c in running
      modifies this`running, this`ending, activePeers
      ensures Valid() && Dials() == old(Dials())
      ensures Handlers() == HandlerRuns.Step(old(Handlers()), HandlerRuns.HandlerExit(c, reason))
      ensures Gate() == Admission.Step(old(Gate()), Limit(), Admission.HandlerExit(c, reason))
    {
      HandlerRuns.StepKeepsInv(Handlers(), HandlerRuns.HandlerExit(c, reason));
      activePeers.RemoveWithStableId(c.peer, c.stableId, reason);
      running := running - {c};
      ending := ending + {c};
    }

    method HandlerIsJoined(c: Connection)
      requires Valid() && c in ending
      modifies this`ending
      ensures Valid() && Dials() == old(Dials())
      ensures Handlers() == HandlerRuns.Step(old(Handlers()), HandlerRuns.HandlerJoined(c))
      ensures Gate() == old(Gate())
    {
      HandlerRuns.StepKeepsInv(Handlers(), HandlerRuns.HandlerJoined(c));
      ending := ending - {c};
    }

    /** Disconnecting from outside the event loop. */
    method Disconnect(p: PeerId)
      requires Valid()
      modifies activePeers
      ensures Valid() && Dials() == old(Dials())
      ensures Handlers() == HandlerRuns.Step(old(Handlers()), HandlerRuns.Disconnect(p, Requested))
      ensures p !in activePeers.connections
      ensures Gate() == Admission.Step(old(Gate()), Limit(), Admission.Leave(p, Requested))
    {
      HandlerRuns.StepKeepsInv(Handlers(), HandlerRuns.Disconnect(p, Requested));
      activePeers.Remove(p, Requested);
    }

    /** Some live handler gets on: it exits for whatever reason, or having exited it is joined. */
    method AdvanceHandler()
      requires Valid() && running + ending != {}
      modifies this`running, this`ending, activePeers
      ensures Valid() && Dials() == old(Dials())
      ensures HandlerRuns.Remaining(Handlers()) == old(HandlerRuns.Remaining(Handlers())) - 1
    {
      var c :| c in running + ending;
      if c in running {
        var reason: DisconnectReason := *;
        HandlerRuns.HandlerStepUsesOneUnit(Handlers(), HandlerRuns.HandlerExit(c, reason));
        HandlerExits(c, reason);
      } else {
        HandlerRuns.HandlerStepUsesOneUnit(Handlers(), HandlerRuns.HandlerJoined(c));
        HandlerIsJoined(c);
      }
    }

    /** Terminates the connections in progress; their channels lose their senders. */
    method AbortConnecting()
      requires Valid() && open
      modifies this`open, this`pendingConnections, this`channels, this`stages
      ensures Valid() && Handlers() == old(Handlers()) && stages == map[]
      ensures Dials() == Dialing.Step(config, old(Dials()), Dialing.Shutdown)
      ensures Gate() == old(Gate()).(inflight := {})
    {
      CloseDials();
      stages := map[];
    }

    method CloseDials()
      modifies this`open, this`pendingConnections, this`channels
      ensures Dials() == Dialing.Step(config, old(Dials()), Dialing.Shutdown)
    {
      open := false;
      pendingConnections := map[];
      channels := map c | c in channels :: if channels[c].Empty? then Dropped else channels[c];
    }

    /** A handler gets on; before that the application may have disconnected a peer. */
    method Wait()
      requires Valid() && running + ending != {}
      modifies this`running, this`ending, activePeers
      ensures Valid() && Dials() == old(Dials())
      ensures HandlerRuns.Remaining(Handlers()) == old(HandlerRuns.Remaining(Handlers())) - 1
    {
      if * {
        var p: PeerId := *;
        Disconnect(p);
      }
      AdvanceHandler();
    }

    /** Waits for all handlers, while the application may still disconnect peers. The
        assertion is the one the program makes. */
    method Shutdown()
      requires Valid() && open
      modifies this, activePeers
      ensures Dials() == Dialing.Step(config, old(Dials()), Dialing.Shutdown)
      ensures running == ending == {} && activePeers.connections == map[] && stages == map[]
    {
      AbortConnecting();
      ghost var aborted := Dials();
      while running + ending != {}
        invariant Valid() && Dials() == aborted && stages == map[]
        decreases HandlerRuns.Remaining(Handlers())
      {
        Wait();
      }
      HandlerRuns.NobodyRunningMeansNoPeers(Handlers());
      assert activePeers.connections == map[];
    }

    // --------------------------------------------------------------- connecting

    method DialPeer(address: Address, expected: Option<PeerId>) returns (channel: nat)
      modifies this`pendingConnections, this`channels, this`next
      ensures channel == old(next) && next == old(next) + 1
      ensures pendingConnections == old(pendingConnections)[channel := Task(Some(channel), expected, Some(address))]
      ensures channels == old(channels)[channel := Empty]
      ensures Dials() == Dialing.Step(config, old(Dials()), ConnectRequest(address, expected))
    {
      channel := next;
      pendingConnections := pendingConnections[channel := Task(Some(channel), expected, Some(address))];
      channels := channels[channel := Empty];
      next := next + 1;
    }

    method HandleConnectRequest(address: Address, expected: Option<PeerId>)
      requires Valid() && open
      modifies this`pendingConnections, this`channels, this`next
      ensures Valid() && Handlers() == old(Handlers()) && Gate() == old(Gate())
      ensures Dials() == Dialing.Step(config, old(Dials()), ConnectRequest(address, expected))
      ensures pendingConnections == old(pendingConnections)[old(next) := Task(Some(old(next)), expected, Some(address))]
      ensures channels == old(channels)[old(next) := Empty]
      ensures old(next) !in old(pendingConnections) && old(next) !in old(channels)
    {
      StepKeepsInv(config, Dials(), ConnectRequest(address, expected));
      StepKeepsTasks(config, Dials(), ConnectRequest(address, expected));
      var _ := DialPeer(address, expected);
    }

    method HandleIncoming()
      requires Valid() && open
      modifies this`pendingConnections, this`next, this`stages
      ensures Valid() && Handlers() == old(Handlers()) && Gate() == old(Gate())
      ensures Dials() == Dialing.Step(config, old(Dials()), Incoming)
      ensures IncomingTasks.Enabled(old(stages), IncomingTasks.Spawn(old(next)))
      ensures stages == IncomingTasks.Step(old(stages), IncomingTasks.Spawn(old(next)))
    {
      StepKeepsInv(config, Dials(), Incoming);
      StepKeepsTasks(config, Dials(), Incoming);
      Spawning(pendingConnections.Keys, stages, checked, next);
      SpawnIncoming();
      stages := stages[next - 1 := Undecided];
    }

    method SpawnIncoming()
      modifies this`pendingConnections, this`next
      ensures next == old(next) + 1
      ensures pendingConnections == old(pendingConnections)[old(next) := Task(None, None, None)]
      ensures Dials() == Dialing.Step(config, old(Dials()), Incoming)
    {
      pendingConnections := pendingConnections[next := Task(None, None, None)];
      next := next + 1;
    }

    /** What is known of a peer. */
    function Known(p: PeerId): Option<PeerInfo>
      reads knownPeers
    {
      if p in knownPeers.peers then Some(knownPeers.peers[p]) else None
    }

    /** The incoming task `t` decides about its connection, before the handshake. A banned
        peer is turned away and any other known one let through; one that is not known is
        turned away exactly if there is a limit and it has been reached. */
    method CheckIncoming(t: nat, c: Connection) returns (verdict: Admission.Verdict)
      requires Valid() && t in stages && stages[t] == Undecided
      requires IsNew(c)
      modifies this`stages, this`checked
      ensures Valid() && Dials() == old(Dials()) && Handlers() == old(Handlers())
      ensures t in stages && stages == old(stages)[t := stages[t]]
      ensures c.peer in knownPeers.peers ==>
                stages[t] == if knownPeers.peers[c.peer].affinity == Never then TurnedAway else Bypassing(c)
      ensures c.peer !in knownPeers.peers ==>
                stages[t] == if connectionLimit.None? then Bypassing(c)
                             else if |activePeers.connections| >= connectionLimit.value then TurnedAway
                             else Admitted(c)
      ensures var e := IncomingTasks.Judge(t, c, Known(c.peer), connectionLimit, |activePeers.connections|);
              IncomingTasks.Enabled(old(stages), e) && stages == IncomingTasks.Step(old(stages), e)
      ensures verdict == Admission.Decide(Known(c.peer), connectionLimit, |activePeers.connections|)
      ensures Admission.EnvironmentAllows(old(Gate()), Admission.Arrive(c, Known(c.peer)))
      ensures Gate() == if connectionLimit.None? then old(Gate())
                        else Admission.Step(old(Gate()), Limit(), Admission.Arrive(c, Known(c.peer)))
    {
      verdict := Judge(c.peer);
      ghost var stage := IncomingTasks.StageOf(verdict, c, connectionLimit);
      DecidingIsAStep(Gate(), connectionLimit, c, Known(c.peer), stage);
      Deciding(pendingConnections.Keys, stages, checked, t, c, stage);
      Admission.DecisionIsExact(Known(c.peer), connectionLimit, |activePeers.connections|);
      Decide(t, c, verdict);
    }

    method Decide(t: nat, c: Connection, verdict: Admission.Verdict)
      modifies this`stages, this`checked
      ensures stages == old(stages)[t := IncomingTasks.StageOf(verdict, c, connectionLimit)]
      ensures checked == old(checked) + if stages[t].Admitted? then {c} else {}
    {
      match verdict {
        case Passed =>
          if connectionLimit.Some? {
            stages, checked := stages[t := Admitted(c)], checked + {c};
          } else {
            stages := stages[t := Bypassing(c)];
          }
        case Bypass =>
          stages := stages[t := Bypassing(c)];
        case RejectedNever =>
          stages := stages[t := TurnedAway];
        case RejectedLimit =>
          stages := stages[t := TurnedAway];
      }
    }

    /** A connection that was neither added nor checked, and that no task is about. */
    ghost predicate IsNew(c: Connection)
      reads this, activePeers
    {
      && c !in activePeers.View().added && c !in checked
      && forall t :: t in stages ==> stages[t] != Bypassing(c)
    }

    method Judge(p: PeerId) returns (verdict: Admission.Verdict)
      ensures verdict == Admission.Decide(Known(p), connectionLimit, |activePeers.connections|)
    {
      if p in knownPeers.peers {
        match knownPeers.peers[p].affinity {
          case High => return Admission.Bypass;
          case Allowed => return Admission.Bypass;
          case Never => return Admission.RejectedNever;
        }
      }
      if connectionLimit.Some? {
        if |activePeers.connections| >= connectionLimit.value {
          return Admission.RejectedLimit;
        }
      }
      return Admission.Passed;
    }

    /** What a task may end with: an incoming one with the connection that it let through,
        a dial with a connection of its own. */
    ghost predicate MayEndWith(t: nat, result: Option<Connection>)
      requires t in pendingConnections
      reads this
    {
      if t in stages then IncomingTasks.Enabled(stages, IncomingTasks.End(t, result))
      else result.Some? ==> pendingConnections[t].oneshot.Some? && result.value !in checked
    }

    /** What the end of a task means for admission. */
    ghost function Ending(t: nat, result: Option<Connection>): Option<Admission.Event>
      reads this
    {
      EndingOf(Passed(stages, t), result)
    }

    /** A connecting task ended with a connection, or with an error. Whoever waits for it is
        told the peer of the connection, or that it failed, and nobody else is told anything. */
    method HandleConnectingResult(t: nat, result: Option<Connection>)
      requires Valid() && Enabled(config, Dials(), Completed(t, Outcome(result))) && MayEndWith(t, result)
      requires result.Some? ==> HandlerRuns.Enabled(Handlers(), HandlerRuns.AddPeer(result.value))
      modifies this`pendingConnections, this`channels, this`running, this`stages, activePeers
      ensures Valid()
      ensures Dials() == Dialing.Step(config, old(Dials()), Completed(t, Outcome(result)))
      ensures old(pendingConnections[t]).oneshot.None? ==> channels == old(channels)
      ensures old(pendingConnections[t]).oneshot.Some? ==>
                channels == old(channels)[old(pendingConnections[t]).oneshot.value :=
                                            Filled(if result.Some? then Connected(result.value.peer) else Failed)]
      ensures Handlers() == if result.None? then old(Handlers())
                            else HandlerRuns.Step(old(Handlers()), HandlerRuns.AddPeer(result.value))
      ensures stages == old(stages) - {t}
      ensures var e := old(Ending(t, result));
              && (e.Some? ==> Admission.EnvironmentAllows(old(Gate()), e.value))
              && Gate() == if e.None? then old(Gate()) else Admission.Step(old(Gate()), Limit(), e.value)
    {
      EndingIsAStep(Gate(), Limit(), Passed(stages, t), result);
      if result.Some? {
        IdOfNewIsFree(Handlers(), result.value);
        AddPeer(result.value);
      }
      EndTask(t, result);
    }

    /** Takes the task out and sends its outcome to whoever waits for it. */
    method EndTask(t: nat, result: Option<Connection>)
      requires Inv(Dials()) && Enabled(config, Dials(), Completed(t, Outcome(result)))
      requires IncomingValid(pendingConnections.Keys, stages, checked)
      modifies this`pendingConnections, this`channels, this`stages
      ensures Inv(Dials()) && IncomingValid(pendingConnections.Keys, stages, checked) && stages == old(stages) - {t}
      ensures Dials() == Dialing.Step(config, old(Dials()), Completed(t, Outcome(result)))
      ensures channels == Told(old(channels), old(pendingConnections[t]).oneshot, Outcome(result))
      ensures Gate() == old(Gate()).(inflight := old(InFlight(stages) - AsSet(Passed(stages, t))))
    {
      StepKeepsInv(config, Dials(), Completed(t, Outcome(result)));
      TakingOut(pendingConnections.Keys, stages, checked, t);
      Deliver(t, Outcome(result));
      stages := stages - {t};
    }

    method Deliver(t: nat, outcome: DialOutcome)
      requires t in pendingConnections
      modifies this`pendingConnections, this`channels
      ensures pendingConnections.Keys == old(pendingConnections.Keys) - {t}
      ensures channels == Told(old(channels), old(pendingConnections[t]).oneshot, outcome)
      ensures Dials() == Dialing.Step(config, old(Dials()), Completed(t, outcome))
    {
      var task := pendingConnections[t];
      pendingConnections := pendingConnections - {t};
      if task.oneshot.Some? {
        channels := channels[task.oneshot.value := Filled(outcome)];
      }
    }

    // -------------------------------------------------------- connectivity check

    /** The interval has elapsed. */
    method Tick(now: nat) returns (dialed: seq<PeerId>)
      requires Valid() && open
      modifies this`pendingDials, this`dialBackoffStates, this`pendingConnections, this`channels, this`next
      ensures Valid() && Handlers() == old(Handlers()) && Gate() == old(Gate())
    {
      ghost var tasks := pendingConnections.Keys;
      dialed := HandleConnectivityCheck(now);
      MoreTasks(tasks, pendingConnections.Keys, stages, checked);
    }

    /** Drains the completed dials and starts new ones: every newly dialed peer is of High
        affinity, is not this node, has an address, is not active and is past its backoff,
        and unless the limit is reached every such peer is being dialed. */
    method HandleConnectivityCheck(now: nat) returns (dialed: seq<PeerId>)
      requires Inv(Dials()) && knownPeers.Valid() && open
      modifies this`pendingDials, this`dialBackoffStates, this`pendingConnections, this`channels, this`next
      ensures Inv(Dials()) && old(pendingConnections.Keys) <= pendingConnections.Keys
      ensures Leads(config, old(Dials()), Check(now, activePeers.connections.Keys, knownPeers.peers, dialed), Dials())
      ensures forall p :: p in pendingDials && p !in Drain(config, old(Dials()), now).pending ==>
                && p in knownPeers.peers && knownPeers.peers[p].affinity == High && knownPeers.peers[p].addresses != []
                && p != config.own && p !in activePeers.connections
                && (p in dialBackoffStates ==> dialBackoffStates[p].until < now)
      ensures |pendingConnections| < config.dialLimit ==>
                forall p :: p in knownPeers.peers && knownPeers.peers[p].affinity == High
                            && knownPeers.peers[p].addresses != []
                            && p != config.own && p !in activePeers.connections
                            && (p in dialBackoffStates ==> dialBackoffStates[p].until < now)
                            ==> p in pendingDials
    {
      ghost var start := Dials();
      dialed := DrainAndDial(now);
      ghost var e := Check(now, activePeers.connections.Keys, knownPeers.peers, dialed);
      CheckKeepsInv(config, start, e, Dials());
      CheckDialsTheRightPeers(config, start, e, Dials());
    }

    method DrainAndDial(now: nat) returns (dialed: seq<PeerId>)
      requires Inv(Dials()) && knownPeers.Valid() && open
      modifies this`pendingDials, this`dialBackoffStates, this`pendingConnections, this`channels, this`next
      ensures Leads(config, old(Dials()), Check(now, activePeers.connections.Keys, knownPeers.peers, dialed), Dials())
    {
      dialed := DrainThenDial(now);
    }

    method DrainThenDial(now: nat) returns (dialed: seq<PeerId>)
      requires Inv(Dials()) && knownPeers.Valid() && open
      modifies this`pendingDials, this`dialBackoffStates, this`pendingConnections, this`channels, this`next
      ensures Dialable(knownPeers.peers, dialed)
      ensures MayChoose(config, Drain(config, old(Dials()), now), now, activePeers.connections.Keys,
                        knownPeers.peers, dialed)
      ensures Dials() == StartAll(Drain(config, old(Dials()), now), knownPeers.peers, dialed)
    {
      DrainCompletedDials(now);
      ghost var drained := Dials();
      var active := activePeers.connections.Keys;
      ghost var all := EligiblePeers(config, drained, now, active, knownPeers.peers);
      var eligible := CollectEligible(now, active, all);
      var number := Min(|eligible|, SaturatingSub(config.dialLimit, |pendingConnections|));
      PrefixMayBeDialed(config, drained, now, active, knownPeers.peers, eligible, number);
      dialed := DialAll(eligible[..number]);
    }

    /** Visits the pending dials in any order. */
    method DrainCompletedDials(now: nat)
      requires Inv(Dials()) && open
      modifies this`pendingDials, this`dialBackoffStates
      ensures Dials() == Drain(config, old(Dials()), now)
    {
      ghost var s := Dials();
      var todo := pendingDials.Keys;
      PartlyDrainedEnds(config, s, now);
      while todo != {}
        invariant todo <= s.pending.Keys
        invariant Dials() == PartlyDrained(config, s, now, todo)
        decreases todo
      {
        var p :| p in todo;
        PartlyDrainedVisit(config, s, now, todo, p);
        SettleDial(p, now);
        todo := todo - {p};
      }
    }

    /** Looks at one pending dial. With every dial accounted for, neither the panic for a
        sender that went away nor the debug assertion about the returned peer can fire. */
    method SettleDial(p: PeerId, now: nat)
      requires p in pendingDials
      requires !Received(Dials(), p).Dropped?
      requires Succeeded(Dials(), p) ==> Received(Dials(), p).outcome.peer == p
      modifies this`pendingDials, this`dialBackoffStates
      ensures Dials() == Settle(config, old(Dials()), p, now)
    {
      match channels[pendingDials[p]] {
        case Filled(Connected(returned)) =>
          assert returned == p;
          dialBackoffStates := dialBackoffStates - {p};
          pendingDials := pendingDials - {p};
        case Filled(Failed) =>
          if p in dialBackoffStates {
            dialBackoffStates := dialBackoffStates[p := UpdateBackoff(config, dialBackoffStates[p], now)];
          } else {
            dialBackoffStates := dialBackoffStates[p := NewBackoff(config, now)];
          }
          pendingDials := pendingDials - {p};
        case Dropped =>
          assert false;
        case Empty =>
      }
    }

    /** Visits the known peers in any order and keeps, each once, those that are of High
        affinity, are not this node, have an address, are neither active nor being dialed and
        are past their backoff. */
    method CollectEligible(now: nat, active: set<PeerId>, ghost all: set<PeerId>) returns (eligible: seq<PeerInfo>)
      requires knownPeers.Valid()
      requires forall p :: p in all <==>
                             && p in knownPeers.peers && knownPeers.peers[p].affinity == High
                             && p != config.own && knownPeers.peers[p].addresses != []
                             && p !in active && p !in pendingDials
                             && (p in dialBackoffStates ==> now > dialBackoffStates[p].until)
      ensures Collected(knownPeers.peers, eligible, all)
    {
      var known := knownPeers.peers;
      var todo := known.Keys;
      eligible := [];
      ghost var done := {};
      while todo != {}
        invariant todo <= known.Keys && done !! todo
        invariant forall p :: p in known && p !in todo ==> (p in all <==> p in done)
        invariant done <= all
        invariant Collected(known, eligible, done)
        decreases todo
      {
        var p :| p in todo;
        if IsEligible(known[p], now, active) {
          CollectOneMore(known, eligible, done, p);
          eligible := eligible + [known[p]];
          done := done + {p};
        }
        todo := todo - {p};
      }
      assert done == all;
    }

    predicate IsEligible(info: PeerInfo, now: nat, active: set<PeerId>)
      reads this
    {
      && info.affinity == High
      && info.peer != config.own
      && info.addresses != []
      && info.peer !in active
      && info.peer !in pendingDials
      && (info.peer in dialBackoffStates ==> now > dialBackoffStates[info.peer].until)
    }

    method DialAll(peers: seq<PeerInfo>) returns (dialed: seq<PeerId>)
      requires Dialable(knownPeers.peers, PeersOf(peers))
      requires forall i :: 0 <= i < |peers| ==> knownPeers.peers[peers[i].peer] == peers[i]
      modifies this`pendingDials, this`pendingConnections, this`channels, this`next
      ensures dialed == PeersOf(peers)
      ensures Dials() == StartAll(old(Dials()), knownPeers.peers, dialed)
    {
      ghost var s := Dials();
      dialed := [];
      for i := 0 to |peers|
        invariant dialed == PeersOf(peers)[..i]
        invariant Dials() == StartAll(s, knownPeers.peers, dialed)
      {
        var info := peers[i];
        assert info.peer == PeersOf(peers)[i] && info.addresses != [];
        StartAllOneMore(s, knownPeers.peers, dialed, info.peer);
        DialKnown(info);
        dialed := dialed + [info.peer];
      }
    }

    /** The attempts made so far select the address. */
    method DialKnown(info: PeerInfo)
      requires info.addresses != []
      modifies this`pendingDials, this`pendingConnections, this`channels, this`next
      ensures Dials() == StartDial(old(Dials()), info)
    {
      var attempts := if info.peer in dialBackoffStates then dialBackoffStates[info.peer].attempts else 0;
      var address := info.addresses[attempts % |info.addresses|];
      var channel := DialPeer(address, Some(info.peer));
      pendingDials := pendingDials[info.peer := channel];
    }
  }

  // ------------------------------------------------------------ incoming tasks

  /** The connections that have passed the limit check and are not added yet. */
  function InFlight(stages: map<nat, Stage>): set<Connection> {
    set t | t in stages && stages[t].Admitted? :: stages[t].conn
  }

  function Passed(stages: map<nat, Stage>, t: nat): Option<Connection> {
    if t in stages && stages[t].Admitted? then Some(stages[t].conn) else None
  }

  function AsSet(passed: Option<Connection>): set<Connection> {
    if passed.Some? then {passed.value} else {}
  }

  /** Each incoming task is about a connection of its own, which is among the checked ones
      exactly if it passed the limit check. */
  ghost predicate IncomingValid(tasks: set<nat>, stages: map<nat, Stage>, checked: set<Connection>) {
    && stages.Keys <= tasks
    && (forall t :: t in stages && stages[t].Admitted? ==> stages[t].conn in checked)
    && (forall t :: t in stages && stages[t].Bypassing? ==> stages[t].conn !in checked)
    && (forall t, u :: t in stages && u in stages && t != u && stages[t].Admitted? && stages[u].Admitted? ==>
          stages[t].conn != stages[u].conn)
  }

  lemma Spawning(tasks: set<nat>, stages: map<nat, Stage>, checked: set<Connection>, t: nat)
    requires IncomingValid(tasks, stages, checked) && t !in stages
    ensures IncomingValid(tasks + {t}, stages[t := Undecided], checked)
    ensures InFlight(stages[t := Undecided]) == InFlight(stages)
  {
    SettingStage(stages, t, Undecided);
  }

  /** What becomes of those in flight when a task that was not among them gets a stage. */
  lemma SettingStage(stages: map<nat, Stage>, t: nat, stage: Stage)
    requires t in stages ==> !stages[t].Admitted?
    ensures InFlight(stages[t := stage]) == InFlight(stages) + if stage.Admitted? then {stage.conn} else {}
  {
    var more := stages[t := stage];
    forall c | c in InFlight(stages) ensures c in InFlight(more) {
      var u :| u in stages && stages[u].Admitted? && stages[u].conn == c;
      assert u in more && more[u] == stages[u];
    }
    assert t in more && more[t] == stage;
  }

  lemma Deciding(tasks: set<nat>, stages: map<nat, Stage>, checked: set<Connection>, t: nat, c: Connection,
                 stage: Stage)
    requires IncomingValid(tasks, stages, checked) && t in stages && stages[t] == Undecided
    requires c !in checked && forall u :: u in stages ==> stages[u] != Bypassing(c)
    requires stage == Admitted(c) || stage == Bypassing(c) || stage == TurnedAway
    ensures IncomingValid(tasks, stages[t := stage], checked + if stage.Admitted? then {c} else {})
    ensures InFlight(stages[t := stage]) == InFlight(stages) + if stage.Admitted? then {c} else {}
  {
    SettingStage(stages, t, stage);
  }

  lemma DecidingIsAStep(g: Admission.Gate, limit: Option<nat>, c: Connection, known: Option<PeerInfo>, stage: Stage)
    requires stage == IncomingTasks.StageOf(Admission.Decide(known, limit, |g.table.connections|), c, limit)
    ensures stage == Admitted(c) || stage == Bypassing(c) || stage == TurnedAway
    ensures var more := if stage.Admitted? then {c} else {};
            g.(inflight := g.inflight + more, checked := g.checked + more) ==
            if limit.None? then g else Admission.Step(g, limit.value, Admission.Arrive(c, known))
  {
  }

  lemma TakingOut(tasks: set<nat>, stages: map<nat, Stage>, checked: set<Connection>, t: nat)
    requires IncomingValid(tasks, stages, checked)
    ensures IncomingValid(tasks - {t}, stages - {t}, checked)
    ensures InFlight(stages - {t}) == InFlight(stages) - AsSet(Passed(stages, t))
  {
    var rest := stages - {t};
    forall c | c in InFlight(stages) - AsSet(Passed(stages, t)) ensures c in InFlight(rest) {
      var u :| u in stages && stages[u].Admitted? && stages[u].conn == c;
      assert u in rest;
    }
  }

  function EndingOf(passed: Option<Connection>, result: Option<Connection>): Option<Admission.Event> {
    match result
    case Some(c) => Some(if passed.Some? then Admission.AddChecked(c) else Admission.AddOther(c))
    case None => if passed.Some? then Some(Admission.Abandon(passed.value)) else None
  }

  lemma IdOfNewIsFree(n: HandlerRuns.Node, c: Connection)
    requires HandlerRuns.Inv(n) && HandlerRuns.Enabled(n, HandlerRuns.AddPeer(c))
    ensures Admission.IdIsFree(n.table, c)
  {
    forall p | p in n.table.connections ensures n.table.connections[p].stableId != c.stableId {
      assert n.table.connections[p] in n.running + n.ending;
    }
  }

  lemma MoreTasks(tasks: set<nat>, more: set<nat>, stages: map<nat, Stage>, checked: set<Connection>)
    requires IncomingValid(tasks, stages, checked) && tasks <= more
    ensures IncomingValid(more, stages, checked)
  {
  }

  lemma EndingIsAStep(g: Admission.Gate, limit: nat, passed: Option<Connection>, result: Option<Connection>)
    requires passed.Some? && result.Some? ==> passed == result
    ensures var e := EndingOf(passed, result);
            var added := if result.None? then g else Admission.Step(g, limit, Admission.AddOther(result.value));
            added.(inflight := added.inflight - AsSet(passed)) ==
            if e.None? then g else Admission.Step(g, limit, e.value)
  {
  }

  /** The channel of a task that has ended. */
  function Told(channels: map<nat, Channel>, oneshot: Option<nat>, outcome: DialOutcome): map<nat, Channel> {
    if oneshot.Some? then channels[oneshot.value := Filled(outcome)] else channels
  }

  function Outcome(result: Option<Connection>): DialOutcome {
    match result
    case Some(c) => Connected(c.peer)
    case None => Failed
  }

  function PeersOf(infos: seq<PeerInfo>): (peers: seq<PeerId>)
    ensures |peers| == |infos| && forall i :: 0 <= i < |infos| ==> peers[i] == infos[i].peer
  {
    seq(|infos|, i requires 0 <= i < |infos| => infos[i].peer)
  }

  lemma StartAllOneMore(s: State, known: map<PeerId, PeerInfo>, chosen: seq<PeerId>, p: PeerId)
    requires Dialable(known, chosen + [p])
    ensures Dialable(known, chosen)
    ensures p in known && known[p].addresses != []
    ensures StartAll(s, known, chosen + [p]) == StartDial(StartAll(s, known, chosen), known[p])
  {
    var more := chosen + [p];
    assert forall i :: 0 <= i < |chosen| ==> chosen[i] == more[i];
    assert more[|chosen|] == p && more[..|more| - 1] == chosen;
  }

  // -------------------------------------------------------- collecting and draining

  /** A list of the known peers in a set, each once. */
  ghost predicate Collected(known: map<PeerId, PeerInfo>, infos: seq<PeerInfo>, peers: set<PeerId>) {
    && (forall i :: 0 <= i < |infos| ==>
          infos[i].peer in peers && infos[i].peer in known && known[infos[i].peer] == infos[i])
    && (forall i, j :: 0 <= i < j < |infos| ==> infos[i].peer != infos[j].peer)
    && |infos| == |peers|
  }

  lemma CollectOneMore(known: map<PeerId, PeerInfo>, infos: seq<PeerInfo>, peers: set<PeerId>, p: PeerId)
    requires Collected(known, infos, peers) && p !in peers
    requires p in known && known[p].peer == p
    ensures Collected(known, infos + [known[p]], peers + {p})
  {
  }

  lemma PrefixMayBeDialed(cfg: Config, d: State, now: nat, active: set<PeerId>, known: map<PeerId, PeerInfo>,
                          eligible: seq<PeerInfo>, number: nat)
    requires KeyedByPeer(known)
    requires Collected(known, eligible, EligiblePeers(cfg, d, now, active, known))
    requires number == NumberToDial(cfg, d, |eligible|)
    ensures Dialable(known, PeersOf(eligible[..number]))
    ensures MayChoose(cfg, d, now, active, known, PeersOf(eligible[..number]))
  {
    var chosen := PeersOf(eligible[..number]);
    assert forall i :: 0 <= i < |chosen| ==> chosen[i] == eligible[i].peer;
  }

  /** The state in the middle of the drain, with the peers in `todo` still to be visited. */
  ghost function PartlyDrained(cfg: Config, s: State, now: nat, todo: set<PeerId>): State {
    s.(pending := map p | p in s.pending && (p in todo || Received(s, p).Empty?) :: s.pending[p],
       backoffs := map p | p in s.backoffs.Keys + s.pending.Keys && BackoffSoFar(cfg, s, p, now, todo).Some? ::
                     BackoffSoFar(cfg, s, p, now, todo).value)
  }

  ghost function BackoffSoFar(cfg: Config, s: State, p: PeerId, now: nat, todo: set<PeerId>): Option<Backoff> {
    if p !in todo then SettledBackoff(cfg, s, p, now)
    else if p in s.backoffs then Some(s.backoffs[p])
    else None
  }

  lemma PartlyDrainedEnds(cfg: Config, s: State, now: nat)
    ensures PartlyDrained(cfg, s, now, s.pending.Keys) == s
    ensures PartlyDrained(cfg, s, now, {}) == Drain(cfg, s, now)
  {
    var first, last := PartlyDrained(cfg, s, now, s.pending.Keys), PartlyDrained(cfg, s, now, {});
    var d := Drain(cfg, s, now);
    assert first.pending == s.pending && first.backoffs == s.backoffs;
    assert last.pending == d.pending && last.backoffs == d.backoffs;
  }

  /** One step of the drain: the dial of one peer. */
  function Settle(cfg: Config, s: State, p: PeerId, now: nat): State {
    s.(pending := if p in s.pending && Received(s, p).Empty? then s.pending else s.pending - {p},
       backoffs := if Succeeded(s, p) then s.backoffs - {p}
                   else if HasFailed(s, p) then s.backoffs[p := Bumped(cfg, s, p, now)]
                   else s.backoffs)
  }

  lemma PartlyDrainedVisit(cfg: Config, s: State, now: nat, todo: set<PeerId>, p: PeerId)
    requires p in todo && todo <= s.pending.Keys && Accounted(s, p)
    ensures var a := PartlyDrained(cfg, s, now, todo);
            && p in a.pending && Received(a, p) == Received(s, p)
            && !Received(a, p).Dropped?
            && (Succeeded(a, p) ==> Received(a, p).outcome.peer == p)
            && PartlyDrained(cfg, s, now, todo - {p}) == Settle(cfg, a, p, now)
  {
    var a, b := PartlyDrained(cfg, s, now, todo), PartlyDrained(cfg, s, now, todo - {p});
    var c := Settle(cfg, a, p, now);
    assert Received(a, p) == Received(s, p);
    assert p in s.backoffs <==> p in a.backoffs;
    PendingAfterVisit(cfg, s, now, todo, p);
    BackoffsAfterVisit(cfg, s, now, todo, p);
  }

  lemma PendingAfterVisit(cfg: Config, s: State, now: nat, todo: set<PeerId>, p: PeerId)
    requires p in todo && todo <= s.pending.Keys
    ensures PartlyDrained(cfg, s, now, todo - {p}).pending ==
            Settle(cfg, PartlyDrained(cfg, s, now, todo), p, now).pending
  {
  }

  lemma BackoffsAfterVisit(cfg: Config, s: State, now: nat, todo: set<PeerId>, p: PeerId)
    requires p in todo && todo <= s.pending.Keys
    ensures PartlyDrained(cfg, s, now, todo - {p}).backoffs ==
            Settle(cfg, PartlyDrained(cfg, s, now, todo), p, now).backoffs
  {
    var a, b := PartlyDrained(cfg, s, now, todo), PartlyDrained(cfg, s, now, todo - {p});
    var c := Settle(cfg, a, p, now);
    assert Received(a, p) == Received(s, p);
    assert p in a.backoffs <==> p in s.backoffs;
    forall q
      ensures q in b.backoffs <==> q in c.backoffs
      ensures q in b.backoffs ==> b.backoffs[q] == c.backoffs[q]
    {
      if q != p {
        assert BackoffSoFar(cfg, s, q, now, todo - {p}) == BackoffSoFar(cfg, s, q, now, todo);
      }
    }
  }
}
