/** The task that serves one connection: an event loop over its streams and its requests
    in flight, and the removal of the connection when the loop ends. */
module RequestHandler {
  import opened Types
  import opened PeerTable
  import opened ActivePeers

  datatype ConnectionError =
    | VersionMismatch
    | TransportError
    | ConnectionClosed
    | ApplicationClosed
    | Reset
    | TimedOut
    | LocallyClosed
    | CidsExhausted

  function FromConnectionError(e: ConnectionError): DisconnectReason {
    match e
    case VersionMismatch => DisconnectReason.VersionMismatch
    case TransportError => DisconnectReason.TransportError
    case ConnectionClosed => DisconnectReason.ConnectionClosed
    case ApplicationClosed => DisconnectReason.ApplicationClosed
    case Reset => DisconnectReason.Reset
    case TimedOut => DisconnectReason.TimedOut
    case LocallyClosed => DisconnectReason.LocallyClosed
    case CidsExhausted => DisconnectReason.TransportError
  }

  /** Subscribers are told the error by its name, except that running out of connection ids
      counts as a transport error; nothing that happens to a connection is reported as
      requested. */
  lemma ReasonNamesTheError(e: ConnectionError)
    ensures var r := FromConnectionError(e);
            && !r.Requested?
            && (r.VersionMismatch? <==> e.VersionMismatch?)
            && (r.TransportError? <==> e.TransportError? || e.CidsExhausted?)
            && (r.ConnectionClosed? <==> e.ConnectionClosed?)
            && (r.ApplicationClosed? <==> e.ApplicationClosed?)
            && (r.Reset? <==> e.Reset?)
            && (r.TimedOut? <==> e.TimedOut?)
            && (r.LocallyClosed? <==> e.LocallyClosed?)
  {
  }

  /** What the loop may be woken by. Uni streams and datagrams are dropped. */
  datatype LoopEvent =
    | UniStream
    | BiStream(request: nat)
    | Datagram
    | RequestDone(request: nat)
    | Failed(error: ConnectionError)

  /** The first error is the one that ends the loop. */
  ghost predicate EndsAt(events: seq<LoopEvent>, n: nat) {
    n < |events| && events[n].Failed? && forall i :: 0 <= i < n ==> !events[i].Failed?
  }

  /** Requests of the first n events that were started and are not done. */
  ghost predicate InFlight(events: seq<LoopEvent>, n: nat, request: nat)
    requires n <= |events|
  {
    exists i :: 0 <= i < n && events[i] == BiStream(request) && NotDone(events[i + 1..n], request)
  }

  ghost predicate NotDone(events: seq<LoopEvent>, request: nat) {
    RequestDone(request) !in events
  }

  class InboundRequestHandler {
    const connection: Connection
    const activePeers: ActivePeers
    var inflight: set<nat>

    constructor (connection: Connection, activePeers: ActivePeers)
      ensures this.connection == connection && this.activePeers == activePeers && inflight == {}
    {
      this.connection, this.activePeers, this.inflight := connection, activePeers, {};
    }

    /** Serves the connection until it dies. The connection is taken out of the table with
        the reason of the first error, and only then are the requests that are still in
        flight aborted; all others were done. */
    method Start(events: seq<LoopEvent>) returns (n: nat, aborted: set<nat>)
      requires inflight == {}
      requires exists i :: 0 <= i < |events| && events[i].Failed?
      modifies this, activePeers
      ensures EndsAt(events, n)
      ensures activePeers.View() == RemoveWithStableId(old(activePeers.View()), connection.peer, connection.stableId,
                                                       FromConnectionError(events[n].error))
      ensures activePeers.sent == old(activePeers.sent) +
                if old(connection.peer in activePeers.connections &&
                       activePeers.connections[connection.peer].stableId == connection.stableId)
                then [LostPeer(connection.peer, FromConnectionError(events[n].error))] else []
      ensures forall r :: r in aborted <==> InFlight(events, n, r)
      ensures inflight == {}
    {
      n := 0;
      while !events[n].Failed?
        invariant n < |events| && forall i :: 0 <= i < n ==> !events[i].Failed?
        invariant forall r :: r in inflight <==> InFlight(events, n, r)
        invariant activePeers.View() == old(activePeers.View())
        decreases |events| - n
      {
        ghost var before := inflight;
        match events[n] {
          case UniStream =>
          case BiStream(request) => inflight := inflight + {request};
          case Datagram =>
          case RequestDone(request) => inflight := inflight - {request};
        }
        InFlightNext(events, n, before, inflight);
        n := n + 1;
      }
      activePeers.RemoveWithStableId(connection.peer, connection.stableId, FromConnectionError(events[n].error));
      aborted := inflight;
      inflight := {};
    }
  }

  lemma InFlightNext(events: seq<LoopEvent>, n: nat, before: set<nat>, after: set<nat>)
    requires n < |events| && forall r :: r in before <==> InFlight(events, n, r)
    requires after == match events[n]
                      case BiStream(request) => before + {request}
                      case RequestDone(request) => before - {request}
                      case _ => before
    ensures forall r :: r in after <==> InFlight(events, n + 1, r)
  {
    forall r ensures r in after <==> InFlight(events, n + 1, r) {
      InFlightOneMore(events, n, r);
    }
  }

  lemma InFlightOneMore(events: seq<LoopEvent>, n: nat, request: nat)
    requires n < |events|
    ensures InFlight(events, n + 1, request) <==>
              events[n] == BiStream(request)
              || (InFlight(events, n, request) && events[n] != RequestDone(request))
  {
    if InFlight(events, n, request) && events[n] != RequestDone(request) {
      StaysInFlight(events, n, request);
    }
    if events[n] == BiStream(request) {
      assert NotDone(events[n + 1..n + 1], request);
    }
    if InFlight(events, n + 1, request) && events[n] != BiStream(request) {
      WasInFlight(events, n, request);
    }
  }

  lemma StaysInFlight(events: seq<LoopEvent>, n: nat, request: nat)
    requires n < |events| && InFlight(events, n, request) && events[n] != RequestDone(request)
    ensures InFlight(events, n + 1, request)
  {
    var i :| 0 <= i < n && events[i] == BiStream(request) && NotDone(events[i + 1..n], request);
    NotDoneOneMore(events, i + 1, n, request);
  }

  lemma WasInFlight(events: seq<LoopEvent>, n: nat, request: nat)
    requires n < |events| && InFlight(events, n + 1, request) && events[n] != BiStream(request)
    ensures InFlight(events, n, request) && events[n] != RequestDone(request)
  {
    var i :| 0 <= i < n + 1 && events[i] == BiStream(request) && NotDone(events[i + 1..n + 1], request);
    NotDoneOneMore(events, i + 1, n, request);
  }

  lemma NotDoneOneMore(events: seq<LoopEvent>, i: nat, n: nat, request: nat)
    requires i <= n < |events|
    ensures NotDone(events[i..n + 1], request) <==> NotDone(events[i..n], request) && events[n] != RequestDone(request)
  {
    assert events[i..n + 1] == events[i..n] + [events[n]];
  }
}
