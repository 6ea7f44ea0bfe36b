# A verified model of anemo

anemo is a peer-to-peer network library: nodes are identified by ed25519 keys, keep one
QUIC connection to each active peer, and send each other requests over it. This project
models the parts of anemo that decide things, and proves what they keep over every run.

`dafny verify dfyconfig.toml` checks all of it.

| file | what it models |
|---|---|
| `PeerTable`, `ActivePeers` | the table of active peers: tie-breaking, closing, events; once as a value and once as the class that updates it in place |
| `IncomingTasks` | the tasks of inbound connections over whole runs: who may enter |
| `HandlerRuns`, `RequestHandler` | one node over time: adds, disconnects and handler exits in any order; the handler's own event loop |
| `SimultaneousDial` | two nodes that dial each other, under every interleaving |
| `Dialing`, `DialHistory` | the background dialer as a state machine; what whole runs of it do to one peer |
| `Manager` | the connection manager's event handlers, in place, each proved to be a step of those machines |
| `Admission` | the limit on inbound connections, checked before and enforced after the handshake |
| `Arithmetic` | products and remainders |
| `Messages`, `Utf8`, `Encoding`, `Wire` | status codes, headers and the wire format |
| `Rpc` | unary calls, client and server |
| `Timeout` | the timeout header and the server's deadline |
| `InflightLimit` | the limit on each peer's requests in flight |
| `Routing`, `RouterPlans` | the router's linked tables, and routers put together by any sequence of its operations |
| `MatchName` | matching of dotted names in code generation |

The class methods in `ActivePeers`, `Manager`, `RequestHandler`, `InflightLimit`, `Wire` and
`Routing` follow the code; each is tied to a function on values, and the lemmas are about
these functions.

## What is assumed of the environment

- Stable ids are distinct among connections that a handler keeps alive
  (crates/anemo/src/connection.rs:67-73); they may be reused afterwards. A connection also
  has a serial number that is never reused: its identity, which the program does not see.
- A successful dial with an expected peer id yields that peer id
  (crates/anemo/src/crypto.rs:255-276).
- The times given to connectivity checks never decrease; ticks of the event loop come in
  any order with everything else.
- Handler and dialing tasks run to their end. They are not cancelled, except that shutdown
  terminates the connections in progress.
- bincode writes integers in fixed width with the least byte first, texts as a 64-bit length
  and UTF-8 bytes, and maps as a 64-bit length and the entries in any order; its reader
  accepts bytes after the value. A frame is a 32-bit length, greatest byte first, and the
  payload. The frame limit is below 2^32, whether it is configured or the codec's own
  default, which is a parameter here.
- Each connection is handled by one connecting task, which ends with that connection or
  with an error.
- The pattern matcher of the router rejects a pattern it already holds and looks up by the
  set of patterns alone. The semaphore serves waiters in order.

## What came out

- **Agreement has an exact condition.** Two nodes are sure to keep the same connection if and
  only if one connection dominates: it is the only one, or the only one dialed by the greater
  side (`AgreementExactlyIfDominant`). Two connections dialed by the same side, the greater, or
  the lesser with none from the greater, can be added in opposite orders, and each side closes
  the one that the other keeps.
- **For a node that dials itself order matters.** The direction of the connection added first
  keeps its last connection, and all of the other direction are closed
  (`FirstDirectionSurvives`). So two orders that keep each direction's own order have the same
  outcome if and only if the peer is another node or the same direction came first
  (`OrderMattersOnlyToOneself`; `DialingOneselfDependsOnOrder` is the smallest instance). The
  comment at connection_manager.rs:660 asks for such connections to be dropped.
- **The overshoot** that connection_manager.rs:274-275 admits is at most the number of
  connections between check and add, less one; no smaller bound holds. So a positive limit
  is kept in all runs if and only if connections are admitted one at a time
  (`LimitHoldsExactlyIfSerial`).
- **The panic about an unfinished dial** cannot happen before shutdown. It would in a check
  after it, exactly if shutdown found a dial in flight (`ShutdownDropsDialsInFlight`), but
  shutdown leaves the event loop for good.
- **An error status with a success code** is taken for a response by the caller
  (`ErrorSurvivesExactlyIfNotSuccess`, and `SuccessErrorIsMistaken` for a service that does
  it): `Status` does not rule such codes out.
- **`match_name` panics** on a pattern that starts outside ASCII and is not the path itself,
  because it slices off one byte (`MatcherMeetsDescription`; `AccentedPatternPanics` is one).
- **Frames are limited even if no limit is configured.** crates/anemo/src/config.rs:92-98
  promises that there is no limit then; the code leaves the codec's own default in place
  (wire.rs:21-29). Between two unconfigured ends a message arrives if and only if both of its
  frames are within that default (`UnconfiguredRequestsAreLimited`,
  `UnconfiguredResponsesAreLimited`), and a body one byte longer is lost (`OneByteTooMany`).

## Model

| member | source | states |
|---|---|---|
| Types.PeerOrderIsTotal | crates/anemo/src/types/peer_id.rs:4-5 | of two distinct peers exactly one is less, so both ends of a connection agree who is the greater |
| PeerTable.TieBreakPrefersGreater | crates/anemo/src/network/connection_manager.rs:692-714 | the newer connection loses exactly if the older was dialed by the greater side and the newer was not |
| PeerTable.InsertConserves | crates/anemo/src/network/connection_manager.rs:659-690 | adding keeps each added connection exactly one of entry of its own peer and closed |
| PeerTable.RemoveConserves | crates/anemo/src/network/connection_manager.rs:623-630 | removing keeps the same |
| PeerTable.InsertExtends | crates/anemo/src/network/connection_manager.rs:653-690 | the events sent by an add take the old set of peers to the new one |
| PeerTable.RemoveExtends | crates/anemo/src/network/connection_manager.rs:623-630 | so do those sent by a removal |
| PeerTable.ReplayAlternates | crates/anemo/src/types/mod.rs:64-68 | a log that replays strictly alternates for every peer |
| PeerTable.ReplayParity | crates/anemo/src/types/mod.rs:64-68 | the number of a peer's events tells whether it is connected |
| PeerTable.LastPreferredSurvives | crates/anemo/src/network/connection_manager.rs:659-714 | adding any sequence of connections of one peer leaves the last one dialed by the greater side, or the last one if there is none |
| PeerTable.SurvivorIsLastOfItsDirection | crates/anemo/src/network/connection_manager.rs:699-714 | the survivor is the last of its direction, which depends only on what each direction holds |
| PeerTable.InterleavingDoesNotMatter | crates/anemo/src/network/connection_manager.rs:659-714 | two interleavings of the same two directions leave the same connection |
| PeerTable.FirstDirectionSurvives | crates/anemo/src/network/connection_manager.rs:659-714 | adding any sequence of connections with oneself leaves the last one of the direction that came first |
| PeerTable.OrderMattersOnlyToOneself | crates/anemo/src/network/connection_manager.rs:659-714 | two interleavings leave the same connection if and only if the peer is another node or the same direction came first |
| ActivePeers.ActivePeers.Add | crates/anemo/src/network/connection_manager.rs:659-690 | updates connections, events and closed connections as the table specification says, and hands back the connection exactly if it was accepted |
| ActivePeers.ActivePeers.Remove | crates/anemo/src/network/connection_manager.rs:623-630 | closes and removes the peer's connection and sends one LostPeer, or changes nothing |
| ActivePeers.ActivePeers.RemoveWithStableId | crates/anemo/src/network/connection_manager.rs:632-651 | the same, only if the entry has this stable id |
| ActivePeers.ActivePeers.Subscribe | crates/anemo/src/network/connection_manager.rs:601-605 | the snapshot is the set of peers at the position from which events are received |
| ActivePeers.KnownPeers.Insert | crates/anemo/src/network/connection_manager.rs:742-744 | every entry stays filed under its own peer id, and the previous one is returned |
| HandlerRuns.ExitRemovesOnlyItsOwn | crates/anemo/src/network/request_handler.rs:107-111 | a handler's exit removes its own connection or nothing, whatever replaced it |
| HandlerRuns.RunKeepsInv | crates/anemo/src/network/connection_manager.rs:205-221 | in every reachable state each table entry has a live handler for that same connection |
| HandlerRuns.EveryConnectionIsEntryOrClosed | crates/anemo/src/network/connection_manager.rs:623-690 | each connection ever passed to add is exactly one of current entry of its own peer and closed by the table, and there are no others |
| HandlerRuns.SubscriberSeesCurrentPeers | crates/anemo/src/network/connection_manager.rs:601-605 | for a subscriber joining at any point, replaying its events over its snapshot gives the current peers |
| HandlerRuns.LogAlternates | crates/anemo/src/network/connection_manager.rs:653-690 | each peer's events alternate NewPeer and LostPeer, NewPeer first, and end with NewPeer exactly if it is connected |
| HandlerRuns.HandlerStartsForEntry | crates/anemo/src/network/connection_manager.rs:205-221 | a handler starts exactly for a connection that has become the entry of its peer |
| HandlerRuns.HandlersRunFromAcceptanceToExit | crates/anemo/src/network/connection_manager.rs:205-221 | in every run a handler runs exactly for the connections that were accepted and have not died, and is being shut down exactly for those that died and were not joined |
| HandlerRuns.LossCarriesReason | crates/anemo/src/network/connection_manager.rs:623-690 | an event logs a loss, with its own reason, exactly if it takes the peer's connection out, which is then closed; after a disconnect the peer is gone |
| HandlerRuns.EveryLossHasItsReason | crates/anemo/src/network/connection_manager.rs:623-690 | in every run, a loss that subscribers are told has the reason of the disconnect or handler's end that caused it, or of a replacement |
| HandlerRuns.NoHandlersMeansNoPeers | crates/anemo/src/network/connection_manager.rs:179-185 | shutdown's assertion: in any reachable state without handlers no peer is active |
| HandlerRuns.DrainTakesRemainingSteps | crates/anemo/src/network/connection_manager.rs:179-180 | each handler step of the drain uses up one unit of the remaining work, and when it is used up no handler and no peer is left |
| RequestHandler.InboundRequestHandler.Start | crates/anemo/src/network/request_handler.rs:44-116 | ends at the first error, takes the connection out and tells subscribers that reason if it is still the entry, and aborts exactly the requests started and not done |
| RequestHandler.ReasonNamesTheError | crates/anemo/src/types/mod.rs:83-95 | each error is reported under its own name, except that running out of connection ids is a transport error; none is reported as requested |
| RequestHandler.InFlightOneMore | crates/anemo/src/network/request_handler.rs:49-105 | one loop iteration puts a request in flight, takes it out or leaves it |
| SimultaneousDial.DominantLinkIsKept | crates/anemo/src/network/connection_manager.rs:692-714 | under every interleaving at both nodes, a dominant link is never closed by either side, is held by each side that added it, and every other link added there is closed |
| SimultaneousDial.OnlyDominantIsServed | crates/anemo/src/network/request_handler.rs:107-113 | once the handlers of closed links have exited, the dominant link is the only one served, at both sides |
| SimultaneousDial.AgreementExactlyIfDominant | crates/anemo/src/network/connection_manager.rs:692-714 | in every run both sides hold one common link if and only if some link dominates |
| SimultaneousDial.AddingLastWins | crates/anemo/src/network/connection_manager.rs:659-714 | a side can add all links so that any chosen one with the best claim is kept and all others are closed |
| Dialing.DelayIsCappedProduct | crates/anemo/src/network/connection_manager.rs:510-513 | the saturating computation is the capped product over the integers, up to 2^32 - 1 attempts |
| Dialing.DrainNeverPanics | crates/anemo/src/network/connection_manager.rs:338-376 | in every run before shutdown each pending dial is held by exactly one task for that peer or has its result, so neither panic of the drain can happen |
| Dialing.CompletedKeepsInv | crates/anemo/src/network/connection_manager.rs:303-332 | a task that ends delivers its result to its own dial and leaves the others accounted for |
| Dialing.ShutdownDropsDialsInFlight | crates/anemo/src/network/connection_manager.rs:176-177 | after shutdown the drain would panic if and only if shutdown found a dial in flight |
| Dialing.CheckDialsTheRightPeers | crates/anemo/src/network/connection_manager.rs:378-397 | every newly dialed peer is known with High affinity, is not this node, has an address, is not active and is past its backoff; unless the limit is reached every such peer is being dialed |
| Dialing.DialEndsWithNextCheck | crates/anemo/src/network/connection_manager.rs:338-368 | whatever happens between the end of a dial and the next check, after that check a connection has cleared the backoff, and a failure counts as one more and waits for exactly the delay of that many |
| Dialing.CheckDialsWithinLimit | crates/anemo/src/network/connection_manager.rs:378-422 | a check starts exactly min(eligible, limit - in flight) dials, to distinct eligible peers, and never leaves more tasks than before or than the limit |
| DialHistory.BackoffAddsUp | crates/anemo/src/network/connection_manager.rs:348-368 | in any run, after k failures in a row the next dial comes later than the first by more than the sum of all k delays |
| DialHistory.BackoffIsNoLonger | crates/anemo/src/network/connection_manager.rs:390-393 | in any run a peer is past its backoff at every check later than the last one by more than the delay of its failures |
| DialHistory.UncappedSumIsQuadratic | crates/anemo/src/network/connection_manager.rs:502-515 | while uncapped that sum is step * k(k+1)/2 |
| DialHistory.AddressesAreTriedInTurn | crates/anemo/src/network/connection_manager.rs:407-421 | any n successive dials of a streak try each position of n unchanged addresses exactly once, starting with the first after a success |
| Manager.ConnectionManager.AddPeer | crates/anemo/src/network/connection_manager.rs:205-221 | is the add step of the node and of admission: a handler is started exactly if the connection became the entry of its peer |
| Manager.ConnectionManager.HandlerExits | crates/anemo/src/network/request_handler.rs:107-113 | is the exit step of the node and of admission |
| Manager.ConnectionManager.Disconnect | crates/anemo/src/network/mod.rs:413-420 | is the disconnect step of the node and of admission, at any time; the peer is gone |
| Manager.ConnectionManager.Shutdown | crates/anemo/src/network/connection_manager.rs:171-185 | ends, although peers may be disconnected meanwhile, its assertion holds, and nothing is left in flight |
| Manager.ConnectionManager.HandleConnectRequest | crates/anemo/src/network/connection_manager.rs:223-230 | starts one task for the address and expected peer, with a new channel that no pending dial shares, and leaves admission alone |
| Manager.ConnectionManager.HandleIncoming | crates/anemo/src/network/connection_manager.rs:232-241 | starts a task without a channel that has decided nothing yet |
| Manager.ConnectionManager.CheckIncoming | crates/anemo/src/network/connection_manager.rs:250-287 | turns a banned peer away and lets any other known one through; one that is not known is turned away exactly if there is a limit and it has been reached |
| Manager.ConnectionManager.HandleConnectingResult | crates/anemo/src/network/connection_manager.rs:303-332 | adds the connection; tells the waiting dial the peer of the connection, or that it failed, and nobody else anything; is the step of admission that fits what the task had decided |
| Manager.ConnectionManager.HandleConnectivityCheck | crates/anemo/src/network/connection_manager.rs:336-423 | is a step of the dialer that may happen; dials only known peers of High affinity that are not this node, have an address, are not active and are past their backoff, and unless the limit is reached all of them |
| Manager.ConnectionManager.Tick | crates/anemo/src/network/connection_manager.rs:121-123 | keeps the whole invariant, handlers and admission |
| Manager.ConnectionManager.DrainCompletedDials | crates/anemo/src/network/connection_manager.rs:338-376 | visiting the pending dials in any order settles all of them at once |
| Manager.ConnectionManager.SettleDial | crates/anemo/src/network/connection_manager.rs:340-376 | settles one dial; the two panics are shown unreachable |
| Manager.ConnectionManager.CollectEligible | crates/anemo/src/network/connection_manager.rs:378-397 | collects, each once, exactly the known peers of High affinity that are not this node, have an address, are neither active nor being dialed and are past their backoff |
| Manager.ConnectionManager.DialAll | crates/anemo/src/network/connection_manager.rs:407-422 | dials the chosen peers, each at the address that its attempts select |
| Admission.DecisionIsExact | crates/anemo/src/network/connection_manager.rs:254-285 | rejected as banned exactly if known as such, let through unchecked exactly if known otherwise, rejected for the limit exactly if not known and the limit is set and reached |
| IncomingTasks.OnlyTheEntitledEnter | crates/anemo/src/network/connection_manager.rs:243-301 | in every run, an incoming task that ends with a connection decided about that one, and its peer was known and not banned, or was not known and the limit, if any, was not reached |
| IncomingTasks.OthersAreTurnedAway | crates/anemo/src/network/connection_manager.rs:261-283 | in every run, a task that decided about a banned peer, or an unknown one at the limit, ends without a connection |
| Admission.OvershootIsBounded | crates/anemo/src/network/connection_manager.rs:271-283 | active connections that had to pass the check, with those in flight, never exceed limit - 1 + parallel, and limit 0 admits none |
| Admission.OvershootIsAttained | crates/anemo/src/network/connection_manager.rs:274-275 | for every limit and parallelism a run reaches exactly that number, with connections of distinct ids, and it is also a run of the node with its handlers |
| Admission.LimitHoldsExactlyIfSerial | crates/anemo/src/network/connection_manager.rs:271-283 | no run exceeds the limit if and only if the limit is 0 or at most one connection is between check and add |
| Admission.AbandonAll | crates/anemo/src/network/connection_manager.rs:176-177 | terminating the connections in progress is a run of admission that abandons each |
| Messages.StatusRoundTrip | crates/anemo/src/types/response.rs:51-93 | codes and numbers determine each other, and only one code is a success |
| Utf8.DecodeUndoes | crates/anemo/src/types/request.rs:33-58 | decoding encoded text gives it back |
| Utf8.EncodeUndoes | crates/anemo/src/types/request.rs:33-58 | decoding accepts nothing but encoded text |
| Encoding.BigEndianAt | crates/anemo/src/network/wire.rs:28 | where each byte of a frame length goes, greatest first |
| Encoding.LittleEndianAt | crates/anemo/src/types/request.rs:33-58 | where each byte of a serialized number goes, least first |
| Encoding.EnumerationRebuildsMap | crates/anemo/src/types/request.rs:33-58 | in whatever order a map is listed, inserting the entries gives it back |
| Encoding.TakeHeadersUndoes | crates/anemo/src/types/request.rs:33-58 | reading written headers gives the map they build and what follows |
| Encoding.TakeFrameUndoes | crates/anemo/src/network/wire.rs:19-29 | reading a written frame gives the payload exactly if it is within the limit |
| Encoding.CutFrameIsRejected | crates/anemo/src/network/wire.rs:19-29 | a frame that was cut short is never read |
| Encoding.FrameIsGenuine | crates/anemo/src/network/wire.rs:19-29 | nothing but a frame within the limit is read as one |
| Wire.VersionRoundTrip | crates/anemo/src/network/wire.rs:59-83 | reading a written version frame gives the version and what follows |
| Wire.VersionIsGenuine | crates/anemo/src/network/wire.rs:59-70 | a version frame is accepted exactly if it is the eight bytes of version 1; each other one is refused with the error that fits |
| Wire.RequestIsGenuine | crates/anemo/src/network/wire.rs:131-154 | nothing but a version frame and two frames within the limit is read as a request, and what is read is in them |
| Wire.ResponseIsGenuine | crates/anemo/src/network/wire.rs:156-179 | the same for a response, with a status that has a code |
| Wire.MessageLayout | crates/anemo/src/network/wire.rs:72-129 | a message byte by byte: version, length and header, length and body |
| Wire.RequestHeaderLayout | crates/anemo/src/types/request.rs:33-58 | a request's header byte by byte, up to its entries |
| Wire.ResponseHeaderLayout | crates/anemo/src/types/response.rs:21-29 | a response's header byte by byte, up to its entries |
| Wire.RequestRoundTrip | crates/anemo/src/network/wire.rs:85-154 | reading a written request recovers version, route, headers and body for every listing of the headers, or fails exactly at the reader's limit |
| Wire.ResponseRoundTrip | crates/anemo/src/network/wire.rs:107-179 | the same for responses and their status |
| Wire.StrictPrefixIsRejected | crates/anemo/src/network/wire.rs:131-179 | no strict prefix of a written message can be read |
| Wire.FailedWriteIsRejected | crates/anemo/src/network/wire.rs:85-129 | what a failed write leaves behind cannot be read |
| Wire.RequestIsCarried | crates/anemo/src/network/wire.rs:85-154 | a request arrives, without its extensions, exactly if its frames fit both limits |
| Wire.ResponseIsCarried | crates/anemo/src/network/wire.rs:107-179 | so does a response |
| Wire.LimitsDecideRequests | crates/anemo/src/network/wire.rs:21-29 | a request arrives exactly if it is within each configured limit, and within the codec's default if one end has none |
| Wire.LimitsDecideResponses | crates/anemo/src/network/wire.rs:21-29 | so does a response |
| Wire.UnconfiguredRequestsAreLimited | crates/anemo/src/network/wire.rs:21-29 | between ends without a configured limit a request arrives if and only if both frames are within the codec's default |
| Wire.UnconfiguredResponsesAreLimited | crates/anemo/src/network/wire.rs:21-29 | so does a response |
| Wire.OneByteTooMany | crates/anemo/src/network/wire.rs:21-29 | for every route and all headers a body one byte longer than the default is lost, though one of that length arrives |
| Wire.Sink.WriteVersionFrame | crates/anemo/src/network/wire.rs:72-83 | filling the buffer part by part writes the version frame |
| Wire.Sink.WriteRequest | crates/anemo/src/network/wire.rs:85-105 | writes the frames of a request, up to the first that is too long |
| Wire.Sink.WriteResponse | crates/anemo/src/network/wire.rs:107-129 | writes the frames of a response, up to the first that is too long |
| Wire.Source.ReadVersionFrame | crates/anemo/src/network/wire.rs:59-70 | reads what the parser finds, with the same errors |
| Wire.Source.ReadRequest | crates/anemo/src/network/wire.rs:131-154 | reads what the parser finds, with the same errors |
| Wire.Source.ReadResponse | crates/anemo/src/network/wire.rs:156-179 | reads what the parser finds, with the same errors |
| Rpc.RequestArrives | crates/anemo/src/network/wire.rs:85-154 | the handler sees the request, with the caller's identity, exactly if it fits |
| Rpc.ReplyArrives | crates/anemo/src/network/wire.rs:107-179 | the caller sees the response, with the callee's identity, exactly if it fits |
| Rpc.RemoteCallMeansLocalCall | crates/anemo/src/rpc/mod.rs:153-304 | if request and response fit the frame limits, a call over the wire gives what the service gives directly: same body, route, version and headers but for content type, status message, peer and extensions; else the caller gets the transport's error |
| Rpc.RemoteCallMeaning | crates/anemo/src/rpc/mod.rs:153-304 | what any call over the wire comes to, without assumptions on codecs or sizes |
| Rpc.CodecFailuresAreReported | crates/anemo/src/rpc/mod.rs:173-297 | which of the four codings failed is told to the caller by code and text |
| Rpc.ErrorSurvivesExactlyIfNotSuccess | crates/anemo/src/rpc/mod.rs:77-109 | an error of a call that fits arrives as an error with its code exactly if the code is no success, and then with its message; of a call that does not fit, exactly if the code is Unknown |
| Rpc.SuccessErrorIsMistaken | crates/anemo/src/rpc/mod.rs:95-109 | a service that fails with a success code is seen to respond with an empty body |
| Timeout.ParseUndoesPrint | crates/anemo/src/middleware/timeout/mod.rs:11-27 | parsing a printed 64-bit number gives it back |
| Timeout.PrintUndoesParse | crates/anemo/src/middleware/timeout/mod.rs:11-27 | printing a parsed text without superfluous zeros gives it back |
| Timeout.ParseMeansDenotes | crates/anemo/src/middleware/timeout/mod.rs:14 | a header parses to n exactly if it is n in print with any zeros and perhaps a plus sign in front, within 64 bits |
| Timeout.TimeoutRoundTrip | crates/anemo/src/types/request.rs:183-235 | the timeout read after setting d is min(d, 2^64 - 1 ns), and other headers stay |
| Timeout.DeadlineIsShortest | crates/anemo/src/middleware/timeout/inbound.rs:60-74 | the deadline is the greatest one that exceeds neither the default nor a parsable timeout, and none exactly if there is neither |
| Timeout.DeadlineOfClientTimeout | crates/anemo/src/middleware/timeout/inbound.rs:60-74 | from setting a timeout at the client to the minimum of all three at the server |
| InflightLimit.PermitsAreConserved | crates/anemo-tower/src/inflight_limit.rs:156-191 | in every run, for each peer free permits and running calls add up to the limit, and calls wait only at the limit |
| InflightLimit.RejectedExactlyAtLimit | crates/anemo-tower/src/inflight_limit.rs:164-187 | without waiting, a call is one too many exactly if its peer has the maximum running; a rejected call changes nothing |
| InflightLimit.VerdictSaysWhereTheCallIs | crates/anemo-tower/src/inflight_limit.rs:164-187 | in both modes the verdict is running, waiting or rejected exactly if the call then holds a permit, is queued or neither |
| InflightLimit.CallsAreConserved | crates/anemo-tower/src/inflight_limit.rs:156-191 | in every run a call that was let in and has neither finished nor been cancelled is exactly one of running and waiting, in one place, and there are no other calls |
| InflightLimit.PeersAreIsolated | crates/anemo-tower/src/inflight_limit.rs:168-173 | each peer is served as if the others did not exist |
| InflightLimit.NobodyOvertakes | crates/anemo-tower/src/inflight_limit.rs:174-179 | over any run a call stays ahead of every call that it was ahead of, until it is cancelled or has run to its end |
| InflightLimit.FirstComeFirstServed | crates/anemo-tower/src/inflight_limit.rs:174-179 | in every run a call that waits gets its permit before any call that arrives at that peer later |
| InflightLimit.PlaceNeverGrows | crates/anemo-tower/src/inflight_limit.rs:174-179 | over any run a waiting call moves up or stays where it is, or holds a permit |
| InflightLimit.Middleware.Call | crates/anemo-tower/src/inflight_limit.rs:156-187 | is the arrival step, creating the peer's semaphore on demand |
| InflightLimit.Middleware.Done | crates/anemo-tower/src/inflight_limit.rs:188-191 | is the completion step |
| InflightLimit.Middleware.Dropped | crates/anemo-tower/src/inflight_limit.rs:164-191 | is the cancellation step: exactly this call is gone, and its permit or its place in the queue given back |
| Routing.RouteIds.Next | crates/anemo/src/routing/mod.rs:22-32 | hands out the numbers in order and panics at the last, wrapping around |
| Routing.Router.Insert | crates/anemo/src/routing/mod.rs:204-218 | enters the path in all three tables or in none |
| Routing.Router.Route | crates/anemo/src/routing/mod.rs:53-83 | panics exactly for a relative path, a conflict or the last id; else serves one more path and keeps the bijection |
| Routing.Router.Merge | crates/anemo/src/routing/mod.rs:102-125 | panics exactly if ids run out or some path, in the order of ids, conflicts with what is there by then; else serves both sets of routes under fresh ids and keeps the bijection |
| Routing.HarmonyIsMergeable | crates/anemo/src/routing/mod.rs:102-125 | paths that do not conflict in any order merge whatever their ids are |
| Routing.Router.RouteLayer | crates/anemo/src/routing/mod.rs:129-157 | wraps each service registered so far and keeps the paths and the bijection |
| Routing.Router.Call | crates/anemo/src/routing/mod.rs:175-192 | answers with the service of the selected path, and falls back exactly if none is selected; the expected route is always there |
| Routing.TakenInOrder | crates/anemo/src/routing/mod.rs:102-125 | what a merge demands of the ids means that the paths fit one after the other |
| RouterPlans.Build | crates/anemo/src/routing/mod.rs:43-157 | any sequence of route, merge and route_layer succeeds exactly if the paths agree in the order of registration and ids are left, and then serves exactly the routes given directly |
| RouterPlans.Answer | crates/anemo/src/routing/mod.rs:175-192 | a built router answers a request with s exactly if the matcher selects, among all paths of the plan, one that the plan registers with s |
| RouterPlans.HarmonyAgrees | crates/anemo/src/routing/mod.rs:43-157 | distinct paths that do not conflict in any order agree in every plan that has them |
| RouterPlans.SameRoutesSameMap | crates/anemo/src/routing/mod.rs:102-125 | the order in which routes are given does not matter |
| MatchName.JoinUndoesSplit | crates/anemo-build/src/lib.rs:104-105 | joining the parts of a name gives it back |
| MatchName.SplitUndoesJoin | crates/anemo-build/src/lib.rs:104-105 | splitting joined parts gives them back |
| MatchName.PrefixOfSegments | crates/anemo-build/src/lib.rs:107-113 | whole leading segments are a string prefix up to a dot, or everything |
| MatchName.SuffixOfSegments | crates/anemo-build/src/lib.rs:114-119 | whole trailing segments are a string suffix from a dot on, or everything |
| MatchName.MatchesByText | crates/anemo-build/src/lib.rs:98-121 | a pattern with a leading dot matches itself and everything that goes on with a dot after it, any other ASCII one itself and everything that ends with it after a dot |
| MatchName.AccentedPatternPanics | crates/anemo-build/src/lib.rs:107 | a pattern of one accented letter panics on every other path |
| MatchName.MatcherMeetsDescription | crates/anemo-build/src/lib.rs:98-121 | the segment matcher agrees with the plain description on strings, and panics exactly for a pattern other than the path that starts outside ASCII |

## Left out

- QUIC, TLS, certificates, sockets, DNS and address resolution: connections are abstract, with a peer, an origin, a stable id and an identity.
- Broadcast channels have no capacity here: a subscriber that lags behind and loses events is not covered.
- Panics in tasks, teardown of the runtime and handlers dropped before their end: the shutdown assertion is shown for handlers that run to their end.
- Jitter, the interval and the order in which the event loop's branches are polled: any next event may happen, with times that do not decrease.
- Overflow of the clock, and of counters of the platform's word size.
- HandlerRuns.SubscriberSeesCurrentPeers: taking the snapshot and subscribing is one step, as both happen under the table's lock.
- DialBackoffState is a value inside a map here, not an object that is updated in place.
- Endpoint closing, waiting for idleness and rebinding at the end of shutdown.
- The order in which known peers are visited is arbitrary, as that of the hash map is.
- Rpc.RemoteCallMeansLocalCall: requests may fail in transport only by not fitting a frame limit; extensions other than the peer id, the source of an error and codecs with state are not modelled.
- Whether a response beats the deadline: the timeout's future races two clocks, and only the choice of the deadline is modelled.
- Outbound timeouts, peers' convenience wrappers and the network facade.
- Authorization, tracing, callbacks, header, request id and extension layers: thin wrappers, each settled by one branch.
- Rate limiting: its logic is in a foreign crate.
- Generated client and server code, snake case conversion, the command line tool, logging and display.
- Routing.Router.Route: the refusal to nest a router as a service is a matter of types here.
- InflightLimit.FirstComeFirstServed: a semaphore is never closed, as the code never closes one.
