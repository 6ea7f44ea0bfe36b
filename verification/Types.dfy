/** Value types shared by the whole model: peer identities with their order,
    connections, and the events that subscribers receive. */
module Types {

  datatype Option<+T> = None | Some(value: T)

  datatype Result<+T, +E> = Ok(value: T) | Err(error: E) {
    predicate IsFailure() { Err? }

    function PropagateFailure<U>(): Result<U, E>
      requires Err?
    {
      Err(error)
    }

    function Extract(): T
      requires Ok?
    {
      value
    }
  }

  newtype Byte = x: int | 0 <= x < 0x100

  const PEER_ID_LENGTH := 32

  /** An ed25519 public key. */
  type PeerId = id: seq<Byte> | |id| == PEER_ID_LENGTH witness seq(PEER_ID_LENGTH, _ => 0 as Byte)

  /** The derived order on byte arrays: lexicographic, first byte first. */
  predicate LexLess(a: seq<Byte>, b: seq<Byte>) {
    if b == [] then false
    else if a == [] then true
    else a[0] < b[0] || (a[0] == b[0] && LexLess(a[1..], b[1..]))
  }

  predicate Less(a: PeerId, b: PeerId) {
    LexLess(a, b)
  }

  lemma {:induction false} LexLessIsTotal(a: seq<Byte>, b: seq<Byte>)
    ensures LexLess(a, b) || a == b || LexLess(b, a)
    ensures !(LexLess(a, b) && LexLess(b, a))
    ensures !LexLess(a, a)
  {
    if a != [] && b != [] {
      LexLessIsTotal(a[1..], b[1..]);
      assert a[0] == b[0] && a[1..] == b[1..] ==> a == b by {
        assert a == [a[0]] + a[1..] && b == [b[0]] + b[1..];
      }
    }
    if a == [] {
    } else {
      LexLessIsTotal(a[1..], a[1..]);
    }
  }

  /** Of two distinct peers exactly one is the greater, so both sides of a
      connection agree on who that is. */
  lemma PeerOrderIsTotal(a: PeerId, b: PeerId)
    ensures a != b ==> Less(a, b) != Less(b, a)
    ensures !Less(a, a)
  {
    LexLessIsTotal(a, b);
    LexLessIsTotal(a, a);
  }

  /** Who dialed: Inbound means that we are the listener. */
  datatype Origin = Inbound | Outbound

  /** One side's handle on a QUIC connection. `serial` is the identity of the
      connection and is never reused; `stableId` is the transport's identifier,
      distinct only among connections that are alive at the same time. */
  datatype Connection = Connection(peer: PeerId, origin: Origin, stableId: nat, serial: nat)

  datatype DisconnectReason =
    | Requested
    | VersionMismatch
    | TransportError
    | ConnectionClosed
    | ApplicationClosed
    | Reset
    | TimedOut
    | LocallyClosed

  datatype PeerEvent = NewPeer(peer: PeerId) | LostPeer(peer: PeerId, reason: DisconnectReason)

  datatype PeerAffinity = High | Allowed | Never

  type Address = nat

  datatype PeerInfo = PeerInfo(peer: PeerId, affinity: PeerAffinity, addresses: seq<Address>)

  /** What the task of an inbound connection has decided: nothing yet, or to go on after the
      limit check, or to go on without one, or to give up. */
  datatype Stage = Undecided | Admitted(conn: Connection) | Bypassing(conn: Connection) | TurnedAway
}
