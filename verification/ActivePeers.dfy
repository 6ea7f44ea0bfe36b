/** The shared handles of a node: the active peers and the known peers. */
module ActivePeers {
  import opened Types
  import opened PeerTable
  import opened Dialing

  class ActivePeers {
    var connections: map<PeerId, Connection>
    /** Everything broadcast to subscribers so far. */
    var sent: seq<PeerEvent>
    ghost var added: set<Connection>
    ghost var closed: set<Connection>

    ghost function View(): Table
      reads this
    {
      Table(connections, sent, added, closed)
    }

    constructor ()
      ensures View() == EMPTY
    {
      connections, sent, added, closed := map[], [], {}, {};
    }

    /** The position from which the new subscriber receives events, and its snapshot. */
    method Subscribe() returns (receiver: nat, peers: set<PeerId>)
      ensures receiver == |sent| && peers == connections.Keys
    {
      peers := connections.Keys;
      receiver := |sent|;
    }

    method Get(p: PeerId) returns (c: Option<Connection>)
      ensures c == if p in connections then Some(connections[p]) else None
    {
      c := if p in connections then Some(connections[p]) else None;
    }

    method Remove(p: PeerId, reason: DisconnectReason)
      modifies this
      ensures View() == PeerTable.Remove(old(View()), p, reason)
    {
      if p in connections {
        Close(connections[p]);
        connections := connections - {p};
        SendEvent(LostPeer(p, reason));
      }
    }

    method RemoveWithStableId(p: PeerId, stableId: nat, reason: DisconnectReason)
      modifies this
      ensures View() == PeerTable.RemoveWithStableId(old(View()), p, stableId, reason)
    {
      if p in connections {
        // another connection may have taken the place of the one that died
        if connections[p].stableId == stableId {
          Close(connections[p]);
          connections := connections - {p};
          SendEvent(LostPeer(p, reason));
        }
      }
    }

    /** Returns the connection that needs a request handler, if it was accepted. */
    method Add(own: PeerId, c: Connection) returns (handle: Option<Connection>)
      modifies this
      ensures View() == Insert(own, old(View()), c)
      ensures handle == if Accepts(own, old(View()), c) then Some(c) else None
    {
      added := added + {c};
      if c.peer in connections {
        if TieBreak(own, c.peer, connections[c.peer].origin, c.origin) {
          var existing := connections[c.peer];
          connections := connections[c.peer := c];
          Close(existing);
          SendEvent(LostPeer(c.peer, Requested));
        } else {
          Close(c);
          return None;
        }
      } else {
        connections := connections[c.peer := c];
      }
      SendEvent(NewPeer(c.peer));
      return Some(c);
    }

    method SendEvent(e: PeerEvent)
      modifies this`sent
      ensures sent == old(sent) + [e]
    {
      sent := sent + [e];
    }

    ghost method Close(c: Connection)
      modifies this`closed
      ensures closed == old(closed) + {c}
    {
      closed := closed + {c};
    }
  }

  class KnownPeers {
    var peers: map<PeerId, PeerInfo>

    ghost predicate Valid()
      reads this
    {
      KeyedByPeer(peers)
    }

    constructor ()
      ensures Valid() && peers == map[]
    {
      peers := map[];
    }

    method Insert(info: PeerInfo) returns (previous: Option<PeerInfo>)
      requires Valid()
      modifies this
      ensures Valid() && peers == old(peers)[info.peer := info]
      ensures previous == if info.peer in old(peers) then Some(old(peers)[info.peer]) else None
    {
      previous := if info.peer in peers then Some(peers[info.peer]) else None;
      peers := peers[info.peer := info];
    }

    method Remove(p: PeerId) returns (removed: Option<PeerInfo>)
      requires Valid()
      modifies this
      ensures Valid() && peers == old(peers) - {p}
      ensures removed == if p in old(peers) then Some(old(peers)[p]) else None
    {
      removed := if p in peers then Some(peers[p]) else None;
      peers := peers - {p};
    }

    method RemoveAll() returns (removed: map<PeerId, PeerInfo>)
      modifies this
      ensures Valid() && peers == map[] && removed == old(peers)
    {
      removed := peers;
      peers := map[];
    }
  }
}
