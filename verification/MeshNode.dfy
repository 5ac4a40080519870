/** The mutable transport of gratia-network/src/mesh.rs, refining the steps of `Mesh`. */
module MeshNode {
  import opened Bytes
  import opened Identifiers
  import M = Mesh

  class MeshTransport {
    const config: M.Config
    const self: NodeId
    const idOf: M.IdOf
    var active: bool
    var peers: map<NodeId, M.PeerInfo>
    var queue: seq<M.Message>
    var seen: set<Hash>

    function Snapshot(): M.Node
      reads this
    {
      M.Node(config, self, active, peers, queue, seen)
    }

    constructor (config: M.Config, self: NodeId, idOf: M.IdOf)
      ensures this.idOf == idOf && Snapshot() == M.Node(config, self, false, map[], [], {})
    {
      this.config, this.self, this.idOf := config, self, idOf;
      active, peers, queue, seen := false, map[], [], {};
    }

    /** Drops arbitrary ids until half the limit is left, if the limit is exceeded. */
    method EnforceSeenCacheLimit()
      modifies this`seen
      ensures M.CacheLimited(config.maxSeen, old(seen), seen)
    {
      if |seen| > config.maxSeen {
        var target := config.maxSeen / 2;
        var toRemove := |seen| - target;
        while toRemove > 0
          invariant seen <= old(seen) && toRemove >= 0 && |seen| == target + toRemove
        {
          var id :| id in seen;
          seen := seen - {id};
          toRemove := toRemove - 1;
        }
      }
    }

    method Broadcast(kind: M.Kind, payload: seq<Byte>, timestamp: nat) returns (r: M.Reply)
      modifies this`seen, this`queue
      ensures (Snapshot(), r) == M.Broadcast(idOf, old(Snapshot()), kind, payload, timestamp, seen)
      ensures r.Queued? ==> M.CacheLimited(config.maxSeen, old(seen) + {r.id}, seen)
    {
      if !active {
        return M.NotStarted;
      }
      if |payload| > config.maxSize {
        return M.TooLarge;
      }
      var msg := M.Message(idOf(self, payload, timestamp), kind, config.maxTtl, self, payload, timestamp);
      seen := seen + {msg.id};
      EnforceSeenCacheLimit();
      queue := queue + [msg];
      return M.Queued(msg.id);
    }

    method ReceiveMessage(msg: M.Message, now: nat) returns (r: M.Reply)
      modifies this`seen, this`queue
      ensures (Snapshot(), r) == M.Receive(idOf, old(Snapshot()), msg, now, seen)
      ensures M.Fresh(idOf, old(Snapshot()), msg, now) ==> M.CacheLimited(config.maxSeen, old(seen) + {msg.id}, seen)
      ensures !M.Fresh(idOf, old(Snapshot()), msg, now) ==> Snapshot() == old(Snapshot())
    {
      if msg.id != idOf(msg.source, msg.payload, msg.timestamp) {
        return M.InvalidId;
      }
      if msg.id in seen {
        return M.Duplicate;
      }
      if now > msg.timestamp && now - msg.timestamp > config.maxAge {
        return M.Stale;
      }
      if |msg.payload| > config.maxSize {
        return M.TooLarge;
      }
      seen := seen + {msg.id};
      EnforceSeenCacheLimit();
      if msg.ttl == 0 {
        return M.Expired;
      }
      queue := queue + [msg.(ttl := msg.ttl - 1)];
      return M.Delivered(msg.kind);
    }

    /** A remaining target that no other remaining target must precede. */
    method PickPreferred(rest: set<NodeId>) returns (best: NodeId)
      requires rest != {} && rest <= peers.Keys
      ensures best in rest && forall p <- rest :: M.NotAfter(peers[best], peers[p])
    {
      best :| best in rest;
      var todo := rest - {best};
      while todo != {}
        invariant best in rest && todo <= rest
        invariant forall p <- rest :: p in todo || M.NotAfter(peers[best], peers[p])
        decreases |todo|
      {
        var p :| p in todo;
        if !M.NotAfter(peers[best], peers[p]) {
          best := p;
        }
        todo := todo - {p};
      }
    }

    /** The packets for one message: all peers but its source, best first. */
    method SendOne(msg: M.Message) returns (out: seq<M.Packet>)
      ensures M.SendsOne(peers, msg, out)
    {
      out := [];
      var targets := M.Targets(peers, msg);
      var rest := targets;
      while rest != {}
        invariant rest <= targets && |out| + |rest| == |targets|
        invariant forall i :: 0 <= i < |out| ==> out[i].message == msg && out[i].to in targets && out[i].to !in rest
        invariant forall i, p :: 0 <= i < |out| && p in rest ==> M.NotAfter(peers[out[i].to], peers[p])
        invariant forall i, j :: 0 <= i < j < |out| ==>
          out[i].to != out[j].to && M.NotAfter(peers[out[i].to], peers[out[j].to])
        decreases |rest|
      {
        var best := PickPreferred(rest);
        out := out + [M.Packet(best, msg)];
        rest := rest - {best};
      }
    }

    method DrainRelayQueue() returns (outbound: seq<M.Packet>)
      modifies this`queue
      ensures M.SendsAll(peers, old(queue), outbound)
      ensures Snapshot() == old(Snapshot()).(queue := [])
    {
      outbound := [];
      ghost var done: seq<M.Message> := [];
      while queue != []
        invariant done + queue == old(queue)
        invariant M.SendsAll(peers, done, outbound)
        decreases |queue|
      {
        var msg := queue[0];
        queue := queue[1..];
        var packets := SendOne(msg);
        SendsAllAppend(peers, done, outbound, msg, packets);
        outbound := outbound + packets;
        done := done + [msg];
      }
      assert done == old(queue);
    }

    method FindStalest() returns (id: Option<NodeId>)
      ensures id.None? ==> M.AllBridges(peers)
      ensures id.Some? ==> M.Stalest(peers, id.value)
    {
      id := None;
      var rest := peers.Keys;
      while rest != {}
        invariant rest <= peers.Keys
        invariant id.None? ==> forall p <- peers :: p in rest || peers[p].hasInternet
        invariant id.Some? ==>
                    && id.value in peers && !peers[id.value].hasInternet
                    && forall p <- peers ::
                         p in rest || peers[p].hasInternet || peers[id.value].lastSeen <= peers[p].lastSeen
        decreases |rest|
      {
        var p :| p in rest;
        if !peers[p].hasInternet && (id.None? || peers[p].lastSeen < peers[id.value].lastSeen) {
          id := Some(p);
        }
        rest := rest - {p};
      }
    }

    method AddPeer(info: M.PeerInfo) returns (ghost evicted: NodeId)
      modifies this`peers
      ensures M.AllBridges(old(peers)) || M.Stalest(old(peers), evicted)
      ensures Snapshot() == M.AddPeer(old(Snapshot()), info, evicted)
      ensures |old(peers)| <= config.maxPeers ==> |peers| <= config.maxPeers
    {
      var stalest := FindStalest();
      evicted := if stalest.Some? then stalest.value else 0;
      if |peers| <= config.maxPeers {
        M.AddPeerBounded(Snapshot(), info, evicted);
      }
      if info.peerId == self {
        return;
      }
      if |peers| >= config.maxPeers && info.peerId !in peers {
        if stalest.None? {
          return;
        }
        peers := peers - {stalest.value};
      }
      peers := peers[info.peerId := info];
    }
  }

  lemma {:induction false} SendsAllAppend(peers: map<NodeId, M.PeerInfo>, queue: seq<M.Message>, out: seq<M.Packet>,
                                          m: M.Message, packets: seq<M.Packet>)
    requires M.SendsAll(peers, queue, out) && M.SendsOne(peers, m, packets)
    ensures M.SendsAll(peers, queue + [m], out + packets)
    decreases |queue|
  {
    if queue == [] {
      assert queue + [m] == [m] && out + packets == packets;
      assert packets[..|packets|] == packets && packets[|packets|..] == [] && [m][1..] == [];
    } else {
      var k := |M.Targets(peers, queue[0])|;
      SendsAllAppend(peers, queue[1..], out[k..], m, packets);
      assert (queue + [m])[1..] == queue[1..] + [m];
      assert (out + packets)[..k] == out[..k] && (out + packets)[k..] == out[k..] + packets;
    }
  }
}
