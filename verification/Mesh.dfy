/** Flood relay over the phone mesh (gratia-network/src/mesh.rs): one node's steps. Message ids are
    an uninterpreted function of source, payload and timestamp. */
module Mesh {
  import opened Bytes
  import opened Identifiers
  import opened Counting

  datatype Kind = Transaction | BlockHeader | PeerDiscovery | OfflinePayment | RoutingUpdate

  datatype Message = Message(id: Hash, kind: Kind, ttl: nat, source: NodeId, payload: seq<Byte>, timestamp: nat)

  type IdOf = (NodeId, seq<Byte>, nat) -> Hash

  datatype PeerInfo = PeerInfo(peerId: NodeId, signal: Option<int>, lastSeen: nat, hasInternet: bool)

  datatype Config = Config(maxPeers: nat, maxTtl: nat, maxSize: nat, maxAge: nat, maxSeen: nat)

  datatype Node = Node(
    config: Config, self: NodeId, active: bool, peers: map<NodeId, PeerInfo>, queue: seq<Message>, seen: set<Hash>)

  datatype Reply =
    | Queued(id: Hash) | NotStarted | TooLarge | Delivered(kind: Kind) | Duplicate | Expired | Stale | InvalidId

  /** Over the limit an arbitrary half of the limit survives. */
  predicate CacheLimited(limit: nat, seen: set<Hash>, kept: set<Hash>) {
    if |seen| <= limit then kept == seen else kept <= seen && |kept| == limit / 2
  }

  predicate IdMatches(idOf: IdOf, m: Message) {
    m.id == idOf(m.source, m.payload, m.timestamp)
  }

  predicate TooOld(c: Config, m: Message, now: nat) {
    now > m.timestamp && now - m.timestamp > c.maxAge
  }

  function NewMessage(idOf: IdOf, n: Node, kind: Kind, payload: seq<Byte>, timestamp: nat): Message {
    Message(idOf(n.self, payload, timestamp), kind, n.config.maxTtl, n.self, payload, timestamp)
  }

  /** `kept` is what the cache limit leaves of the ids seen. */
  function Broadcast(idOf: IdOf, n: Node, kind: Kind, payload: seq<Byte>, timestamp: nat, kept: set<Hash>)
    : (Node, Reply)
  {
    if !n.active then (n, NotStarted)
    else if |payload| > n.config.maxSize then (n, TooLarge)
    else
      var m := NewMessage(idOf, n, kind, payload, timestamp);
      (n.(seen := kept, queue := n.queue + [m]), Queued(m.id))
  }

  /** The message passes every check up to the cache, so it will be marked as seen. */
  predicate Fresh(idOf: IdOf, n: Node, m: Message, now: nat) {
    IdMatches(idOf, m) && m.id !in n.seen && !TooOld(n.config, m, now) && |m.payload| <= n.config.maxSize
  }

  function Receive(idOf: IdOf, n: Node, m: Message, now: nat, kept: set<Hash>): (Node, Reply) {
    if !IdMatches(idOf, m) then (n, InvalidId)
    else if m.id in n.seen then (n, Duplicate)
    else if TooOld(n.config, m, now) then (n, Stale)
    else if |m.payload| > n.config.maxSize then (n, TooLarge)
    else if m.ttl == 0 then (n.(seen := kept), Expired)
    else (n.(seen := kept, queue := n.queue + [m.(ttl := m.ttl - 1)]), Delivered(m.kind))
  }

  // ------------------------------------------------------------------ draining

  datatype Packet = Packet(to: NodeId, message: Message)

  function Targets(peers: map<NodeId, PeerInfo>, m: Message): set<NodeId> {
    set p | p in peers && peers[p].peerId != m.source
  }

  function Rssi(p: PeerInfo): int {
    if p.signal.Some? then p.signal.value else -128
  }

  /** Bridge peers first, then the stronger signal. */
  predicate NotAfter(a: PeerInfo, b: PeerInfo) {
    if a.hasInternet != b.hasInternet then a.hasInternet else Rssi(a) >= Rssi(b)
  }

  /** One message goes once to each target, in order of preference. */
  ghost predicate SendsOne(peers: map<NodeId, PeerInfo>, m: Message, out: seq<Packet>) {
    && |out| == |Targets(peers, m)|
    && (forall i :: 0 <= i < |out| ==> out[i].message == m && out[i].to in Targets(peers, m))
    && (forall i, j :: 0 <= i < j < |out| ==> out[i].to != out[j].to && NotAfter(peers[out[i].to], peers[out[j].to]))
  }

  /** All queued messages, oldest first. */
  ghost predicate SendsAll(peers: map<NodeId, PeerInfo>, queue: seq<Message>, out: seq<Packet>)
    decreases queue
  {
    if queue == [] then out == []
    else
      var k := |Targets(peers, queue[0])|;
      k <= |out| && SendsOne(peers, queue[0], out[..k]) && SendsAll(peers, queue[1..], out[k..])
  }

  // --------------------------------------------------------------------- peers

  /** No non-bridge peer has been silent for longer. */
  predicate Stalest(peers: map<NodeId, PeerInfo>, id: NodeId) {
    && id in peers && !peers[id].hasInternet
    && forall p <- peers :: !peers[p].hasInternet ==> peers[id].lastSeen <= peers[p].lastSeen
  }

  predicate AllBridges(peers: map<NodeId, PeerInfo>) {
    forall p <- peers :: peers[p].hasInternet
  }

  /** At capacity a new peer replaces a stalest non-bridge peer; bridges are never evicted. */
  function AddPeer(n: Node, info: PeerInfo, evicted: NodeId): Node {
    if info.peerId == n.self then n
    else if |n.peers| >= n.config.maxPeers && info.peerId !in n.peers then
      if AllBridges(n.peers) then n else n.(peers := (n.peers - {evicted})[info.peerId := info])
    else n.(peers := n.peers[info.peerId := info])
  }

  /** The node keeps at most its configured number of peers. */
  lemma AddPeerBounded(n: Node, info: PeerInfo, evicted: NodeId)
    requires |n.peers| <= n.config.maxPeers && (AllBridges(n.peers) || Stalest(n.peers, evicted))
    ensures |AddPeer(n, info, evicted).peers| <= n.config.maxPeers
  {
    var rest := n.peers - {evicted};
    assert rest.Keys == n.peers.Keys - {evicted};
  }

  // ----------------------------------------------------------- what is decided

  /** The message claims the id of its own source, payload and time, is new, is at most as old as
      allowed and not too large. */
  predicate Admissible(idOf: IdOf, n: Node, m: Message, now: nat) {
    && m.id == idOf(m.source, m.payload, m.timestamp) && m.id !in n.seen
    && now <= m.timestamp + n.config.maxAge && |m.payload| <= n.config.maxSize
  }

  /** A message is delivered exactly if it is admissible and has hops left, and is then queued with one
      hop less. One without hops left is marked as seen only; any other leaves the node as it was. */
  lemma DeliveredIff(idOf: IdOf, n: Node, m: Message, now: nat, kept: set<Hash>)
    ensures var (t, r) := Receive(idOf, n, m, now, kept);
            && (r.Delivered? <==> Admissible(idOf, n, m, now) && m.ttl > 0)
            && (r.Expired? <==> Admissible(idOf, n, m, now) && m.ttl == 0)
            && (r.Delivered? ==>
                  && r.kind == m.kind
                  && t == n.(seen := kept, queue := n.queue + [m.(ttl := m.ttl - 1)]))
            && (r.Expired? ==> t == n.(seen := kept))
            && (!Admissible(idOf, n, m, now) ==> t == n)
            && (r.InvalidId? <==> m.id != idOf(m.source, m.payload, m.timestamp))
            && (r.Duplicate? ==> m.id in n.seen) && (r.Stale? ==> now > m.timestamp + n.config.maxAge)
  {
  }

  /** An active node queues its own message of allowed size, with all hops left; nothing else changes
      but the ids it has seen. */
  lemma BroadcastIff(idOf: IdOf, n: Node, kind: Kind, payload: seq<Byte>, timestamp: nat, kept: set<Hash>)
    ensures var (t, r) := Broadcast(idOf, n, kind, payload, timestamp, kept);
            && (r.Queued? <==> n.active && |payload| <= n.config.maxSize)
            && (!r.Queued? ==> t == n && (r.NotStarted? <==> !n.active))
            && (r.Queued? ==>
                  && r.id == idOf(n.self, payload, timestamp)
                  && t == n.(seen := kept,
                             queue := n.queue + [Message(r.id, kind, n.config.maxTtl, n.self, payload, timestamp)]))
  {
  }

  /** The signal of a peer as compared: the weakest possible if unknown. */
  predicate SignalIs(p: PeerInfo, strength: int) {
    p.signal == Some(strength) || (p.signal == None && strength == -128)
  }

  /** A relayed message goes to every peer but its source, to each exactly once; peers with internet
      first, and among the others the stronger signal first. */
  lemma RelayMeans(peers: map<NodeId, PeerInfo>, m: Message, out: seq<Packet>, x: int, y: int)
    requires SendsOne(peers, m, out)
    ensures forall i :: 0 <= i < |out| ==>
              out[i].message == m && out[i].to in peers && peers[out[i].to].peerId != m.source
    ensures forall p <- peers :: peers[p].peerId != m.source ==> exists i :: 0 <= i < |out| && out[i].to == p
    ensures forall i, j :: 0 <= i < j < |out| ==>
              && out[i].to != out[j].to
              && var a, b := peers[out[i].to], peers[out[j].to];
                 && (b.hasInternet ==> a.hasInternet)
                 && (a.hasInternet == b.hasInternet && SignalIs(a, x) && SignalIs(b, y) ==> x >= y)
  {
    var tos := seq(|out|, i requires 0 <= i < |out| => out[i].to);
    var targets := Targets(peers, m);
    assert forall i :: 0 <= i < |out| ==> tos[i] == out[i].to;
    ElementsCount(tos);
    assert Elements(tos) <= targets;
    SameSize(Elements(tos), targets);
    forall p | p in peers && peers[p].peerId != m.source ensures exists i :: 0 <= i < |out| && out[i].to == p {
      assert p in Elements(tos);
    }
  }

  lemma SameSize<T>(a: set<T>, b: set<T>)
    requires a <= b && |a| == |b|
    ensures a == b
  {
    assert |b - a| == 0;
  }

  /** Meeting a peer: this node itself is never listed; a known peer is updated; a new one is added, in
      place of the evicted one if the table is full; and only a full table of peers with internet
      refuses it. No peer with internet is ever dropped. */
  lemma AddPeerMeans(n: Node, info: PeerInfo, evicted: NodeId)
    requires AllBridges(n.peers) || Stalest(n.peers, evicted)
    ensures var t := AddPeer(n, info, evicted);
            var full := |n.peers| >= n.config.maxPeers && info.peerId !in n.peers;
            && t == n.(peers := t.peers)
            && (info.peerId == n.self || (full && forall p <- n.peers :: n.peers[p].hasInternet) ==> t == n)
            && (info.peerId != n.self && !(full && forall p <- n.peers :: n.peers[p].hasInternet) ==>
                  && info.peerId in t.peers && t.peers[info.peerId] == info
                  && (forall p :: p != info.peerId ==>
                        (p in t.peers <==> p in n.peers && !(full && p == evicted)))
                  && (forall p <- t.peers :: p != info.peerId ==> t.peers[p] == n.peers[p]))
            && (forall p <- n.peers :: n.peers[p].hasInternet ==> p in t.peers)
  {
  }

  /** A cache over its limit is cut to half the limit, rounded down; any other is kept whole. */
  lemma CacheMeans(limit: nat, seen: set<Hash>, kept: set<Hash>)
    requires CacheLimited(limit, seen, kept)
    ensures kept <= seen
    ensures |seen| <= limit ==> kept == seen
    ensures |seen| > limit ==> 2 * |kept| <= limit <= 2 * |kept| + 1
  {
  }

  /** Who is dropped: a peer without internet, and none of these was seen longer ago. */
  lemma EvictedMeans(peers: map<NodeId, PeerInfo>, id: NodeId)
    ensures Stalest(peers, id) <==>
              && id in peers && !peers[id].hasInternet
              && forall p <- peers :: peers[p].lastSeen < peers[id].lastSeen ==> peers[p].hasInternet
  {
  }
}
