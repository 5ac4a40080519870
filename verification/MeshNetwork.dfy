/** Flooding across a network of mesh nodes: how many transmissions broadcasts can cause, why the
    relaying stops, and what deduplication guarantees. Packets may be lost, delayed and reordered. */
module MeshNetwork {
  import opened Bytes
  import opened Identifiers
  import opened Mesh
  import opened Counting

  /** What happened to a message id at a node. */
  datatype Handling = Handling(node: nat, id: Hash, delivered: bool)

  /** `sent` lists every transmission, `broadcasts` the id of every broadcast, `work` counts relay
      steps, and `log` records which node broadcast or delivered which id, in order. */
  datatype Net = Net(
    nodes: seq<Node>, flight: seq<Packet>, sent: seq<Packet>, broadcasts: seq<Hash>, work: nat, log: seq<Handling>)

  datatype Action =
    | Originate(at: nat, kind: Kind, payload: seq<Byte>, timestamp: nat, kept: set<Hash>)
    | Drain(at: nat, out: seq<Packet>)
    | Arrive(at: nat, which: nat, now: nat, kept: set<Hash>)
    | Lose(which: nat)
    | Meet(at: nat, info: PeerInfo, evicted: NodeId)
    | Part(at: nat, peer: NodeId)

  ghost predicate Enabled(idOf: IdOf, n: Net, a: Action) {
    match a
    case Originate(at, kind, payload, timestamp, kept) =>
      && at < |n.nodes| && n.nodes[at].active && |payload| <= n.nodes[at].config.maxSize
      && CacheLimited(n.nodes[at].config.maxSeen, n.nodes[at].seen + {idOf(n.nodes[at].self, payload, timestamp)}, kept)
    case Drain(at, out) =>
      at < |n.nodes| && n.nodes[at].queue != [] && SendsAll(n.nodes[at].peers, n.nodes[at].queue, out)
    case Arrive(at, which, now, kept) =>
      && at < |n.nodes| && which < |n.flight| && n.nodes[at].self == n.flight[which].to
      && (Fresh(idOf, n.nodes[at], n.flight[which].message, now) ==>
            CacheLimited(n.nodes[at].config.maxSeen, n.nodes[at].seen + {n.flight[which].message.id}, kept))
    case Lose(which) => which < |n.flight|
    case Meet(at, info, evicted) =>
      at < |n.nodes| && (AllBridges(n.nodes[at].peers) || Stalest(n.nodes[at].peers, evicted))
    case Part(at, peer) => at < |n.nodes|
  }

  function Without(flight: seq<Packet>, which: nat): seq<Packet>
    requires which < |flight|
  {
    flight[..which] + flight[which + 1..]
  }

  ghost function Apply(idOf: IdOf, n: Net, a: Action): Net
    requires Enabled(idOf, n, a)
  {
    match a
    case Originate(at, kind, payload, timestamp, kept) =>
      var (node, r) := Broadcast(idOf, n.nodes[at], kind, payload, timestamp, kept);
      n.(nodes := n.nodes[at := node], broadcasts := n.broadcasts + [r.id], log := n.log + [Handling(at, r.id, false)])
    case Drain(at, out) =>
      n.(nodes := n.nodes[at := n.nodes[at].(queue := [])], flight := n.flight + out, sent := n.sent + out,
         work := n.work + 1)
    case Arrive(at, which, now, kept) =>
      var m := n.flight[which].message;
      var (node, r) := Receive(idOf, n.nodes[at], m, now, kept);
      n.(nodes := n.nodes[at := node], flight := Without(n.flight, which), work := n.work + 1,
         log := if r.Delivered? then n.log + [Handling(at, m.id, true)] else n.log)
    case Lose(which) => n.(flight := Without(n.flight, which), work := n.work + 1)
    case Meet(at, info, evicted) => n.(nodes := n.nodes[at := AddPeer(n.nodes[at], info, evicted)])
    case Part(at, peer) => n.(nodes := n.nodes[at := n.nodes[at].(peers := n.nodes[at].peers - {peer})])
  }

  /** A network at rest: nothing queued, nothing in flight, nothing seen. */
  ghost predicate AtRest(n: Net) {
    && n.flight == [] && n.sent == [] && n.broadcasts == [] && n.work == 0 && n.log == []
    && forall i :: 0 <= i < |n.nodes| ==> n.nodes[i].queue == [] && n.nodes[i].seen == {}
  }

  /** Every node keeps at most P peers and broadcasts with a hop count of at most T. */
  ghost predicate Bounded(n: Net, P: nat, T: nat) {
    forall i :: 0 <= i < |n.nodes| ==> NodeBounded(n.nodes[i], P, T)
  }

  ghost predicate NodeBounded(n: Node, P: nat, T: nat) {
    |n.peers| <= n.config.maxPeers <= P && n.config.maxTtl <= T
  }

  ghost predicate IsRun(idOf: IdOf, states: seq<Net>, actions: seq<Action>) {
    && |states| == |actions| + 1 && AtRest(states[0])
    && forall i :: 0 <= i < |actions| ==>
         Enabled(idOf, states[i], actions[i]) && states[i + 1] == Apply(idOf, states[i], actions[i])
  }

  lemma PartKeepsBounds(n: Node, peer: NodeId, P: nat, T: nat)
    requires NodeBounded(n, P, T)
    ensures NodeBounded(n.(peers := n.peers - {peer}), P, T)
  {
    assert (n.peers - {peer}).Keys <= n.peers.Keys;
    SubsetSize((n.peers - {peer}).Keys, n.peers.Keys);
  }

  lemma ApplyKeepsBounds(idOf: IdOf, n: Net, a: Action, P: nat, T: nat)
    requires Enabled(idOf, n, a) && Bounded(n, P, T)
    ensures Bounded(Apply(idOf, n, a), P, T)
  {
    match a
    case Meet(at, info, evicted) =>
      assert NodeBounded(n.nodes[at], P, T);
      AddPeerBounded(n.nodes[at], info, evicted);
    case Part(at, peer) => PartKeepsBounds(n.nodes[at], peer, P, T);
    case _ =>
  }

  // ---------------------------------------------------------------- potentials

  /** Which message ids are accounted for, what a queued and a flying copy of one are worth by their
      remaining hops, and the price of one transmission and of one relay step. */
  datatype Tariff = Tariff(picks: Hash -> bool, queued: nat -> nat, flying: nat -> nat, perSend: nat, perStep: nat)

  /** The worth of a copy pays for everything relaying it can cause. */
  ghost predicate CoversAt(w: Tariff, P: nat, t: nat) {
    && w.queued(t) >= P * (w.flying(t) + w.perSend) + w.perStep
    && w.flying(t) >= w.perStep + if t > 0 then w.queued(t - 1) else 0
  }

  /** Steps can only be charged when every id is accounted for. */
  ghost predicate Covers(w: Tariff, P: nat) {
    (forall t: nat :: CoversAt(w, P, t)) && (w.perStep == 0 || forall x: Hash :: w.picks(x))
  }

  function Queued(w: Tariff, m: Message): nat { if w.picks(m.id) then w.queued(m.ttl) else 0 }

  function Flying(w: Tariff, m: Message): nat { if w.picks(m.id) then w.flying(m.ttl) else 0 }

  function QueueWorth(w: Tariff, queue: seq<Message>): nat {
    if queue == [] then 0 else Queued(w, queue[0]) + QueueWorth(w, queue[1..])
  }

  function NodesWorth(w: Tariff, nodes: seq<Node>): nat {
    if nodes == [] then 0 else QueueWorth(w, nodes[0].queue) + NodesWorth(w, nodes[1..])
  }

  function FlightWorth(w: Tariff, flight: seq<Packet>): nat {
    if flight == [] then 0 else Flying(w, flight[0].message) + FlightWorth(w, flight[1..])
  }

  /** How many packets carry an id that is picked. */
  function Carrying(picks: Hash -> bool, packets: seq<Packet>): nat {
    if packets == [] then 0
    else (if picks(packets[0].message.id) then 1 else 0) + Carrying(picks, packets[1..])
  }

  /** The price of these transmissions. */
  function Spent(w: Tariff, packets: seq<Packet>): nat {
    if packets == [] then 0
    else (if w.picks(packets[0].message.id) then w.perSend else 0) + Spent(w, packets[1..])
  }

  function Picked(picks: Hash -> bool, ids: seq<Hash>): nat {
    if ids == [] then 0 else Picked(picks, ids[..|ids| - 1]) + if picks(ids[|ids| - 1]) then 1 else 0
  }

  /** What all copies in the network are worth. */
  function Worth(w: Tariff, n: Net): nat { NodesWorth(w, n.nodes) + FlightWorth(w, n.flight) }

  /** What is left plus what has been spent. */
  function Account(w: Tariff, n: Net): nat { Worth(w, n) + Spent(w, n.sent) + Charged(w, n.work) }

  /** The price of some relay steps. */
  function Charged(w: Tariff, steps: nat): nat { if steps == 0 then 0 else Charged(w, steps - 1) + w.perStep }

  /** What an action costs. */
  function Price(w: Tariff, a: Action): nat {
    match a
    case Drain(_, out) => Spent(w, out) + w.perStep
    case Arrive(_, _, _, _) => w.perStep
    case Lose(_) => w.perStep
    case _ => 0
  }

  lemma {:induction false} QueueWorthAppend(w: Tariff, queue: seq<Message>, m: Message)
    ensures QueueWorth(w, queue + [m]) == QueueWorth(w, queue) + Queued(w, m)
  {
    if queue == [] {
      assert queue + [m] == [m] && [m][1..] == [];
    } else {
      QueueWorthAppend(w, queue[1..], m);
      assert (queue + [m])[1..] == queue[1..] + [m];
    }
  }

  lemma {:induction false} NodesWorthUpdate(w: Tariff, nodes: seq<Node>, i: nat, node: Node)
    requires i < |nodes|
    ensures NodesWorth(w, nodes[i := node]) + QueueWorth(w, nodes[i].queue)
         == NodesWorth(w, nodes) + QueueWorth(w, node.queue)
  {
    if i == 0 {
      assert nodes[0 := node][1..] == nodes[1..];
    } else {
      NodesWorthUpdate(w, nodes[1..], i - 1, node);
      assert nodes[i := node][1..] == nodes[1..][i - 1 := node];
    }
  }

  lemma {:induction false} FlightWorthConcat(w: Tariff, a: seq<Packet>, b: seq<Packet>)
    ensures FlightWorth(w, a + b) == FlightWorth(w, a) + FlightWorth(w, b)
    ensures Spent(w, a + b) == Spent(w, a) + Spent(w, b)
  {
    if a == [] {
      assert a + b == b;
    } else {
      FlightWorthConcat(w, a[1..], b);
      assert (a + b)[1..] == a[1..] + b;
    }
  }

  lemma FlightWorthWithout(w: Tariff, flight: seq<Packet>, which: nat)
    requires which < |flight|
    ensures FlightWorth(w, Without(flight, which)) + Flying(w, flight[which].message) == FlightWorth(w, flight)
  {
    var a, b := flight[..which], flight[which + 1..];
    assert flight == a + ([flight[which]] + b);
    FlightWorthConcat(w, a, [flight[which]] + b);
    FlightWorthConcat(w, [flight[which]], b);
    FlightWorthConcat(w, a, b);
    assert [flight[which]][1..] == [];
  }

  lemma {:induction false} FlightWorthSame(w: Tariff, out: seq<Packet>, m: Message)
    requires forall i :: 0 <= i < |out| ==> out[i].message == m
    ensures FlightWorth(w, out) == |out| * Flying(w, m)
    ensures Spent(w, out) == if w.picks(m.id) then |out| * w.perSend else 0
  {
    if out != [] {
      FlightWorthSame(w, out[1..], m);
      OneMore(|out| - 1, Flying(w, m));
      OneMore(|out| - 1, w.perSend);
    }
  }

  /** Sending one message to at most P peers costs no more than P times the price of one copy. */
  lemma SendCost(w: Tariff, peers: map<NodeId, PeerInfo>, m: Message, out: seq<Packet>, P: nat)
    requires Covers(w, P) && |peers| <= P && SendsOne(peers, m, out)
    ensures FlightWorth(w, out) + Spent(w, out) + w.perStep <= Queued(w, m)
  {
    FlightWorthSame(w, out, m);
    SubsetSize(Targets(peers, m), peers.Keys);
    var x := w.flying(m.ttl);
    assert |out| * (x + w.perSend) == |out| * x + |out| * w.perSend;
    MulMonotone(|out|, P, x + w.perSend);
    assert CoversAt(w, P, m.ttl);
  }

  /** Draining a queue is paid for by the queue's worth, with a step's price to spare per message. */
  lemma {:induction false} DrainCost(w: Tariff, peers: map<NodeId, PeerInfo>, queue: seq<Message>, out: seq<Packet>,
                                     P: nat)
    requires Covers(w, P) && |peers| <= P && SendsAll(peers, queue, out)
    ensures FlightWorth(w, out) + Spent(w, out) + (if queue == [] then 0 else w.perStep) <= QueueWorth(w, queue)
    decreases |queue|
  {
    if queue != [] {
      var k := |Targets(peers, queue[0])|;
      var first, rest := out[..k], out[k..];
      SendCost(w, peers, queue[0], first, P);
      DrainCost(w, peers, queue[1..], rest, P);
      FlightWorthConcat(w, first, rest);
      assert out == first + rest;
    }
  }

  lemma DrainIsPaid(idOf: IdOf, w: Tariff, n: Net, a: Action, P: nat)
    requires Covers(w, P) && a.Drain? && Enabled(idOf, n, a) && |n.nodes[a.at].peers| <= P
    ensures Worth(w, Apply(idOf, n, a)) + Price(w, a) <= Worth(w, n)
  {
    var node := n.nodes[a.at];
    DrainCost(w, node.peers, node.queue, a.out, P);
    NodesWorthUpdate(w, n.nodes, a.at, node.(queue := []));
    FlightWorthConcat(w, n.flight, a.out);
  }

  lemma ReceiveCost(idOf: IdOf, w: Tariff, node: Node, m: Message, now: nat, kept: set<Hash>, P: nat)
    requires Covers(w, P)
    ensures QueueWorth(w, Receive(idOf, node, m, now, kept).0.queue) + w.perStep
         <= QueueWorth(w, node.queue) + Flying(w, m)
  {
    assert CoversAt(w, P, m.ttl);
    if m.ttl > 0 {
      QueueWorthAppend(w, node.queue, m.(ttl := m.ttl - 1));
    }
  }

  lemma ArriveIsPaid(idOf: IdOf, w: Tariff, n: Net, a: Action, P: nat)
    requires Covers(w, P) && a.Arrive? && Enabled(idOf, n, a)
    ensures Worth(w, Apply(idOf, n, a)) + Price(w, a) <= Worth(w, n)
  {
    var node, m := n.nodes[a.at], n.flight[a.which].message;
    ReceiveCost(idOf, w, node, m, a.now, a.kept, P);
    FlightWorthWithout(w, n.flight, a.which);
    NodesWorthUpdate(w, n.nodes, a.at, Receive(idOf, node, m, a.now, a.kept).0);
  }

  lemma LoseIsPaid(idOf: IdOf, w: Tariff, n: Net, a: Action, P: nat)
    requires Covers(w, P) && a.Lose? && Enabled(idOf, n, a)
    ensures Worth(w, Apply(idOf, n, a)) + Price(w, a) <= Worth(w, n)
  {
    FlightWorthWithout(w, n.flight, a.which);
    assert CoversAt(w, P, n.flight[a.which].message.ttl);
  }

  /** Whatever is not a broadcast is paid for out of the worth of the copies. */
  lemma RelayIsPaid(idOf: IdOf, w: Tariff, n: Net, a: Action, P: nat, T: nat)
    requires Covers(w, P) && Enabled(idOf, n, a) && Bounded(n, P, T) && !a.Originate?
    ensures Worth(w, Apply(idOf, n, a)) + Price(w, a) <= Worth(w, n)
  {
    match a
    case Drain(at, _) =>
      assert NodeBounded(n.nodes[at], P, T);
      DrainIsPaid(idOf, w, n, a, P);
    case Arrive(_, _, _, _) => ArriveIsPaid(idOf, w, n, a, P);
    case Lose(_) => LoseIsPaid(idOf, w, n, a, P);
    case Meet(at, info, evicted) => NodesWorthUpdate(w, n.nodes, at, AddPeer(n.nodes[at], info, evicted));
    case Part(at, peer) => NodesWorthUpdate(w, n.nodes, at, n.nodes[at].(peers := n.nodes[at].peers - {peer}));
  }

  /** Prices are booked as spending. */
  lemma PriceIsSpent(idOf: IdOf, w: Tariff, n: Net, a: Action)
    requires Enabled(idOf, n, a) && !a.Originate?
    ensures var m := Apply(idOf, n, a);
            Spent(w, m.sent) + Charged(w, m.work) == Spent(w, n.sent) + Charged(w, n.work) + Price(w, a)
  {
    if a.Drain? {
      FlightWorthConcat(w, n.sent, a.out);
    }
    assert Charged(w, n.work + 1) == Charged(w, n.work) + w.perStep;
  }

  /** The message a broadcast queues. */
  function Originated(idOf: IdOf, n: Net, a: Action): Message
    requires a.Originate? && a.at < |n.nodes|
  {
    NewMessage(idOf, n.nodes[a.at], a.kind, a.payload, a.timestamp)
  }

  lemma OriginateAddsToAccount(idOf: IdOf, w: Tariff, n: Net, a: Action)
    requires a.Originate? && Enabled(idOf, n, a)
    ensures Account(w, Apply(idOf, n, a)) == Account(w, n) + Queued(w, Originated(idOf, n, a))
    ensures Apply(idOf, n, a).broadcasts == n.broadcasts + [Originated(idOf, n, a).id]
  {
    var node := n.nodes[a.at];
    QueueWorthAppend(w, node.queue, Originated(idOf, n, a));
    NodesWorthUpdate(w, n.nodes, a.at, Broadcast(idOf, node, a.kind, a.payload, a.timestamp, a.kept).0);
  }

  /** Only broadcasts of accounted ids add to the account, each the worth of one queued copy of full
      hop count; relaying, losing packets, evicting ids and changing peers never do. */
  lemma ApplyKeepsAccount(idOf: IdOf, w: Tariff, n: Net, a: Action, P: nat, T: nat)
    requires Covers(w, P) && Enabled(idOf, n, a) && Bounded(n, P, T)
    ensures a.Originate? ==> Account(w, Apply(idOf, n, a)) == Account(w, n) + Queued(w, Originated(idOf, n, a))
    ensures !a.Originate? ==> Account(w, Apply(idOf, n, a)) <= Account(w, n)
  {
    if a.Originate? {
      OriginateAddsToAccount(idOf, w, n, a);
    } else {
      RelayIsPaid(idOf, w, n, a, P, T);
      PriceIsSpent(idOf, w, n, a);
    }
  }

  ghost predicate Monotone(w: Tariff, T: nat) {
    forall t: nat :: t <= T ==> w.queued(t) <= w.queued(T)
  }

  lemma {:induction false} RestIsFree(w: Tariff, nodes: seq<Node>)
    requires forall i :: 0 <= i < |nodes| ==> nodes[i].queue == []
    ensures NodesWorth(w, nodes) == 0
  {
    if nodes != [] {
      RestIsFree(w, nodes[1..]);
    }
  }

  /** What the broadcasts so far have paid in. */
  ghost predicate PaidFor(w: Tariff, n: Net, T: nat) {
    Account(w, n) <= Picked(w.picks, n.broadcasts) * w.queued(T)
  }

  lemma OriginateIsPaid(idOf: IdOf, w: Tariff, n: Net, a: Action, P: nat, T: nat)
    requires a.Originate? && Enabled(idOf, n, a) && Bounded(n, P, T) && Monotone(w, T) && PaidFor(w, n, T)
    ensures PaidFor(w, Apply(idOf, n, a), T)
  {
    OriginateAddsToAccount(idOf, w, n, a);
    assert NodeBounded(n.nodes[a.at], P, T);
    OneMore(Picked(w.picks, n.broadcasts), w.queued(T));
  }

  lemma ApplyIsPaid(idOf: IdOf, w: Tariff, n: Net, a: Action, P: nat, T: nat)
    requires Covers(w, P) && Enabled(idOf, n, a) && Bounded(n, P, T) && Monotone(w, T) && PaidFor(w, n, T)
    ensures PaidFor(w, Apply(idOf, n, a), T)
  {
    if a.Originate? {
      OriginateIsPaid(idOf, w, n, a, P, T);
    } else {
      ApplyKeepsAccount(idOf, w, n, a, P, T);
    }
  }

  /** Over every run the account is at most what the broadcasts paid in. */
  lemma {:induction false} AccountOfRun(idOf: IdOf, w: Tariff, states: seq<Net>, actions: seq<Action>, P: nat, T: nat,
                                        i: nat)
    requires IsRun(idOf, states, actions) && i < |states| && Bounded(states[0], P, T) && Covers(w, P) && Monotone(w, T)
    ensures Bounded(states[i], P, T) && PaidFor(w, states[i], T)
  {
    if i == 0 {
      RestIsFree(w, states[0].nodes);
    } else {
      AccountOfRun(idOf, w, states, actions, P, T, i - 1);
      ApplyKeepsBounds(idOf, states[i - 1], actions[i - 1], P, T);
      ApplyIsPaid(idOf, w, states[i - 1], actions[i - 1], P, T);
    }
  }

  // ---------------------------------------------------------- transmission bound

  function Pow(b: nat, e: nat): nat {
    if e == 0 then 1 else b * Pow(b, e - 1)
  }

  /** P + P^2 + ... + P^n. */
  function Geometric(P: nat, n: nat): nat {
    if n == 0 then 0 else Geometric(P, n - 1) + Pow(P, n)
  }

  lemma {:induction false} GeometricStep(P: nat, n: nat)
    ensures Geometric(P, n + 1) == P * (Geometric(P, n) + 1)
  {
    if n == 0 {
      assert Pow(P, 1) == P * Pow(P, 0);
    } else {
      GeometricStep(P, n - 1);
      assert Pow(P, n + 1) == P * Pow(P, n);
    }
  }

  /** Worth in transmissions still to come, of the picked ids. */
  ghost function SendTariff(picks: Hash -> bool, P: nat): Tariff {
    Tariff(picks, t => Geometric(P, t + 1), t => Geometric(P, t), 1, 0)
  }

  lemma SendTariffCovers(picks: Hash -> bool, P: nat, T: nat)
    ensures Covers(SendTariff(picks, P), P) && Monotone(SendTariff(picks, P), T)
  {
    var w := SendTariff(picks, P);
    forall t: nat ensures CoversAt(w, P, t) {
      GeometricStep(P, t);
    }
    forall t: nat | t <= T ensures w.queued(t) <= w.queued(T) {
      GeometricGrows(P, t + 1, T + 1);
    }
  }

  lemma {:induction false} GeometricGrows(P: nat, m: nat, n: nat)
    requires m <= n
    ensures Geometric(P, m) <= Geometric(P, n)
    decreases n - m
  {
    if m < n {
      GeometricGrows(P, m, n - 1);
    }
  }

  /** In every run, whatever the caches evict and however peers come and go, the transmissions that
      carry an id picked by any choice of ids are at most P + P^2 + ... + P^(T+1) per broadcast of
      such an id. */
  lemma PickedTransmissions(idOf: IdOf, states: seq<Net>, actions: seq<Action>, picks: Hash -> bool, P: nat, T: nat)
    requires IsRun(idOf, states, actions) && Bounded(states[0], P, T)
    ensures var n := states[|states| - 1]; Carrying(picks, n.sent) <= Picked(picks, n.broadcasts) * Geometric(P, T + 1)
  {
    SendTariffCovers(picks, P, T);
    AccountOfRun(idOf, SendTariff(picks, P), states, actions, P, T, |states| - 1);
    SpentByCount(SendTariff(picks, P), states[|states| - 1].sent);
  }

  lemma {:induction false} SpentByCount(w: Tariff, packets: seq<Packet>)
    requires w.perSend == 1
    ensures Spent(w, packets) == Carrying(w.picks, packets)
  {
    if packets != [] {
      SpentByCount(w, packets[1..]);
    }
  }

  function Only(x: Hash): Hash -> bool { y => y == x }

  /** One broadcast: an id that was broadcast once is transmitted at most P + P^2 + ... + P^(T+1)
      times, however many other messages travel; an id that was never broadcast, not at all. */
  lemma TransmissionBound(idOf: IdOf, states: seq<Net>, actions: seq<Action>, x: Hash, P: nat, T: nat)
    requires IsRun(idOf, states, actions) && Bounded(states[0], P, T)
    ensures var n := states[|states| - 1];
            Carrying(Only(x), n.sent) <= Picked(Only(x), n.broadcasts) * Geometric(P, T + 1)
  {
    PickedTransmissions(idOf, states, actions, Only(x), P, T);
  }

  lemma {:induction false} AllCarry(picks: Hash -> bool, packets: seq<Packet>)
    requires forall x: Hash :: picks(x)
    ensures Carrying(picks, packets) == |packets|
  {
    if packets != [] {
      AllCarry(picks, packets[1..]);
    }
  }

  lemma {:induction false} AllPicked(picks: Hash -> bool, ids: seq<Hash>)
    requires forall x: Hash :: picks(x)
    ensures Picked(picks, ids) == |ids|
  {
    if ids != [] {
      AllPicked(picks, ids[..|ids| - 1]);
    }
  }

  /** All broadcasts together cause at most that many transmissions each. */
  lemma TotalTransmissions(idOf: IdOf, states: seq<Net>, actions: seq<Action>, P: nat, T: nat)
    requires IsRun(idOf, states, actions) && Bounded(states[0], P, T)
    ensures var n := states[|states| - 1]; |n.sent| <= |n.broadcasts| * Geometric(P, T + 1)
  {
    var n, every := states[|states| - 1], (x: Hash) => true;
    PickedTransmissions(idOf, states, actions, every, P, T);
    AllCarry(every, n.sent);
    AllPicked(every, n.broadcasts);
  }

  // --------------------------------------------------------------- termination

  /** Relay steps a queued copy can still cause, itself included. */
  function QueuedSteps(P: nat, ttl: nat): nat
    decreases ttl, 1
  {
    P * FlyingSteps(P, ttl) + 1
  }

  function FlyingSteps(P: nat, ttl: nat): nat
    decreases ttl, 0
  {
    if ttl == 0 then 1 else QueuedSteps(P, ttl - 1) + 1
  }

  ghost function StepTariff(P: nat): Tariff {
    Tariff(x => true, t => QueuedSteps(P, t), t => FlyingSteps(P, t), 0, 1)
  }

  lemma {:induction false} StepsGrow(P: nat, m: nat, n: nat)
    requires m <= n
    ensures FlyingSteps(P, m) <= FlyingSteps(P, n)
    ensures QueuedSteps(P, m) <= QueuedSteps(P, n)
    decreases n
  {
    assert FlyingSteps(P, m) <= FlyingSteps(P, n) by {
      if m > 0 {
        StepsGrow(P, m - 1, n - 1);
      }
    }
    MulMonotone(FlyingSteps(P, m), FlyingSteps(P, n), P);
  }

  lemma StepTariffCovers(P: nat, T: nat)
    ensures Covers(StepTariff(P), P) && Monotone(StepTariff(P), T)
  {
    var w := StepTariff(P);
    forall t: nat | t <= T ensures w.queued(t) <= w.queued(T) {
      StepsGrow(P, t, T);
    }
  }

  /** Each relay step (a nonempty drain, an arrival, a loss) strictly lowers what the queued and
      flying copies are worth in steps; nothing but a broadcast raises it. */
  lemma RelayingDescends(idOf: IdOf, n: Net, a: Action, P: nat, T: nat)
    requires Enabled(idOf, n, a) && Bounded(n, P, T) && !a.Originate?
    ensures var before, after := Worth(StepTariff(P), n), Worth(StepTariff(P), Apply(idOf, n, a));
            after <= before && (a.Drain? || a.Arrive? || a.Lose? ==> after < before)
  {
    StepTariffCovers(P, T);
    RelayIsPaid(idOf, StepTariff(P), n, a, P, T);
  }

  lemma {:induction false} ChargedByCount(w: Tariff, steps: nat)
    requires w.perStep == 1
    ensures Charged(w, steps) == steps
  {
    if steps > 0 {
      ChargedByCount(w, steps - 1);
    }
  }

  /** So every run with b broadcasts contains at most b times a fixed number of relay steps. */
  lemma RelayingTerminates(idOf: IdOf, states: seq<Net>, actions: seq<Action>, P: nat, T: nat)
    requires IsRun(idOf, states, actions) && Bounded(states[0], P, T)
    ensures states[|states| - 1].work <= |states[|states| - 1].broadcasts| * QueuedSteps(P, T)
  {
    StepTariffCovers(P, T);
    AccountOfRun(idOf, StepTariff(P), states, actions, P, T, |states| - 1);
    AllPicked(StepTariff(P).picks, states[|states| - 1].broadcasts);
    ChargedByCount(StepTariff(P), states[|states| - 1].work);
  }

  // ------------------------------------------------------------- deduplication

  /** The cache of the node that acts has room for the id it marks as seen, if it marks one. */
  ghost predicate HasRoom(idOf: IdOf, n: Net, a: Action)
    requires Enabled(idOf, n, a)
  {
    match a
    case Originate(at, _, payload, timestamp, _) =>
      |n.nodes[at].seen + {idOf(n.nodes[at].self, payload, timestamp)}| <= n.nodes[at].config.maxSeen
    case Arrive(at, which, now, _) =>
      Fresh(idOf, n.nodes[at], n.flight[which].message, now) ==>
        |n.nodes[at].seen + {n.flight[which].message.id}| <= n.nodes[at].config.maxSeen
    case _ => true
  }

  /** Every handled id is still in its node's cache, and none is delivered after it was first handled. */
  ghost predicate HandledOnce(n: Net) {
    && (forall h <- n.log :: h.node < |n.nodes| && h.id in n.nodes[h.node].seen)
    && (forall i, j :: 0 <= i < j < |n.log| && SameItem(n.log[i], n.log[j]) ==> !n.log[j].delivered)
  }

  predicate SameItem(a: Handling, b: Handling) { a.node == b.node && a.id == b.id }

  lemma ApplyKeepsHandledOnce(idOf: IdOf, n: Net, a: Action)
    requires Enabled(idOf, n, a) && HasRoom(idOf, n, a) && HandledOnce(n)
    ensures HandledOnce(Apply(idOf, n, a))
  {
    var m := Apply(idOf, n, a);
    assert forall i :: 0 <= i < |m.nodes| ==> n.nodes[i].seen <= m.nodes[i].seen;
    if m.log != n.log {
      var h := m.log[|m.log| - 1];
      assert m.log == n.log + [h] && h.id in m.nodes[h.node].seen;
      assert h.delivered ==> h.id !in n.nodes[h.node].seen;
    }
  }

  /** In a run in which no cache overflows, no node delivers an id twice, and none delivers an id
      after having broadcast it. */
  lemma {:induction false} DeliveredAtMostOnce(idOf: IdOf, states: seq<Net>, actions: seq<Action>, i: nat)
    requires IsRun(idOf, states, actions) && i < |states|
    requires forall k :: 0 <= k < |actions| ==> HasRoom(idOf, states[k], actions[k])
    ensures HandledOnce(states[i])
  {
    if i > 0 {
      DeliveredAtMostOnce(idOf, states, actions, i - 1);
      ApplyKeepsHandledOnce(idOf, states[i - 1], actions[i - 1]);
    }
  }
}
