/** What a bounded cache costs: an id is delivered a second time only after the cache has dropped it, and
    for every cache size there is a run in which that happens. */
module MeshRedelivery {
  import opened Bytes
  import opened Identifiers
  import opened Mesh
  import opened MeshNetwork
  import opened Counting

  // -------------------------------------------------------- only after eviction

  /** The step from one network to the next logs that a node broadcast or delivered an id. */
  ghost predicate Handles(n: Net, m: Net, node: nat, x: Hash) {
    |m.log| == |n.log| + 1 && m.log[|n.log|].node == node && m.log[|n.log|].id == x
  }

  ghost predicate Delivers(n: Net, m: Net, node: nat, x: Hash) {
    Handles(n, m, node, x) && m.log[|n.log|].delivered
  }

  function Actor(a: Action): Option<nat> {
    if a.Lose? then None else Some(a.at)
  }

  /** The node's cache overflows, and an id it held or was about to hold is not among those kept. */
  ghost predicate Forgets(idOf: IdOf, n: Net, a: Action, node: nat, x: Hash) {
    && Enabled(idOf, n, a) && Actor(a) == Some(node) && !HasRoom(idOf, n, a) && node < |n.nodes|
    && x !in Apply(idOf, n, a).nodes[node].seen
    && (x in n.nodes[node].seen || Handles(n, Apply(idOf, n, a), node, x))
  }

  lemma {:induction false} NodesStay(idOf: IdOf, states: seq<Net>, actions: seq<Action>, i: nat)
    requires IsRun(idOf, states, actions) && i < |states|
    ensures |states[i].nodes| == |states[0].nodes|
  {
    if i > 0 {
      NodesStay(idOf, states, actions, i - 1);
      assert states[i] == Apply(idOf, states[i - 1], actions[i - 1]);
    }
  }

  lemma {:induction false} LostInBetween(idOf: IdOf, states: seq<Net>, actions: seq<Action>, i: nat, j: nat,
                                         node: nat, x: Hash) returns (k: nat)
    requires IsRun(idOf, states, actions) && i <= j < |states| && node < |states[i].nodes|
    requires x in states[i].nodes[node].seen && (node < |states[j].nodes| ==> x !in states[j].nodes[node].seen)
    ensures i <= k < j && Forgets(idOf, states[k], actions[k], node, x)
    decreases j - i
  {
    NodesStay(idOf, states, actions, i);
    NodesStay(idOf, states, actions, j);
    assert i < j;
    NodesStay(idOf, states, actions, i + 1);
    assert states[i + 1] == Apply(idOf, states[i], actions[i]);
    if x in states[i + 1].nodes[node].seen {
      k := LostInBetween(idOf, states, actions, i + 1, j, node, x);
    } else {
      k := i;
    }
  }

  /** In every run, if a node delivers an id that it has delivered or broadcast before, its cache has
      overflowed in between and dropped that id. */
  lemma RedeliveryNeedsEviction(idOf: IdOf, states: seq<Net>, actions: seq<Action>, i: nat, j: nat,
                                node: nat, x: Hash) returns (k: nat)
    requires IsRun(idOf, states, actions) && i < j < |actions|
    requires Handles(states[i], states[i + 1], node, x) && Delivers(states[j], states[j + 1], node, x)
    ensures i <= k < j && Forgets(idOf, states[k], actions[k], node, x)
  {
    if x in states[i + 1].nodes[node].seen {
      k := LostInBetween(idOf, states, actions, i + 1, j, node, x);
    } else {
      k := i;
    }
  }

  // ---------------------------------------------------------- and then it happens

  ghost predicate Reached(idOf: IdOf, n: Net) {
    exists states, actions :: IsRun(idOf, states, actions) && states[|states| - 1] == n
  }

  lemma OneMoreStep(idOf: IdOf, states: seq<Net>, actions: seq<Action>, a: Action, m: Net)
    requires IsRun(idOf, states, actions) && Enabled(idOf, states[|states| - 1], a)
    requires m == Apply(idOf, states[|states| - 1], a)
    ensures Reached(idOf, m)
  {
    var longer := states + [m];
    assert IsRun(idOf, longer, actions + [a]) && longer[|longer| - 1] == m;
  }

  lemma ReachStep(idOf: IdOf, n: Net, a: Action)
    requires Reached(idOf, n) && Enabled(idOf, n, a)
    ensures Reached(idOf, Apply(idOf, n, a))
  {
    var states, actions :| IsRun(idOf, states, actions) && states[|states| - 1] == n;
    OneMoreStep(idOf, states, actions, a, Apply(idOf, n, a));
  }

  /** What a node may broadcast. */
  datatype Post = Post(payload: seq<Byte>, timestamp: nat)

  function IdBy(idOf: IdOf, who: NodeId, p: Post): Hash { idOf(who, p.payload, p.timestamp) }

  /** A sender with one peer, a receiver with none, and nothing in flight. */
  ghost predicate Pair(n: Net, c: Config, x: Hash) {
    && |n.nodes| == 2 && n.flight == [] && n.nodes[0].seen <= {x}
    && n.nodes[0] == Node(c, 0, true, map[1 := PeerInfo(1, None, 0, false)], [], n.nodes[0].seen)
    && n.nodes[1].config == c && n.nodes[1].self == 1 && n.nodes[1].active
  }

  lemma OnlyPeer(p: PeerInfo, m: Message)
    requires p.peerId == 1 && m.source == 0
    ensures SendsAll(map[1 := p], [m], [Packet(1, m)])
  {
    assert Targets(map[1 := p], m) == {1};
    assert SendsOne(map[1 := p], m, [Packet(1, m)]);
    assert [Packet(1, m)][..1] == [Packet(1, m)];
  }

  lemma Sent(idOf: IdOf, n: Net, c: Config, p: Post) returns (m: Net)
    requires Reached(idOf, n) && Pair(n, c, IdBy(idOf, 0, p)) && c.maxSeen >= 1 && |p.payload| <= c.maxSize
    ensures var x := IdBy(idOf, 0, p);
            && Reached(idOf, m) && m.nodes == n.nodes[0 := n.nodes[0].(seen := {x})]
            && m.flight == [Packet(1, Message(x, Transaction, c.maxTtl, 0, p.payload, p.timestamp))]
            && m.log == n.log + [Handling(0, x, false)]
  {
    var x := IdBy(idOf, 0, p);
    assert n.nodes[0].seen + {x} == {x};
    var first := Originate(0, Transaction, p.payload, p.timestamp, {x});
    ReachStep(idOf, n, first);
    var l := Apply(idOf, n, first);
    var message := Message(x, Transaction, c.maxTtl, 0, p.payload, p.timestamp);
    assert l.nodes[0].queue == [message];
    OnlyPeer(l.nodes[0].peers[1], message);
    ReachStep(idOf, l, Drain(0, [Packet(1, message)]));
    m := Apply(idOf, l, Drain(0, [Packet(1, message)]));
  }

  /** The sender broadcasts, and the receiver, that has not got it in its cache, delivers. */
  lemma Relayed(idOf: IdOf, n: Net, c: Config, p: Post, kept: set<Hash>) returns (m: Net)
    requires Reached(idOf, n) && Pair(n, c, IdBy(idOf, 0, p)) && c.maxSeen >= 1 && c.maxTtl >= 1
    requires |p.payload| <= c.maxSize && IdBy(idOf, 0, p) !in n.nodes[1].seen
    requires CacheLimited(c.maxSeen, n.nodes[1].seen + {IdBy(idOf, 0, p)}, kept)
    ensures Reached(idOf, m) && Pair(m, c, IdBy(idOf, 0, p)) && m.nodes[1].seen == kept
    ensures m.log == n.log + [Handling(0, IdBy(idOf, 0, p), false), Handling(1, IdBy(idOf, 0, p), true)]
  {
    var l := Sent(idOf, n, c, p);
    ReachStep(idOf, l, Arrive(1, 0, p.timestamp, kept));
    m := Apply(idOf, l, Arrive(1, 0, p.timestamp, kept));
  }

  lemma Posted(idOf: IdOf, n: Net, c: Config, x: Hash, p: Post, kept: set<Hash>) returns (m: Net)
    requires Reached(idOf, n) && Pair(n, c, x) && |p.payload| <= c.maxSize
    requires CacheLimited(c.maxSeen, n.nodes[1].seen + {IdBy(idOf, 1, p)}, kept)
    ensures Reached(idOf, m) && Pair(m, c, x) && m.nodes[1].seen == kept && n.log <= m.log
  {
    var a := Originate(1, Transaction, p.payload, p.timestamp, kept);
    ReachStep(idOf, n, a);
    m := Apply(idOf, n, a);
  }

  function IdsBy(idOf: IdOf, who: NodeId, posts: seq<Post>): seq<Hash> {
    seq(|posts|, i requires 0 <= i < |posts| => IdBy(idOf, who, posts[i]))
  }

  ghost predicate Fitting(c: Config, posts: seq<Post>) {
    forall p <- posts :: |p.payload| <= c.maxSize
  }

  /** The receiver broadcasts on its own until its cache is full. */
  lemma {:induction false} Filled(idOf: IdOf, n: Net, c: Config, x: Hash, posts: seq<Post>) returns (m: Net)
    requires Reached(idOf, n) && Pair(n, c, x) && Fitting(c, posts) && n.nodes[1].seen == {x}
    requires Distinct(IdsBy(idOf, 1, posts)) && |posts| + 1 <= c.maxSeen
    ensures Reached(idOf, m) && Pair(m, c, x) && n.log <= m.log
    ensures m.nodes[1].seen == {x} + Elements(IdsBy(idOf, 1, posts))
    decreases |posts|
  {
    if posts == [] {
      m := n;
    } else {
      var k, ids := |posts| - 1, IdsBy(idOf, 1, posts);
      assert ids[..k] == IdsBy(idOf, 1, posts[..k]);
      ElementsPrefix(ids);
      var l := Filled(idOf, n, c, x, posts[..k]);
      var all := {x} + Elements(ids);
      ElementsCount(ids);
      assert |all| <= c.maxSeen;
      assert all == l.nodes[1].seen + {IdBy(idOf, 1, posts[k])};
      m := Posted(idOf, l, c, x, posts[k], all);
    }
  }

  /** An overflowing cache may drop one id and keep a half of the others. */
  lemma DropOne(seen: set<Hash>, x: Hash, limit: nat) returns (kept: set<Hash>)
    requires x in seen && |seen| == limit + 1
    ensures CacheLimited(limit, seen, kept) && x !in kept && |kept| == limit / 2
  {
    assert |seen - {x}| == limit;
    var xs := Choose(seen - {x}, limit / 2);
    ElementsCount(xs);
    kept := Elements(xs);
    assert forall y <- kept :: y in xs;
  }

  lemma OneOver(ids: seq<Hash>, x: Hash, seen: set<Hash>)
    requires ids != [] && Distinct(ids) && x !in Elements(ids) && seen == {x} + Elements(ids[..|ids| - 1])
    ensures x in seen + {ids[|ids| - 1]} && |seen + {ids[|ids| - 1]}| == |ids| + 1
  {
    ElementsPrefix(ids);
    ElementsCount(ids);
    assert seen + {ids[|ids| - 1]} == {x} + Elements(ids);
  }

  lemma FrontIds(idOf: IdOf, posts: seq<Post>, front: seq<Post>, ids: seq<Hash>)
    requires posts != [] && front == posts[..|posts| - 1] && ids == IdsBy(idOf, 1, posts) && Distinct(ids)
    ensures IdsBy(idOf, 1, front) == ids[..|ids| - 1] && Distinct(IdsBy(idOf, 1, front))
  {
    assert IdsBy(idOf, 1, front) == ids[..|ids| - 1];
    DistinctPrefix(ids);
  }

  /** All but the last message fit. */
  lemma FilledButOne(idOf: IdOf, n: Net, c: Config, x: Hash, posts: seq<Post>, ids: seq<Hash>) returns (m: Net)
    requires Reached(idOf, n) && Pair(n, c, x) && Fitting(c, posts) && n.nodes[1].seen == {x}
    requires ids == IdsBy(idOf, 1, posts) && Distinct(ids) && |posts| == c.maxSeen >= 1 && x !in Elements(ids)
    ensures Reached(idOf, m) && Pair(m, c, x) && n.log <= m.log
    ensures x in m.nodes[1].seen + {ids[|ids| - 1]} && |m.nodes[1].seen + {ids[|ids| - 1]}| == c.maxSeen + 1
  {
    var front := posts[..|posts| - 1];
    FrontIds(idOf, posts, front, ids);
    m := Filled(idOf, n, c, x, front);
    OneOver(ids, x, m.nodes[1].seen);
  }

  /** The receiver broadcasts one message more than its cache holds, and the cache drops x. */
  lemma Overflowed(idOf: IdOf, n: Net, c: Config, x: Hash, posts: seq<Post>) returns (m: Net)
    requires Reached(idOf, n) && Pair(n, c, x) && Fitting(c, posts) && n.nodes[1].seen == {x}
    requires Distinct(IdsBy(idOf, 1, posts)) && |posts| == c.maxSeen >= 1 && x !in Elements(IdsBy(idOf, 1, posts))
    ensures Reached(idOf, m) && Pair(m, c, x) && n.log <= m.log
    ensures x !in m.nodes[1].seen && |m.nodes[1].seen| == c.maxSeen / 2
  {
    var last := posts[|posts| - 1];
    var l := FilledButOne(idOf, n, c, x, posts, IdsBy(idOf, 1, posts));
    var kept := DropOne(l.nodes[1].seen + {IdBy(idOf, 1, last)}, x, c.maxSeen);
    m := Posted(idOf, l, c, x, last, kept);
  }

  lemma Opened(idOf: IdOf, c: Config, p: Post) returns (m: Net)
    requires c.maxSeen >= 1 && c.maxTtl >= 1 && |p.payload| <= c.maxSize
    ensures var x := IdBy(idOf, 0, p);
            && Reached(idOf, m) && Pair(m, c, x) && m.nodes[1].seen == {x}
            && |m.log| == 2 && m.log[1] == Handling(1, x, true)
  {
    var n := Net([Node(c, 0, true, map[1 := PeerInfo(1, None, 0, false)], [], {}), Node(c, 1, true, map[], [], {})],
                 [], [], [], 0, []);
    assert IsRun(idOf, [n], []);
    assert {} + {IdBy(idOf, 0, p)} == {IdBy(idOf, 0, p)};
    m := Relayed(idOf, n, c, p, {IdBy(idOf, 0, p)});
  }

  /** Whatever the size of the caches, and wherever one node has that many messages with ids of their
      own to broadcast: in some run it delivers one and the same message twice. */
  lemma RedeliveredAfterEviction(idOf: IdOf, c: Config, p: Post, posts: seq<Post>)
    returns (states: seq<Net>, actions: seq<Action>, i: nat, j: nat)
    requires c.maxSeen >= 1 && c.maxTtl >= 1 && |p.payload| <= c.maxSize
    requires |posts| == c.maxSeen && Fitting(c, posts)
    requires Distinct(IdsBy(idOf, 1, posts)) && IdBy(idOf, 0, p) !in Elements(IdsBy(idOf, 1, posts))
    ensures IsRun(idOf, states, actions) && i < j < |states[|states| - 1].log|
    ensures var log := states[|states| - 1].log; log[i] == log[j] == Handling(1, IdBy(idOf, 0, p), true)
  {
    var n := Opened(idOf, c, p);
    var l := Overflowed(idOf, n, c, IdBy(idOf, 0, p), posts);
    var m := Relayed(idOf, l, c, p, l.nodes[1].seen + {IdBy(idOf, 0, p)});
    states, actions :| IsRun(idOf, states, actions) && states[|states| - 1] == m;
    i, j := 1, |m.log| - 1;
  }
}
