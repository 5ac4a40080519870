/** What goes wrong without each guard on honest votes, in runs without a single Byzantine vote, and the
    exact condition for finalized blocks to form one chain. */
module StreamletConflict {
  import opened Identifiers
  import opened Streamlet
  import opened StreamletNetwork
  import opened StreamletQuorum
  import opened StreamletStages
  import opened StreamletChain
  import opened Counting

  /** Three blocks linked to each other and to the starting block. */
  predicate Linked(c: Config, a: Hash, m: Hash, d: Hash) {
    ParentOf(c, a) == c.baseHash && ParentOf(c, m) == a && ParentOf(c, d) == m
  }

  // --------------------------------------------------- two blocks of one height

  /** Voters that have heard of the first block's quorum may sign both blocks of the second height. */
  lemma VotersSignTwo(c: Config, n: Network, g: Group, a: Hash, p: Hash, q: Hash, d: Hash)
    returns (m: Network, s: State)
    requires Stage(c, n, g, Start(c), 0, c.base) && !c.onePerHeight
    requires Ladder(c, a, p, d) && Ladder(c, a, q, d) && p != q
    requires c.extending ==> Linked(c, a, p, d) && ParentOf(c, q) == a
    ensures Stage(c, m, g, s, 3, c.base + 2) && Ready(c, s, View({a, p, d, q}, {p, d, q}, c.base + 1, 1, 3))
    ensures Elements(Ballots(c, g.voters, a, 1)) <= m.cast
    ensures Elements(Ballots(c, g.voters, p, 2)) <= m.cast && Elements(Ballots(c, g.voters, q, 3)) <= m.cast
  {
    FourBlocks(a, p, d, q);
    assert {a, p, d, q} - {a} == {p, d, q};
    var n1, s1 := VotersOpen(c, n, g, [a, p, d, q], a);
    m, s := VotersSignBoth(c, n1, g, s1, View({a, p, d, q}, {p, d, q}, c.base + 1, 1, 1), p, q);
  }

  lemma VotersSignBoth(c: Config, n: Network, g: Group, s: State, v: View, p: Hash, q: Hash)
    returns (m: Network, t: State)
    requires Stage(c, n, g, s, 1, v.tip) && Ready(c, s, v) && v.voted == 1 && !c.onePerHeight
    requires p in v.known && q in v.known && HeightOf(c, p) == HeightOf(c, q) == v.tip + 1
    requires c.extending ==> ExtendsNotarized(c, s, p) && ExtendsNotarized(c, s, q)
    ensures Stage(c, m, g, t, 3, v.tip + 1) && Ready(c, t, v.(voted := 3)) && n.cast <= m.cast
    ensures Elements(Ballots(c, g.voters, p, 2)) <= m.cast && Elements(Ballots(c, g.voters, q, 3)) <= m.cast
  {
    var m', t' := VotersSignNext(c, n, g, s, v, 1, v.tip, p, 2);
    m, t := VotersSignNext(c, m', g, t', v.(voted := 2), 2, v.tip + 1, q, 3);
  }

  lemma VotersSignLast(c: Config, n: Network, g: Group, s: State, v: View, p: Hash, d: Hash)
    returns (m: Network, t: State)
    requires Stage(c, n, g, s, 3, v.tip + 1) && Ready(c, s, v) && v.voted == 3 && v.heard < 2
    requires p in v.unheard && d in v.known && HeightOf(c, p) == v.tip + 1 <= c.base + 2 && HeightOf(c, d) == v.tip + 2
    requires Elements(Ballots(c, g.voters, p, 2)) <= n.cast && (c.extending ==> ParentOf(c, d) == p)
    ensures Stage(c, m, g, t, 4, v.tip + 2)
    ensures n.cast <= m.cast && Elements(Ballots(c, g.voters, d, 4)) <= m.cast
  {
    var P := Ballots(c, g.voters, p, 2);
    BallotsAreQuorum(c, g.voters, p, 2);
    m := StageFeed(c, n, g, s, 3, v.tip + 1, P);
    FedReady(c, s, v, p, 2, P);
    var v' := v.(unheard := v.unheard - {p}, tip := v.tip + 1, heard := 2);
    m, t := VotersSignNext(c, m, g, Fed(s, P), v', 3, v.tip + 1, d, 4);
  }

  /** For every committee with fewer than a third of Byzantine members whose honest members may vote for
      two blocks of a height, and for any blocks at the next three heights, two of them at the second:
      some run in which no Byzantine vote is ever cast ends with two nodes that have finalized different
      blocks at one height. Neither monotone epochs nor extending only notarized blocks prevents it. */
  lemma ConflictingFinality(c: Config, a: Hash, p: Hash, q: Hash, d: Hash)
    returns (states: seq<Network>, actions: seq<Action>, u: NodeId, w: NodeId)
    requires Tolerable(c) && !c.onePerHeight && Ladder(c, a, p, d) && Ladder(c, a, q, d) && p != q
    requires c.extending ==> Linked(c, a, p, d) && ParentOf(c, q) == a
    ensures HonestRun(c, states, actions)
    ensures var nodes := states[|states| - 1].nodes;
            && u in nodes && nodes[u].finalizedHeight == c.base + 2 && nodes[u].finalizedHash == p
            && w in nodes && nodes[w].finalizedHeight == c.base + 2 && nodes[w].finalizedHash == q
  {
    var g := HonestGroup(c);
    u, w := g.first, g.second;
    var n := StartStage(c, g);
    var s: State;
    n, s := VotersSignTwo(c, n, g, a, p, q, d);
    n, s := VotersSignLast(c, n, g, s, View({a, p, d, q}, {p, d, q}, c.base + 1, 1, 3), p, d);
    var A, P := Ballots(c, g.voters, a, 1), Ballots(c, g.voters, p, 2);
    var Q, D := Ballots(c, g.voters, q, 3), Ballots(c, g.voters, d, 4);
    BallotsAreQuorum(c, g.voters, a, 1);
    BallotsAreQuorum(c, g.voters, p, 2);
    BallotsAreQuorum(c, g.voters, q, 3);
    BallotsAreQuorum(c, g.voters, d, 4);
    var n' := ObserverFinalizes(c, n, u, a, p, d, A, P, D, 2);
    n := ObserverFinalizes(c, n', w, a, q, d, A, Q, D, 3);
    states, actions :| HonestRun(c, states, actions) && states[|states| - 1] == n;
  }

  // ------------------------------------------------------- blocks off the chain

  lemma VotersSignAll(c: Config, n: Network, g: Group, a: Hash, m: Hash, d: Hash) returns (n': Network, s: State)
    requires Stage(c, n, g, Start(c), 0, c.base) && Ladder(c, a, m, d) && !c.extending
    ensures Stage(c, n', g, s, 4, c.base + 3) && Elements(Ballots(c, g.voters, a, 1)) <= n'.cast
    ensures Elements(Ballots(c, g.voters, m, 2)) <= n'.cast && Elements(Ballots(c, g.voters, d, 4)) <= n'.cast
  {
    ThreeBlocks(a, m, d);
    var all := {a, m, d};
    var n1, s1 := VotersOpen(c, n, g, [a, m, d], a);
    var n2, s2 := VotersNotarize(c, n1, g, s1, View(all, all - {a}, c.base + 1, 1, 1), m, 2);
    n', s := VotersSignNext(c, n2, g, s2, View(all, all - {a} - {m}, c.base + 2, 2, 2), 2, c.base + 2, d, 4);
  }

  /** The voting rule looks at heights and not at parents: for every tolerable committee whose honest
      members do not check parents, even if they never sign two blocks of a height and their epochs
      never go back, and for any blocks of the next three heights, some run without Byzantine votes has
      one node finalize the middle block, whatever its parents are, while another still has the start. */
  lemma OffChainFinality(c: Config, a: Hash, m: Hash, d: Hash)
    returns (states: seq<Network>, actions: seq<Action>, u: NodeId, w: NodeId)
    requires Tolerable(c) && !c.extending && Ladder(c, a, m, d)
    ensures HonestRun(c, states, actions)
    ensures var nodes := states[|states| - 1].nodes;
            && u in nodes && nodes[u].finalizedHeight == c.base + 2 && nodes[u].finalizedHash == m
            && w in nodes && nodes[w].finalizedHeight == c.base && nodes[w].finalizedHash == c.baseHash
  {
    var g := HonestGroup(c);
    u, w := g.first, g.second;
    var n := StartStage(c, g);
    var s: State;
    n, s := VotersSignAll(c, n, g, a, m, d);
    var A, M, D := Ballots(c, g.voters, a, 1), Ballots(c, g.voters, m, 2), Ballots(c, g.voters, d, 4);
    BallotsAreQuorum(c, g.voters, a, 1);
    BallotsAreQuorum(c, g.voters, m, 2);
    BallotsAreQuorum(c, g.voters, d, 4);
    n := ObserverFinalizes(c, n, u, a, m, d, A, M, D, 2);
    states, actions :| HonestRun(c, states, actions) && states[|states| - 1] == n;
  }

  // --------------------------------------------------------- the exact condition

  /** Whatever any two nodes have finalized at any two moments lies on one chain. */
  ghost predicate Consistent(c: Config, states: seq<Network>) {
    forall p: nat, i, q: nat, j :: Held(states, p, i) && Held(states, q, j) ==>
                                     OnOneChain(c, states[p].nodes[i], states[q].nodes[j])
  }

  ghost predicate Held(states: seq<Network>, p: nat, i: NodeId) {
    p < |states| && i in states[p].nodes
  }

  ghost predicate ChainSafe(c: Config) {
    forall states: seq<Network>, actions: seq<Action> :: IsRun(c, states, actions) ==> Consistent(c, states)
  }

  /** Two linked chains that part after their first block. */
  ghost predicate Forked(c: Config, a: Hash, p: Hash, q: Hash, d: Hash) {
    Ladder(c, a, p, d) && Ladder(c, a, q, d) && p != q && Linked(c, a, p, d) && ParentOf(c, q) == a
  }

  /** Blocks of the next three heights, the second of which does not descend from the start. */
  ghost predicate Stray(c: Config, a: Hash, m: Hash, d: Hash) {
    Ladder(c, a, m, d) && Ancestor(c, m, 2) != c.baseHash
  }

  /** Where blocks can fork and blocks can stray, the finalized blocks form one chain in every run if and
      only if honest validators keep both guards: no second block of a height, and no block that does not
      extend a notarized one. */
  lemma ChainSafeIffGuarded(c: Config, a: Hash, p: Hash, q: Hash, d: Hash, a': Hash, m': Hash, d': Hash)
    requires Tolerable(c) && Forked(c, a, p, q, d) && Stray(c, a', m', d')
    ensures ChainSafe(c) <==> c.onePerHeight && c.extending
  {
    if c.onePerHeight && c.extending {
      GuardedIsSafe(c);
    } else if !c.onePerHeight {
      var states, actions, u, w := ConflictingFinality(c, a, p, q, d);
    } else {
      var states, actions, u, w := OffChainFinality(c, a', m', d');
    }
  }

  lemma GuardedIsSafe(c: Config)
    requires Tolerable(c) && c.onePerHeight && c.extending
    ensures ChainSafe(c)
  {
    forall states: seq<Network>, actions: seq<Action> | IsRun(c, states, actions) ensures Consistent(c, states) {
      forall p: nat, i, q: nat, j | Held(states, p, i) && Held(states, q, j)
        ensures OnOneChain(c, states[p].nodes[i], states[q].nodes[j])
      {
        ChainAgreement(c, states, actions, p, i, q, j);
      }
    }
  }

  // ------------------------------------------------------- epochs that go back

  /** Pruning keeps a voted epoch exactly when the node has not voted more than a window later. */
  lemma PruningForgets(s: State, height: nat, e: nat)
    ensures e in PruneBelow(s, height).votedEpochs <==>
        e in s.votedEpochs && forall later <- s.votedEpochs :: later <= e + 100
  {
  }

  /** After a finality event the voting rule admits an old epoch again if there was a vote a window later. */
  lemma FinalityForgets(s: State, z: Hash, e: nat, later: nat)
    requires IndexAgrees(s) && CheckFinality(s).1.Some? && later in s.votedEpochs && later > e + EPOCH_WINDOW
    requires z in s.proposed
    requires s.proposed[z].header.height == s.highestNotarized + 1 > CheckFinality(s).0.finalizedHeight
    ensures var t := CheckFinality(s).0; ShouldVote(t, z, e) && t.proposed[z] == s.proposed[z]
  {
    FinalityCases(s);
    var m := CheckFinality(s).1.value;
    PruningForgets(Finalized(s, m), m, e);
    FinalityKeepsUpper(s, z);
  }

  lemma ForgetsAfterFinality(c: Config, s: State, v: View, a: Hash, m: Hash, d: Hash, z: Hash, D: seq<Vote>, e: nat)
    requires Ready(c, s, v) && OneShort(c, s, v, a, m, d) && v.heard < e && Quorum(c, D, d, e)
    requires z in v.known && HeightOf(c, z) == c.base + 4 && e in s.votedEpochs && e > 1 + EPOCH_WINDOW
    ensures ShouldVote(Fed(s, D), z, 1) && Fed(s, D).proposed[z].header == c.headerOf(z)
    ensures StoredNotarized(Fed(s, D), d, c.base + 3)
  {
    var q := Quorate(s, d, D);
    ThirdQuorumFinalizes(c, s, v, a, m, d, D, e);
    QuorateKeepsIndex(s, d, D);
    FinalityForgets(q, z, 1, e);
    FinalityKeepsUpper(q, d);
  }

  lemma FinalityKeepsUpper(s: State, k: Hash)
    requires IndexAgrees(s) && CheckFinality(s).1.Some? && k in s.proposed
    requires s.proposed[k].header.height > CheckFinality(s).0.finalizedHeight
    ensures var t := CheckFinality(s).0; k in t.proposed && t.proposed[k] == s.proposed[k]
  {
    FinalityCases(s);
    var m := CheckFinality(s).1.value;
    PruneKeepsUpperBlocks(Finalized(s, m), m, k);
  }

  /** A node that knows a single block and hears its quorum holds all its votes. */
  lemma LoneQuorum(c: Config, k: Hash, e: nat, votes: seq<Vote>)
    requires Quorum(c, votes, k, e) && e > 0
    ensures NotarizedIn(Fed(Announced(c, Start(c), k), votes), k, e)
  {
    var s := Announced(c, Start(c), k);
    AddProposalKeepsIndex(Start(c), c.headerOf(k), k, 0);
    FedQuorum(s, k, e, votes);
    var t := Quorate(s, k, votes);
    QuorateKeepsIndex(s, k, votes);
    VotersCount(votes, e);
  }

  lemma ObserverNotarizes(c: Config, n: Network, u: NodeId, k: Hash, e: nat, votes: seq<Vote>) returns (m: Network)
    requires Reached(c, n) && Idle(c, n, u) && Quorum(c, votes, k, e) && e > 0 && Elements(votes) <= n.cast
    ensures Reached(c, m) && SameBut(n, m, u) && NotarizedIn(m.nodes[u], k, e)
  {
    ReachAnnounced(c, n, u, k);
    var s := Announced(c, Start(c), k);
    var l := With(n, u, s);
    assert forall v <- votes :: v in Elements(votes);
    ReachFed(c, l, u, votes);
    LoneQuorum(c, k, e, votes);
    m := With(l, u, Fed(s, votes));
  }

  /** Epochs that go back defeat the voting rule: for every tolerable committee whose honest validators
      vote in any epoch the rule admits, some run without Byzantine votes ends with two nodes that have
      notarized different blocks in one epoch. The other two guards do not prevent it. */
  lemma RevoteAfterPruning(c: Config, a: Hash, m: Hash, d: Hash, z: Hash)
    returns (states: seq<Network>, actions: seq<Action>, u: NodeId, w: NodeId)
    requires Tolerable(c) && !c.monotone && Ladder(c, a, m, d) && HeightOf(c, z) == c.base + 4
    requires c.extending ==> Linked(c, a, m, d) && ParentOf(c, z) == d
    ensures HonestRun(c, states, actions)
    ensures var nodes := states[|states| - 1].nodes;
            && u in nodes && NotarizedIn(nodes[u], a, 1)
            && w in nodes && NotarizedIn(nodes[w], z, 1)
            && a != z
  {
    var g := HonestGroup(c);
    u, w := g.first, g.second;
    var n := StartStage(c, g);
    var s: State;
    n, s := VotersFinalize(c, n, g, a, m, d, z);
    n := StageCast(c, n, g, s, 2 + EPOCH_WINDOW, c.base + 3, z, 1);
    var A, Z := Ballots(c, g.voters, a, 1), Ballots(c, g.voters, z, 1);
    BallotsAreQuorum(c, g.voters, a, 1);
    BallotsAreQuorum(c, g.voters, z, 1);
    var n' := ObserverNotarizes(c, n, u, a, 1, A);
    n := ObserverNotarizes(c, n', w, z, 1, Z);
    states, actions :| HonestRun(c, states, actions) && states[|states| - 1] == n;
  }

  lemma VotersFinalize(c: Config, n: Network, g: Group, a: Hash, m: Hash, d: Hash, z: Hash)
    returns (n': Network, t: State)
    requires Stage(c, n, g, Start(c), 0, c.base)
    requires Ladder(c, a, m, d) && HeightOf(c, z) == c.base + 4 && (c.extending ==> Linked(c, a, m, d))
    ensures Stage(c, n', g, t, 2 + EPOCH_WINDOW, c.base + 3) && Elements(Ballots(c, g.voters, a, 1)) <= n'.cast
    ensures ShouldVote(t, z, 1) && t.proposed[z].header == c.headerOf(z) && StoredNotarized(t, d, c.base + 3)
  {
    FourBlocks(a, m, d, z);
    var all := {a, m, d, z};
    var n1, s1 := VotersOpen(c, n, g, [a, m, d, z], a);
    n', t := VotersFinish(c, n1, g, s1, View(all, all - {a}, c.base + 1, 1, 1), a, m, d, z);
  }

  lemma VotersFinish(c: Config, n: Network, g: Group, s: State, v: View, a: Hash, m: Hash, d: Hash, z: Hash)
    returns (n': Network, t: State)
    requires Stage(c, n, g, s, 1, c.base + 1) && Ready(c, s, v) && (c.extending ==> Linked(c, a, m, d))
    requires Ladder(c, a, m, d) && v.tip == c.base + 1 && v.heard == v.voted == 1 && m in v.unheard && d in v.unheard
    requires StoredNotarized(s, a, c.base + 1) && forall k <- v.known :: HeightOf(c, k) == c.base + 2 ==> k == m
    requires z in v.known && HeightOf(c, z) == c.base + 4
    ensures Stage(c, n', g, t, 2 + EPOCH_WINDOW, c.base + 3) && n.cast <= n'.cast
    ensures ShouldVote(t, z, 1) && t.proposed[z].header == c.headerOf(z) && StoredNotarized(t, d, c.base + 3)
  {
    var n3, s3 := VotersNotarize(c, n, g, s, v, m, 2);
    var v3 := v.(unheard := v.unheard - {m}, tip := c.base + 2, heard := 2, voted := 2);
    n', t := VotersForget(c, n3, g, s3, v3, a, m, d, z);
  }

  lemma VotersForget(c: Config, n: Network, g: Group, s: State, v: View, a: Hash, m: Hash, d: Hash, z: Hash)
    returns (n': Network, t: State)
    requires Stage(c, n, g, s, 2, c.base + 2) && Ready(c, s, v) && (c.extending ==> ParentOf(c, d) == m)
    requires OneShort(c, s, v, a, m, d) && v.heard == v.voted == 2 && z in v.known && HeightOf(c, z) == c.base + 4
    ensures Stage(c, n', g, t, 2 + EPOCH_WINDOW, c.base + 3) && n.cast <= n'.cast
    ensures ShouldVote(t, z, 1) && t.proposed[z].header == c.headerOf(z) && StoredNotarized(t, d, c.base + 3)
  {
    var e := 2 + EPOCH_WINDOW;
    var m', s' := VotersSignNext(c, n, g, s, v, 2, c.base + 2, d, e);
    var D := Ballots(c, g.voters, d, e);
    BallotsAreQuorum(c, g.voters, d, e);
    n' := StageFeed(c, m', g, s', e, c.base + 3, D);
    ForgetsAfterFinality(c, s', v.(voted := e), a, m, d, z, D, e);
    t := Fed(s', D);
  }
}
