/** Runs without forged votes, built stage by stage: an honest quorum that moves in step, and observers. */
module StreamletStages {
  import opened Identifiers
  import opened Streamlet
  import opened StreamletNetwork
  import opened StreamletQuorum
  import opened Counting

  // ---------------------------------------------------------------- the network

  /** Some run without forged votes ends in this network. */
  ghost predicate Reached(c: Config, n: Network) {
    exists states, actions :: HonestRun(c, states, actions) && states[|states| - 1] == n
  }

  /** Byzantine validators stay silent. */
  ghost predicate HonestRun(c: Config, states: seq<Network>, actions: seq<Action>) {
    IsRun(c, states, actions) && forall a <- actions :: !a.Forge?
  }

  lemma OneMoreStep(c: Config, states: seq<Network>, actions: seq<Action>, a: Action, m: Network)
    requires HonestRun(c, states, actions) && Enabled(c, states[|states| - 1], a) && !a.Forge?
    requires m == Apply(c, states[|states| - 1], a)
    ensures Reached(c, m)
  {
    var longer := states + [m];
    assert HonestRun(c, longer, actions + [a]) && longer[|longer| - 1] == m;
  }

  lemma ReachStep(c: Config, n: Network, a: Action)
    requires Reached(c, n) && Enabled(c, n, a) && !a.Forge?
    ensures Reached(c, Apply(c, n, a))
  {
    var states, actions :| HonestRun(c, states, actions) && states[|states| - 1] == n;
    OneMoreStep(c, states, actions, a, Apply(c, n, a));
  }

  function With(n: Network, x: NodeId, s: State): Network { n.(nodes := n.nodes[x := s]) }

  lemma {:induction false} ReachFed(c: Config, n: Network, x: NodeId, votes: seq<Vote>)
    requires Reached(c, n) && x in n.nodes && forall v <- votes :: v in n.cast
    ensures Reached(c, With(n, x, Fed(n.nodes[x], votes)))
  {
    if votes == [] {
      assert n.nodes[x := n.nodes[x]] == n.nodes;
    } else {
      var k := |votes| - 1;
      ReachFed(c, n, x, votes[..k]);
      ReachStep(c, With(n, x, Fed(n.nodes[x], votes[..k])), Deliver(x, votes[k]));
    }
  }

  lemma ReachAnnounced(c: Config, n: Network, x: NodeId, k: Hash)
    requires Reached(c, n) && x in n.nodes
    ensures Reached(c, With(n, x, Announced(c, n.nodes[x], k)))
  {
    ReachStep(c, n, Announce(x, k, 0));
  }

  /** The network in which some nodes have moved by the same step. */
  function Moved(n: Network, xs: seq<NodeId>, f: State -> State): Network {
    n.(nodes := map i | i in n.nodes :: if i in xs then f(n.nodes[i]) else n.nodes[i])
  }

  ghost predicate CanMove(c: Config, n: Network, x: NodeId, f: State -> State)
    requires x in n.nodes
  {
    Reached(c, With(n, x, f(n.nodes[x])))
  }

  /** Wherever these votes are in the pool, any node can make the step alone. */
  ghost predicate Possible(c: Config, pool: set<Vote>, f: State -> State) {
    forall n: Network, x: NodeId :: Reached(c, n) && pool <= n.cast && x in n.nodes ==> CanMove(c, n, x, f)
  }

  lemma OneMoreMoved(n: Network, xs: seq<NodeId>, f: State -> State)
    requires xs != [] && Distinct(xs) && forall x <- xs :: x in n.nodes
    ensures var k := |xs| - 1; var m := Moved(n, xs[..k], f);
            m.nodes[xs[k]] == n.nodes[xs[k]] && With(m, xs[k], f(n.nodes[xs[k]])) == Moved(n, xs, f)
  {
    var k := |xs| - 1;
    assert xs == xs[..k] + [xs[k]] && xs[k] !in xs[..k];
    assert With(Moved(n, xs[..k], f), xs[k], f(n.nodes[xs[k]])).nodes == Moved(n, xs, f).nodes;
  }

  lemma MoveLast(c: Config, n: Network, xs: seq<NodeId>, pool: set<Vote>, f: State -> State)
    requires Possible(c, pool, f) && pool <= n.cast && xs != [] && Distinct(xs) && forall x <- xs :: x in n.nodes
    requires Reached(c, Moved(n, xs[..|xs| - 1], f))
    ensures Reached(c, Moved(n, xs, f))
  {
    assert CanMove(c, Moved(n, xs[..|xs| - 1], f), xs[|xs| - 1], f);
    OneMoreMoved(n, xs, f);
  }

  lemma MovedNone(n: Network, f: State -> State)
    ensures Moved(n, [], f) == n
  {
    assert Moved(n, [], f).nodes == n.nodes;
  }

  lemma {:induction false} ReachMoved(c: Config, n: Network, xs: seq<NodeId>, pool: set<Vote>, f: State -> State)
    requires Possible(c, pool, f) && Reached(c, n) && pool <= n.cast && Distinct(xs) && forall x <- xs :: x in n.nodes
    ensures Reached(c, Moved(n, xs, f))
  {
    if xs == [] {
      MovedNone(n, f);
    } else {
      ReachMoved(c, n, xs[..|xs| - 1], pool, f);
      MoveLast(c, n, xs, pool, f);
    }
  }

  lemma FeedingIsPossible(c: Config, votes: seq<Vote>, f: State -> State)
    requires forall s :: f(s) == Fed(s, votes)
    ensures Possible(c, Elements(votes), f)
  {
    forall n: Network, x: NodeId | Reached(c, n) && Elements(votes) <= n.cast && x in n.nodes
      ensures CanMove(c, n, x, f)
    {
      assert forall v <- votes :: v in Elements(votes);
      ReachFed(c, n, x, votes);
    }
  }

  lemma AnnouncingIsPossible(c: Config, k: Hash, f: State -> State)
    requires forall s :: f(s) == Announced(c, s, k)
    ensures Possible(c, {}, f)
  {
    forall n: Network, x: NodeId | Reached(c, n) && {} <= n.cast && x in n.nodes ensures CanMove(c, n, x, f) {
      ReachAnnounced(c, n, x, k);
    }
  }

  function Ballot(c: Config, x: NodeId, k: Hash, e: nat): Vote { Vote(e, k, HeightOf(c, k), x) }

  function Ballots(c: Config, xs: seq<NodeId>, k: Hash, e: nat): seq<Vote> {
    seq(|xs|, i requires 0 <= i < |xs| => Ballot(c, xs[i], k, e))
  }

  lemma BallotsAreQuorum(c: Config, xs: seq<NodeId>, k: Hash, e: nat)
    requires Distinct(xs) && |xs| == Threshold(|c.committee|) >= 1
    ensures Quorum(c, Ballots(c, xs, k, e), k, e)
  {
  }

  ghost predicate MayCast(c: Config, n: Network, x: NodeId, k: Hash, e: nat) {
    && Honest(c, x) && x in n.nodes && ShouldVote(n.nodes[x], k, e)
    && n.nodes[x].proposed[k].header == c.headerOf(k)
    && (c.monotone ==> EpochNotBehind(n, x, e))
    && (c.onePerHeight ==> OnlyOfHeight(c, n, x, k))
    && (c.extending ==> ExtendsNotarized(c, n.nodes[x], k))
  }

  /** Some validators have cast their votes for a block, and nothing else was cast. */
  ghost predicate CastBy(c: Config, n: Network, m: Network, xs: seq<NodeId>, k: Hash, e: nat) {
    && m.cast == n.cast + Elements(Ballots(c, xs, k, e))
    && forall x <- m.lastVoted ::
         if x in xs then m.lastVoted[x] == e else x in n.lastVoted && m.lastVoted[x] == n.lastVoted[x]
  }

  lemma CastByOneMore(c: Config, n: Network, l: Network, m: Network, xs: seq<NodeId>, k: Hash, e: nat)
    requires xs != [] && CastBy(c, n, l, xs[..|xs| - 1], k, e)
    requires m.cast == l.cast + {Ballot(c, xs[|xs| - 1], k, e)} && m.lastVoted == l.lastVoted[xs[|xs| - 1] := e]
    ensures CastBy(c, n, m, xs, k, e)
  {
    var j := |xs| - 1;
    var votes := Ballots(c, xs, k, e);
    assert votes[..j] == Ballots(c, xs[..j], k, e);
    ElementsPrefix(votes);
    assert xs == xs[..j] + [xs[j]];
  }

  lemma {:induction false} ReachCast(c: Config, n: Network, xs: seq<NodeId>, k: Hash, e: nat, f: State -> State)
    returns (m: Network)
    requires Reached(c, n) && Distinct(xs) && forall x <- xs :: MayCast(c, n, x, k, e)
    requires forall s :: f(s) == RecordVote(s, e, k)
    ensures Reached(c, m) && m.nodes == Moved(n, xs, f).nodes && CastBy(c, n, m, xs, k, e)
  {
    if xs == [] {
      m := n;
      MovedNone(n, f);
    } else {
      var j := |xs| - 1;
      var l := ReachCast(c, n, xs[..j], k, e, f);
      OneMoreMoved(n, xs, f);
      assert MayCast(c, n, xs[j], k, e);
      m := CastOne(c, l, xs[j], k, e);
      CastByOneMore(c, n, l, m, xs, k, e);
    }
  }

  lemma CastOne(c: Config, n: Network, x: NodeId, k: Hash, e: nat) returns (m: Network)
    requires Reached(c, n) && MayCast(c, n, x, k, e)
    ensures Reached(c, m) && m.nodes == n.nodes[x := RecordVote(n.nodes[x], e, k)]
    ensures m.cast == n.cast + {Ballot(c, x, k, e)} && m.lastVoted == n.lastVoted[x := e]
  {
    ReachStep(c, n, CastVote(x, k, e));
    m := Apply(c, n, CastVote(x, k, e));
  }

  // ------------------------------------------------------------------ the stages

  /** An honest quorum of voters, and two observers. */
  datatype Group = Group(voters: seq<NodeId>, first: NodeId, second: NodeId)

  ghost predicate GroupOk(c: Config, g: Group) {
    && |g.voters| == Threshold(|c.committee|) >= 1 && Distinct(g.voters) && (forall x <- g.voters :: Honest(c, x))
    && g.first !in g.voters && g.second !in g.voters && g.first != g.second
  }

  /** No vote was cast in a later epoch or for a greater height. */
  ghost predicate CastUpTo(c: Config, n: Network, e: nat, h: nat) {
    && (forall x <- n.lastVoted :: n.lastVoted[x] <= e)
    && (forall v <- n.cast :: HeightOf(c, v.blockHash) <= h)
  }

  /** All voters are in the same state, the two observers in the starting state. */
  ghost predicate Stage(c: Config, n: Network, g: Group, s: State, e: nat, h: nat) {
    && Reached(c, n) && CastUpTo(c, n, e, h) && GroupOk(c, g)
    && (forall x <- g.voters :: x in n.nodes && n.nodes[x] == s)
    && Idle(c, n, g.first) && Idle(c, n, g.second)
  }

  ghost predicate Idle(c: Config, n: Network, u: NodeId) {
    u in n.nodes && n.nodes[u] == Start(c)
  }

  lemma StageMove(c: Config, n: Network, g: Group, s: State, e: nat, h: nat,
                  pool: set<Vote>, f: State -> State) returns (m: Network)
    requires Stage(c, n, g, s, e, h) && Possible(c, pool, f) && pool <= n.cast
    ensures Stage(c, m, g, f(s), e, h) && m.cast == n.cast
  {
    ReachMoved(c, n, g.voters, pool, f);
    m := Moved(n, g.voters, f);
  }

  lemma StageAnnounce(c: Config, n: Network, g: Group, s: State, e: nat, h: nat, k: Hash) returns (m: Network)
    requires Stage(c, n, g, s, e, h)
    ensures Stage(c, m, g, Announced(c, s, k), e, h) && m.cast == n.cast
  {
    var f := (t: State) => Announced(c, t, k);
    AnnouncingIsPossible(c, k, f);
    m := StageMove(c, n, g, s, e, h, {}, f);
  }

  lemma StageFeed(c: Config, n: Network, g: Group, s: State, e: nat, h: nat, votes: seq<Vote>) returns (m: Network)
    requires Stage(c, n, g, s, e, h) && Elements(votes) <= n.cast
    ensures Stage(c, m, g, Fed(s, votes), e, h) && m.cast == n.cast
  {
    var f := (t: State) => Fed(t, votes);
    FeedingIsPossible(c, votes, f);
    m := StageMove(c, n, g, s, e, h, Elements(votes), f);
  }

  /** No guard on honest votes stands against this block, after votes up to some height. */
  predicate MaySign(c: Config, s: State, h: nat, k: Hash) {
    (c.onePerHeight ==> h < HeightOf(c, k)) && (c.extending ==> ExtendsNotarized(c, s, k))
  }

  lemma StageCast(c: Config, n: Network, g: Group, s: State, e: nat, h: nat, k: Hash, e': nat) returns (m: Network)
    requires Stage(c, n, g, s, e, h) && (c.monotone ==> e <= e') && MaySign(c, s, h, k)
    requires ShouldVote(s, k, e') && s.proposed[k].header == c.headerOf(k)
    ensures Stage(c, m, g, RecordVote(s, e', k), Max(e, e'), Max(h, HeightOf(c, k)))
    ensures n.cast <= m.cast && Elements(Ballots(c, g.voters, k, e')) <= m.cast
  {
    var f := (t: State) => RecordVote(t, e', k);
    m := ReachCast(c, n, g.voters, k, e', f);
  }

  lemma VotersLearn(c: Config, n: Network, g: Group, s: State, v: View, k: Hash)
    returns (m: Network, t: State)
    requires Stage(c, n, g, s, 0, c.base) && Ready(c, s, v) && k !in v.known
    ensures Stage(c, m, g, t, 0, c.base) && Ready(c, t, v.(known := v.known + {k}, unheard := v.unheard + {k}))
  {
    m := StageAnnounce(c, n, g, s, 0, c.base, k);
    AnnouncedReady(c, s, v, k);
    t := Announced(c, s, k);
  }

  lemma {:induction false} VotersLearnAll(c: Config, n: Network, g: Group, blocks: seq<Hash>)
    returns (m: Network, s: State)
    requires Stage(c, n, g, Start(c), 0, c.base) && Distinct(blocks)
    ensures Stage(c, m, g, s, 0, c.base) && Ready(c, s, Told(c, Elements(blocks)))
    decreases |blocks|
  {
    if blocks == [] {
      m, s := n, Start(c);
    } else {
      var k := |blocks| - 1;
      m, s := VotersLearnAll(c, n, g, blocks[..k]);
      DistinctPrefix(blocks);
      ElementsPrefix(blocks);
      m, s := VotersLearn(c, m, g, s, Told(c, Elements(blocks[..k])), blocks[k]);
    }
  }

  /** A stage at which the voters have this view. */
  ghost predicate Voting(c: Config, n: Network, g: Group, s: State, v: View, e: nat, h: nat) {
    Stage(c, n, g, s, e, h) && Ready(c, s, v)
  }

  /** The voters sign a block of the next height. */
  lemma VotersSignNext(c: Config, n: Network, g: Group, s: State, v: View, e: nat, h: nat, k: Hash, e': nat)
    returns (m: Network, t: State)
    requires Voting(c, n, g, s, v, e, h) && k in v.known && HeightOf(c, k) == v.tip + 1 >= h
    requires e <= e' && v.voted < e' && MaySign(c, s, h, k)
    ensures Voting(c, m, g, t, v.(voted := e'), e', v.tip + 1)
    ensures t.proposed == s.proposed && e' in t.votedEpochs
    ensures n.cast <= m.cast && Elements(Ballots(c, g.voters, k, e')) <= m.cast
  {
    m := StageCast(c, n, g, s, e, h, k, e');
    t := RecordVote(s, e', k);
  }

  /** What one state holds as notarized the other one does. */
  ghost predicate KeepsNotarized(s: State, t: State) {
    forall x, h: nat :: StoredNotarized(s, x, h) ==> StoredNotarized(t, x, h)
  }

  /** The voters sign the block of the next height and hear the quorum of their own votes. */
  lemma VotersNotarize(c: Config, n: Network, g: Group, s: State, v: View, k: Hash, e: nat)
    returns (m: Network, t: State)
    requires Voting(c, n, g, s, v, v.voted, v.tip) && MaySign(c, s, v.tip, k)
    requires k in v.unheard && HeightOf(c, k) == v.tip + 1 <= c.base + 2 && v.heard < e && v.voted < e
    ensures Voting(c, m, g, t, v.(unheard := v.unheard - {k}, tip := v.tip + 1, heard := e, voted := e), e, v.tip + 1)
    ensures StoredNotarized(t, k, v.tip + 1)
    ensures KeepsNotarized(s, t)
    ensures n.cast <= m.cast && Elements(Ballots(c, g.voters, k, e)) <= m.cast
  {
    var m1, t1 := VotersSignNext(c, n, g, s, v, v.voted, v.tip, k, e);
    m, t := VotersHear(c, m1, g, t1, v.(voted := e), k, e);
  }

  lemma VotersHear(c: Config, n: Network, g: Group, s: State, v: View, k: Hash, e: nat) returns (m: Network, t: State)
    requires Voting(c, n, g, s, v, e, v.tip + 1) && Elements(Ballots(c, g.voters, k, e)) <= n.cast
    requires k in v.unheard && HeightOf(c, k) == v.tip + 1 <= c.base + 2 && v.heard < e
    ensures m.cast == n.cast
    ensures Voting(c, m, g, t, v.(unheard := v.unheard - {k}, tip := v.tip + 1, heard := e), e, v.tip + 1)
    ensures StoredNotarized(t, k, v.tip + 1)
    ensures KeepsNotarized(s, t)
  {
    var votes := Ballots(c, g.voters, k, e);
    BallotsAreQuorum(c, g.voters, k, e);
    m := StageFeed(c, n, g, s, e, v.tip + 1, votes);
    FedReady(c, s, v, k, e, votes);
    t := Fed(s, votes);
  }

  /** The voters learn some blocks, sign the only one of the first height and hear its quorum. */
  lemma VotersOpen(c: Config, n: Network, g: Group, blocks: seq<Hash>, a: Hash) returns (m: Network, s: State)
    requires Stage(c, n, g, Start(c), 0, c.base) && Distinct(blocks) && a in Elements(blocks)
    requires HeightOf(c, a) == c.base + 1 && (c.extending ==> ParentOf(c, a) == c.baseHash)
    ensures Stage(c, m, g, s, 1, c.base + 1)
    ensures Ready(c, s, View(Elements(blocks), Elements(blocks) - {a}, c.base + 1, 1, 1))
    ensures StoredNotarized(s, a, c.base + 1) && Elements(Ballots(c, g.voters, a, 1)) <= m.cast
  {
    var n1, s1 := VotersLearnAll(c, n, g, blocks);
    m, s := VotersNotarize(c, n1, g, s1, Told(c, Elements(blocks)), a, 1);
  }

  // -------------------------------------------------------------- an observer

  ghost predicate At(c: Config, n: Network, u: NodeId, v: View) {
    Reached(c, n) && u in n.nodes && Ready(c, n.nodes[u], v)
  }

  /** Nothing but one node has changed. */
  ghost predicate SameBut(n: Network, m: Network, u: NodeId) {
    m.cast == n.cast && m.nodes.Keys == n.nodes.Keys && forall x <- n.nodes :: x != u ==> m.nodes[x] == n.nodes[x]
  }

  lemma ObserverLearns(c: Config, n: Network, u: NodeId, v: View, k: Hash) returns (m: Network)
    requires At(c, n, u, v) && k !in v.known
    ensures At(c, m, u, v.(known := v.known + {k}, unheard := v.unheard + {k})) && SameBut(n, m, u)
  {
    ReachAnnounced(c, n, u, k);
    AnnouncedReady(c, n.nodes[u], v, k);
    m := With(n, u, Announced(c, n.nodes[u], k));
  }

  lemma {:induction false} ObserverLearnsAll(c: Config, n: Network, u: NodeId, blocks: seq<Hash>) returns (m: Network)
    requires Reached(c, n) && u in n.nodes && n.nodes[u] == Start(c) && Distinct(blocks)
    ensures At(c, m, u, Told(c, Elements(blocks))) && SameBut(n, m, u)
    decreases |blocks|
  {
    if blocks == [] {
      m := n;
    } else {
      var k := |blocks| - 1;
      m := ObserverLearnsAll(c, n, u, blocks[..k]);
      DistinctPrefix(blocks);
      ElementsPrefix(blocks);
      m := ObserverLearns(c, m, u, Told(c, Elements(blocks[..k])), blocks[k]);
    }
  }

  lemma ObserverHears(c: Config, n: Network, u: NodeId, v: View, k: Hash, e: nat, votes: seq<Vote>) returns (m: Network)
    requires At(c, n, u, v) && k in v.unheard && HeightOf(c, k) == v.tip + 1 <= c.base + 2
    requires v.heard < e && Quorum(c, votes, k, e) && Elements(votes) <= n.cast
    ensures At(c, m, u, v.(unheard := v.unheard - {k}, tip := v.tip + 1, heard := e)) && SameBut(n, m, u)
    ensures StoredNotarized(m.nodes[u], k, v.tip + 1)
    ensures forall x, h: nat :: StoredNotarized(n.nodes[u], x, h) ==> StoredNotarized(m.nodes[u], x, h)
  {
    assert forall x <- votes :: x in Elements(votes);
    ReachFed(c, n, u, votes);
    FedReady(c, n.nodes[u], v, k, e, votes);
    m := With(n, u, Fed(n.nodes[u], votes));
  }

  /** An idle observer that is told of three blocks and hears their quorums finalizes the middle one. */
  lemma ObserverFinalizes(c: Config, n: Network, u: NodeId, a: Hash, m: Hash, d: Hash,
                          A: seq<Vote>, M: seq<Vote>, D: seq<Vote>, e: nat) returns (n': Network)
    requires Reached(c, n) && u in n.nodes && n.nodes[u] == Start(c) && Ladder(c, a, m, d) && 1 < e < 4
    requires Quorum(c, A, a, 1) && Quorum(c, M, m, e) && Quorum(c, D, d, 4)
    requires Elements(A) <= n.cast && Elements(M) <= n.cast && Elements(D) <= n.cast
    ensures Reached(c, n') && SameBut(n, n', u)
    ensures n'.nodes[u].finalizedHeight == c.base + 2 && n'.nodes[u].finalizedHash == m
  {
    var n1 := ObserverLearnsAll(c, n, u, [a, m, d]);
    ThreeBlocks(a, m, d);
    var all := {a, m, d};
    var n2 := ObserverHears(c, n1, u, Told(c, all), a, 1, A);
    n' := ObserverHearsRest(c, n2, u, View(all, all - {a}, c.base + 1, 1, 0), a, m, d, M, D, e);
  }

  lemma ObserverHearsRest(c: Config, n: Network, u: NodeId, v: View, a: Hash, m: Hash, d: Hash,
                          M: seq<Vote>, D: seq<Vote>, e: nat) returns (n': Network)
    requires At(c, n, u, v) && Ladder(c, a, m, d) && v.tip == c.base + 1 && v.heard < e < 4 && m in v.unheard
    requires d in v.unheard
    requires StoredNotarized(n.nodes[u], a, c.base + 1)
    requires forall k <- v.known :: HeightOf(c, k) == c.base + 2 ==> k == m
    requires Quorum(c, M, m, e) && Quorum(c, D, d, 4) && Elements(M) <= n.cast && Elements(D) <= n.cast
    ensures Reached(c, n') && SameBut(n, n', u)
    ensures n'.nodes[u].finalizedHeight == c.base + 2 && n'.nodes[u].finalizedHash == m
  {
    var n3 := ObserverHears(c, n, u, v, m, e, M);
    n' := ObserverCloses(c, n3, u, v.(unheard := v.unheard - {m}, tip := c.base + 2, heard := e), a, m, d, D);
  }

  lemma ObserverCloses(c: Config, n: Network, u: NodeId, v: View, a: Hash, m: Hash, d: Hash, D: seq<Vote>)
    returns (n': Network)
    requires At(c, n, u, v) && OneShort(c, n.nodes[u], v, a, m, d) && v.heard < 4
    requires Quorum(c, D, d, 4) && Elements(D) <= n.cast
    ensures Reached(c, n') && SameBut(n, n', u)
    ensures n'.nodes[u].finalizedHeight == c.base + 2 && n'.nodes[u].finalizedHash == m
  {
    assert forall x <- D :: x in Elements(D);
    ReachFed(c, n, u, D);
    ThirdQuorumFinalizes(c, n.nodes[u], v, a, m, d, D, 4);
    n' := With(n, u, Fed(n.nodes[u], D));
  }

  // ----------------------------------------------------------- who takes part

  lemma {:induction false} Above(ids: set<NodeId>) returns (u: NodeId)
    ensures forall x <- ids :: x < u
    decreases |ids|
  {
    u := 0;
    if ids != {} {
      var x :| x in ids;
      var rest := Above(ids - {x});
      u := if rest <= x then x + 1 else rest;
      forall y | y in ids ensures y < u {
        assert y == x || y in ids - {x};
      }
    }
  }

  /** Fewer than a third Byzantine leaves an honest quorum. */
  lemma HonestGroup(c: Config) returns (g: Group)
    requires Tolerable(c)
    ensures GroupOk(c, g)
  {
    assert |c.committee - c.byzantine| == |c.committee| - |c.byzantine|;
    var voters := Choose(c.committee - c.byzantine, Threshold(|c.committee|));
    var u := Above(Elements(voters));
    assert forall x <- voters :: x in Elements(voters);
    g := Group(voters, u, u + 1);
  }

  lemma StartStage(c: Config, g: Group) returns (n: Network)
    requires GroupOk(c, g)
    ensures Stage(c, n, g, Start(c), 0, c.base)
  {
    n := Network(map x | x in Elements(g.voters) + {g.first, g.second} :: Start(c), {}, map[]);
    assert HonestRun(c, [n], []);
  }
}
