/** A network of Streamlet nodes with an asynchronous, lossy, reordering message pool.
    Honest validators follow `ShouldVote` and record what they vote for; Byzantine ones
    may sign anything. Votes are unforgeable and come from committee members. */
module StreamletNetwork {
  import opened Identifiers
  import opened Streamlet
  import opened Counting

  /** `headerOf` is the header a block hash commits to: no two headers share a hash. The flags say which
      guards honest validators put on their votes beyond the voting rule: epochs that never go back,
      no second block of a height, and only blocks that extend a notarized one. */
  datatype Config = Config(
    committee: set<NodeId>, byzantine: set<NodeId>, base: nat, baseHash: Hash, headerOf: Hash -> Header,
    monotone: bool, onePerHeight: bool, extending: bool)

  function HeightOf(c: Config, hash: Hash): nat { c.headerOf(hash).height }

  function ParentOf(c: Config, hash: Hash): Hash { c.headerOf(hash).parent }

  /** Fewer than a third of the committee is Byzantine. */
  ghost predicate Tolerable(c: Config) {
    c.byzantine <= c.committee && 3 * |c.byzantine| < |c.committee|
  }

  /** `cast` holds every vote ever signed; `lastVoted` the epoch of each honest validator's last vote. */
  datatype Network = Network(nodes: map<NodeId, State>, cast: set<Vote>, lastVoted: map<NodeId, nat>)

  datatype Action =
    | Announce(at: NodeId, hash: Hash, epoch: nat)
    | CastVote(voter: NodeId, hash: Hash, epoch: nat)
    | Forge(vote: Vote)
    | Deliver(at: NodeId, vote: Vote)

  ghost predicate EpochNotBehind(n: Network, voter: NodeId, epoch: nat) {
    voter in n.lastVoted ==> n.lastVoted[voter] <= epoch
  }

  /** The validator has signed no other block of this height. */
  ghost predicate OnlyOfHeight(c: Config, n: Network, voter: NodeId, hash: Hash) {
    forall v <- n.cast :: v.validator == voter && HeightOf(c, v.blockHash) == HeightOf(c, hash) ==> v.blockHash == hash
  }

  /** The block extends the starting block, or a block one height below that the node holds as notarized. */
  predicate ExtendsNotarized(c: Config, s: State, hash: Hash) {
    if HeightOf(c, hash) == c.base + 1 then ParentOf(c, hash) == c.baseHash
    else HeightOf(c, hash) > 0 && StoredNotarized(s, ParentOf(c, hash), HeightOf(c, hash) - 1)
  }

  ghost predicate Enabled(c: Config, n: Network, a: Action) {
    match a
    case Announce(at, _, _) => at in n.nodes
    case CastVote(voter, hash, epoch) =>
      && voter in c.committee - c.byzantine && voter in n.nodes
      && ShouldVote(n.nodes[voter], hash, epoch)
      && (c.monotone ==> EpochNotBehind(n, voter, epoch))
      && (c.onePerHeight ==> OnlyOfHeight(c, n, voter, hash))
      && (c.extending ==> ExtendsNotarized(c, n.nodes[voter], hash))
    case Forge(vote) => vote.validator in c.byzantine
    case Deliver(at, vote) => at in n.nodes && vote in n.cast
  }

  ghost function Apply(c: Config, n: Network, a: Action): Network
    requires Enabled(c, n, a)
  {
    match a
    case Announce(at, hash, epoch) =>
      n.(nodes := n.nodes[at := AddProposal(n.nodes[at], c.headerOf(hash), hash, epoch)])
    case CastVote(voter, hash, epoch) =>
      var vote := Vote(epoch, hash, n.nodes[voter].proposed[hash].header.height, voter);
      n.(nodes := n.nodes[voter := RecordVote(n.nodes[voter], epoch, hash)],
         cast := n.cast + {vote},
         lastVoted := n.lastVoted[voter := epoch])
    case Forge(vote) => n.(cast := n.cast + {vote})
    case Deliver(at, vote) => n.(nodes := n.nodes[at := AddVote(n.nodes[at], vote).0])
  }

  ghost predicate Initially(c: Config, n: Network) {
    && n.cast == {} && n.lastVoted == map[]
    && forall i <- n.nodes :: n.nodes[i] == Initial(|c.committee|, c.base, c.baseHash)
  }

  ghost predicate IsRun(c: Config, states: seq<Network>, actions: seq<Action>) {
    && |states| == |actions| + 1
    && Initially(c, states[0])
    && forall i :: 0 <= i < |actions| ==>
         Enabled(c, states[i], actions[i]) && states[i + 1] == Apply(c, states[i], actions[i])
  }

  // -------------------------------------------------------------- invariant

  ghost predicate Honest(c: Config, x: NodeId) { x in c.committee && x !in c.byzantine }

  ghost predicate NodesOk(c: Config, n: Network) {
    forall i <- n.nodes :: Inv(n.nodes[i], c.base) && n.nodes[i].committeeSize == |c.committee|
  }

  ghost predicate HoldsOnly(s: State, pool: set<Vote>) {
    forall k, j :: k in s.proposed && 0 <= j < |s.proposed[k].votes| ==> s.proposed[k].votes[j] in pool
  }

  ghost predicate VotesWereCast(n: Network) {
    forall i <- n.nodes :: HoldsOnly(n.nodes[i], n.cast)
  }

  ghost predicate CastByMembers(c: Config, n: Network) {
    forall v <- n.cast :: v.validator in c.committee
  }

  predicate SameSlot(v: Vote, w: Vote) { v.validator == w.validator && v.epoch == w.epoch }

  /** An honest validator signs at most one block per epoch. */
  ghost predicate HonestVoteOnce(c: Config, n: Network) {
    forall v, w :: v in n.cast && w in n.cast && SameSlot(v, w) && Honest(c, v.validator) ==> v.blockHash == w.blockHash
  }

  /** The last epoch an honest validator voted in is an upper bound of its votes, and its node
      still remembers it, whatever else was pruned. */
  ghost predicate LastVoteRemembered(c: Config, n: Network) {
    && (forall v <- n.cast :: Honest(c, v.validator) ==>
          v.validator in n.lastVoted && v.epoch <= n.lastVoted[v.validator])
    && (forall x <- n.lastVoted :: x in n.nodes && NewestVoted(n.nodes[x], n.lastVoted[x]))
    && (forall x <- n.nodes :: x !in n.lastVoted ==> n.nodes[x].votedEpochs == map[])
  }

  ghost predicate NewestVoted(s: State, epoch: nat) {
    epoch in s.votedEpochs && forall e <- s.votedEpochs :: e <= epoch
  }

  ghost predicate NetInv(c: Config, n: Network) {
    && NodesOk(c, n) && VotesWereCast(n) && CastByMembers(c, n)
    && (c.monotone ==> HonestVoteOnce(c, n) && LastVoteRemembered(c, n))
  }

  // ---------------------------------------------------- steps of one node

  lemma CountedHoldsOnly(s: State, v: Vote, pool: set<Vote>)
    requires HoldsOnly(s, pool) && v in pool
    ensures HoldsOnly(Counted(s, v), pool)
  {
    var t := Counted(s, v);
    forall k, j | k in t.proposed && 0 <= j < |t.proposed[k].votes|
      ensures t.proposed[k].votes[j] in pool
    {
      if j < |s.proposed[k].votes| {
        assert t.proposed[k].votes[j] == s.proposed[k].votes[j];
      } else {
        assert t.proposed[k].votes[j] == v;
      }
    }
  }

  lemma AddVoteHoldsOnly(s: State, v: Vote, pool: set<Vote>)
    requires HoldsOnly(s, pool) && v in pool
    ensures HoldsOnly(AddVote(s, v).0, pool)
  {
    CountedHoldsOnly(s, v, pool);
    var t := Counted(s, v);
    assert forall k <- CheckFinality(t).0.proposed ::
      k in t.proposed && CheckFinality(t).0.proposed[k] == t.proposed[k];
  }

  /** Pruning never forgets the newest epoch a node has voted in. */
  lemma AddVoteKeepsNewest(s: State, v: Vote, epoch: nat)
    requires NewestVoted(s, epoch)
    ensures NewestVoted(AddVote(s, v).0, epoch)
  {
    assert RecentVoted(s.votedEpochs, epoch);
    assert Counted(s, v).votedEpochs == s.votedEpochs;
  }

  lemma AddVoteForgetsOnly(s: State, v: Vote)
    ensures AddVote(s, v).0.votedEpochs.Keys <= s.votedEpochs.Keys
  {
    assert Counted(s, v).votedEpochs == s.votedEpochs;
  }

  lemma AddVoteKeepsSize(s: State, v: Vote)
    ensures AddVote(s, v).0.committeeSize == s.committeeSize
  {
  }

  // ------------------------------------------------- steps of the network

  lemma ApplyKeepsNodes(c: Config, n: Network, a: Action)
    requires Enabled(c, n, a) && NodesOk(c, n)
    ensures NodesOk(c, Apply(c, n, a))
  {
    match a
    case Announce(at, hash, epoch) => AddProposalKeepsInv(n.nodes[at], c.headerOf(hash), hash, epoch, c.base);
    case CastVote(voter, hash, epoch) => StepKeepsInv(n.nodes[voter], Record(epoch, hash), c.base);
    case Forge(_) =>
    case Deliver(at, vote) =>
      AddVoteKeepsInv(n.nodes[at], vote, c.base);
      AddVoteKeepsSize(n.nodes[at], vote);
  }

  lemma ApplyKeepsVotes(c: Config, n: Network, a: Action)
    requires Enabled(c, n, a) && VotesWereCast(n)
    ensures VotesWereCast(Apply(c, n, a))
  {
    var m := Apply(c, n, a);
    forall i | i in m.nodes
      ensures HoldsOnly(m.nodes[i], m.cast)
    {
      if a.Deliver? && i == a.at {
        AddVoteHoldsOnly(n.nodes[i], a.vote, n.cast);
      } else {
        assert HoldsOnly(n.nodes[i], n.cast);
      }
    }
  }

  /** The voting rule refuses an epoch already voted in; the newest one is never pruned and older
      ones are behind the clock, so a vote is always for a new epoch. */
  lemma ApplyKeepsHonesty(c: Config, n: Network, a: Action)
    requires Enabled(c, n, a) && c.monotone && HonestVoteOnce(c, n) && LastVoteRemembered(c, n)
    ensures HonestVoteOnce(c, Apply(c, n, a))
  {
    if a.CastVote? {
      assert forall v <- n.cast :: v.validator == a.voter ==> v.epoch < a.epoch;
    }
  }

  lemma ApplyKeepsLastVotes(c: Config, n: Network, a: Action)
    requires Enabled(c, n, a) && c.monotone && LastVoteRemembered(c, n)
    ensures LastVoteRemembered(c, Apply(c, n, a))
  {
    var m := Apply(c, n, a);
    match a
    case Announce(_, _, _) =>
    case CastVote(voter, hash, epoch) =>
      assert NewestVoted(m.nodes[voter], epoch);
    case Forge(_) =>
    case Deliver(at, vote) =>
      if at in n.lastVoted {
        AddVoteKeepsNewest(n.nodes[at], vote, n.lastVoted[at]);
      } else {
        AddVoteForgetsOnly(n.nodes[at], vote);
      }
  }

  /** Every run keeps the invariant. */
  lemma {:induction false} RunKeepsNetInv(c: Config, states: seq<Network>, actions: seq<Action>, i: nat)
    requires IsRun(c, states, actions) && c.byzantine <= c.committee && i < |states|
    ensures NetInv(c, states[i])
  {
    if i == 0 {
      forall x | x in states[0].nodes ensures Inv(states[0].nodes[x], c.base) {
        RunKeepsInv(|c.committee|, c.base, c.baseHash, []);
      }
    } else {
      RunKeepsNetInv(c, states, actions, i - 1);
      var n, a := states[i - 1], actions[i - 1];
      ApplyKeepsNodes(c, n, a);
      ApplyKeepsVotes(c, n, a);
      if c.monotone {
        ApplyKeepsHonesty(c, n, a);
        ApplyKeepsLastVotes(c, n, a);
      }
    }
  }

  /** No signed vote is ever lost from the pool. */
  lemma {:induction false} PoolGrows(c: Config, states: seq<Network>, actions: seq<Action>, i: nat, j: nat)
    requires IsRun(c, states, actions) && i <= j < |states|
    ensures states[i].cast <= states[j].cast
    decreases j - i
  {
    if i < j {
      PoolGrows(c, states, actions, i, j - 1);
    }
  }

  // ------------------------------------------------------------------ safety

  /** Two quorums of a committee that is less than a third Byzantine share an honest member. */
  lemma QuorumsShareHonest(c: Config, a: set<NodeId>, b: set<NodeId>) returns (x: NodeId)
    requires Tolerable(c) && a <= c.committee && b <= c.committee
    requires 3 * |a| >= 2 * |c.committee| && 3 * |b| >= 2 * |c.committee|
    ensures x in a && x in b && Honest(c, x)
  {
    QuorumsOverlap(c.committee, a, b);
    x := HonestAmong(c, a * b);
  }

  /** A vote that some node holds for a block was signed by a committee member for that block. */
  lemma HeldVoteWasCast(c: Config, states: seq<Network>, actions: seq<Action>, p: nat, i: NodeId, a: Hash, k: nat)
    requires c.byzantine <= c.committee && IsRun(c, states, actions) && p < |states|
    requires i in states[p].nodes && a in states[p].nodes[i].proposed && k < |states[p].nodes[i].proposed[a].votes|
    ensures var v := states[p].nodes[i].proposed[a].votes[k];
            v in states[|states| - 1].cast && v.validator in c.committee && v.blockHash == a
  {
    RunKeepsNetInv(c, states, actions, p);
    PoolGrows(c, states, actions, p, |states| - 1);
    var s := states[p].nodes[i];
    assert HoldsOnly(s, states[p].cast) && BlockOk(s.proposed[a], s.committeeSize);
  }

  ghost predicate Signed(pool: set<Vote>, x: NodeId, a: Hash, epoch: nat) {
    exists v :: v in pool && v.validator == x && v.blockHash == a && v.epoch == epoch
  }

  /** If epochs never go back, then in no run, at no two moments, do two nodes hold a notarizing set of
      votes of the same epoch for different blocks, although nodes forget old votes. */
  lemma NetworkSafety(c: Config, states: seq<Network>, actions: seq<Action>,
                      p: nat, i: NodeId, a: Hash, q: nat, j: NodeId, b: Hash, epoch: nat)
    requires Tolerable(c) && c.monotone && IsRun(c, states, actions) && p < |states| && q < |states|
    requires i in states[p].nodes && NotarizedIn(states[p].nodes[i], a, epoch)
    requires j in states[q].nodes && NotarizedIn(states[q].nodes[j], b, epoch)
    ensures a == b
  {
    var pool := states[|states| - 1].cast;
    RunKeepsNetInv(c, states, actions, |states| - 1);
    RunKeepsNetInv(c, states, actions, p);
    RunKeepsNetInv(c, states, actions, q);
    VotersSigned(c, states, actions, p, i, a, epoch);
    VotersSigned(c, states, actions, q, j, b, epoch);
    var x := QuorumsShareHonest(c, VotersIn(states[p].nodes[i].proposed[a].votes, epoch),
                                VotersIn(states[q].nodes[j].proposed[b].votes, epoch));
    assert Signed(pool, x, a, epoch) && Signed(pool, x, b, epoch);
    var v :| v in pool && v.validator == x && v.blockHash == a && v.epoch == epoch;
    var w :| w in pool && w.validator == x && w.blockHash == b && w.epoch == epoch;
    assert SameSlot(v, w);
  }

  lemma VotersSigned(c: Config, states: seq<Network>, actions: seq<Action>, p: nat, i: NodeId, a: Hash, epoch: nat)
    requires c.byzantine <= c.committee && IsRun(c, states, actions) && p < |states|
    requires i in states[p].nodes && a in states[p].nodes[i].proposed
    ensures forall x <- VotersIn(states[p].nodes[i].proposed[a].votes, epoch) ::
              x in c.committee && Signed(states[|states| - 1].cast, x, a, epoch)
  {
    var votes := states[p].nodes[i].proposed[a].votes;
    forall x | x in VotersIn(votes, epoch)
      ensures x in c.committee && Signed(states[|states| - 1].cast, x, a, epoch)
    {
      var k :| 0 <= k < |votes| && votes[k].epoch == epoch && votes[k].validator == x;
      HeldVoteWasCast(c, states, actions, p, i, a, k);
    }
  }

  /** All validators that voted for a block, in any epoch. */
  function Voters(votes: seq<Vote>): set<NodeId> {
    set i | 0 <= i < |votes| :: votes[i].validator
  }

  lemma VotersAreDistinct(votes: seq<Vote>)
    requires OneVoteEach(votes)
    ensures |Voters(votes)| == |votes|
  {
    var ids := seq(|votes|, i requires 0 <= i < |votes| => votes[i].validator);
    ElementsCount(ids);
    assert forall i :: 0 <= i < |votes| ==> ids[i] == votes[i].validator;
    assert Voters(votes) == Elements(ids);
  }

  /** Whenever two nodes have notarized two different blocks, at whatever heights and moments, at least
      a third of the committee has signed both blocks. */
  lemma ConflictNeedsThird(c: Config, states: seq<Network>, actions: seq<Action>,
                           p: nat, i: NodeId, a: Hash, q: nat, j: NodeId, b: Hash) returns (both: set<NodeId>)
    requires c.byzantine <= c.committee && IsRun(c, states, actions) && p < |states| && q < |states| && a != b
    requires i in states[p].nodes && a in states[p].nodes[i].proposed && states[p].nodes[i].proposed[a].notarized
    requires j in states[q].nodes && b in states[q].nodes[j].proposed && states[q].nodes[j].proposed[b].notarized
    ensures both <= c.committee && 3 * |both| >= |c.committee|
    ensures forall x <- both :: SignedBoth(states[|states| - 1].cast, x, a, b)
  {
    var A, B := states[p].nodes[i].proposed[a].votes, states[q].nodes[j].proposed[b].votes;
    NotarizedQuorum(c, states, actions, p, i, a);
    NotarizedQuorum(c, states, actions, q, j, b);
    QuorumsOverlap(c.committee, Voters(A), Voters(B));
    both := Voters(A) * Voters(B);
    forall x | x in both ensures SignedBoth(states[|states| - 1].cast, x, a, b) {
      var k :| 0 <= k < |A| && A[k].validator == x;
      var l :| 0 <= l < |B| && B[l].validator == x;
      HeldVoteWasCast(c, states, actions, p, i, a, k);
      HeldVoteWasCast(c, states, actions, q, j, b, l);
    }
  }

  ghost predicate SignedBoth(pool: set<Vote>, x: NodeId, a: Hash, b: Hash) {
    exists v, w :: v in pool && w in pool && v.validator == w.validator == x && v.blockHash == a && w.blockHash == b
  }

  /** Below a third of Byzantine members, one of these is honest, and has signed the two blocks in two
      different epochs if its epochs never go back. */
  lemma ConflictNeedsHonestRevote(c: Config, states: seq<Network>, actions: seq<Action>,
                                  p: nat, i: NodeId, a: Hash, q: nat, j: NodeId, b: Hash)
    returns (v: Vote, w: Vote)
    requires Tolerable(c) && IsRun(c, states, actions) && p < |states| && q < |states| && a != b
    requires i in states[p].nodes && a in states[p].nodes[i].proposed && states[p].nodes[i].proposed[a].notarized
    requires j in states[q].nodes && b in states[q].nodes[j].proposed && states[q].nodes[j].proposed[b].notarized
    ensures v in states[|states| - 1].cast && v.blockHash == a
    ensures w in states[|states| - 1].cast && w.blockHash == b
    ensures v.validator == w.validator && Honest(c, v.validator) && (c.monotone ==> v.epoch != w.epoch)
  {
    var pool := states[|states| - 1].cast;
    RunKeepsNetInv(c, states, actions, |states| - 1);
    var both := ConflictNeedsThird(c, states, actions, p, i, a, q, j, b);
    var x := HonestAmong(c, both);
    assert SignedBoth(pool, x, a, b);
    v, w :| v in pool && w in pool && v.validator == w.validator == x && v.blockHash == a && w.blockHash == b;
    assert c.monotone && SameSlot(v, w) ==> v.blockHash == w.blockHash;
  }

  lemma HonestAmong(c: Config, both: set<NodeId>) returns (x: NodeId)
    requires Tolerable(c) && both <= c.committee && 3 * |both| >= |c.committee|
    ensures x in both && Honest(c, x)
  {
    if both <= c.byzantine {
      SubsetSize(both, c.byzantine);
      assert false;
    }
    x :| x in both && x !in c.byzantine;
  }

  lemma NotarizedQuorum(c: Config, states: seq<Network>, actions: seq<Action>, p: nat, i: NodeId, a: Hash)
    requires c.byzantine <= c.committee && IsRun(c, states, actions) && p < |states|
    requires i in states[p].nodes && a in states[p].nodes[i].proposed && states[p].nodes[i].proposed[a].notarized
    ensures var voters := Voters(states[p].nodes[i].proposed[a].votes);
            voters <= c.committee && 3 * |voters| >= 2 * |c.committee|
  {
    RunKeepsNetInv(c, states, actions, p);
    var s := states[p].nodes[i];
    assert BlockOk(s.proposed[a], s.committeeSize);
    VotersAreDistinct(s.proposed[a].votes);
    forall x | x in Voters(s.proposed[a].votes) ensures x in c.committee {
      var k :| 0 <= k < |s.proposed[a].votes| && s.proposed[a].votes[k].validator == x;
      HeldVoteWasCast(c, states, actions, p, i, a, k);
    }
  }

  // ------------------------------------------------------- one vote per height

  predicate SameHeight(c: Config, v: Vote, w: Vote) {
    v.validator == w.validator && HeightOf(c, v.blockHash) == HeightOf(c, w.blockHash)
  }

  ghost predicate OneVotePerHeight(c: Config, n: Network) {
    forall v, w :: v in n.cast && w in n.cast && SameHeight(c, v, w) && Honest(c, v.validator) ==>
      v.blockHash == w.blockHash
  }

  lemma {:induction false} OneVotePerHeightKept(c: Config, states: seq<Network>, actions: seq<Action>, i: nat)
    requires c.onePerHeight && IsRun(c, states, actions) && i < |states|
    ensures OneVotePerHeight(c, states[i])
  {
    if i > 0 {
      OneVotePerHeightKept(c, states, actions, i - 1);
      assert Enabled(c, states[i - 1], actions[i - 1]);
    }
  }

  /** Every stored block has the header its hash commits to, and a node that has finalized nothing
      yet still stands on the common starting block. */
  ghost predicate Rooted(c: Config, s: State) {
    && (forall k <- s.proposed :: s.proposed[k].header == c.headerOf(k))
    && s.finalizedHeight >= c.base
    && (s.finalizedHeight == c.base ==> s.finalizedHash == c.baseHash)
  }

  lemma CountedKeepsRooted(c: Config, s: State, v: Vote)
    requires Rooted(c, s)
    ensures Rooted(c, Counted(s, v))
  {
  }

  lemma FinalityKeepsRooted(c: Config, s: State)
    requires Rooted(c, s)
    ensures Rooted(c, CheckFinality(s).0)
  {
    FinalityCases(s);
  }

  lemma AddVoteKeepsRooted(c: Config, s: State, v: Vote)
    requires Rooted(c, s)
    ensures Rooted(c, AddVote(s, v).0)
  {
    CountedKeepsRooted(c, s, v);
    FinalityKeepsRooted(c, Counted(s, v));
  }

  lemma ApplyKeepsRooted(c: Config, n: Network, a: Action, x: NodeId)
    requires Enabled(c, n, a) && x in n.nodes && Rooted(c, n.nodes[x])
    ensures Rooted(c, Apply(c, n, a).nodes[x])
  {
    if a.Deliver? && a.at == x {
      AddVoteKeepsRooted(c, n.nodes[x], a.vote);
    }
  }

  lemma {:induction false} RunKeepsRooted(c: Config, states: seq<Network>, actions: seq<Action>, i: nat, x: NodeId)
    requires IsRun(c, states, actions) && i < |states| && x in states[i].nodes
    ensures Rooted(c, states[i].nodes[x])
  {
    if i > 0 {
      assert states[i] == Apply(c, states[i - 1], actions[i - 1]);
      RunKeepsRooted(c, states, actions, i - 1, x);
      ApplyKeepsRooted(c, states[i - 1], actions[i - 1], x);
    }
  }

  /** If honest validators vote for no second block of a height, notarized blocks of one height agree
      across all nodes and all moments. */
  lemma HeightAgreement(c: Config, states: seq<Network>, actions: seq<Action>,
                        p: nat, i: NodeId, a: Hash, q: nat, j: NodeId, b: Hash, height: nat)
    requires Tolerable(c) && c.onePerHeight && IsRun(c, states, actions) && p < |states| && q < |states|
    requires i in states[p].nodes && StoredNotarized(states[p].nodes[i], a, height)
    requires j in states[q].nodes && StoredNotarized(states[q].nodes[j], b, height)
    ensures a == b
  {
    RunKeepsRooted(c, states, actions, p, i);
    RunKeepsRooted(c, states, actions, q, j);
    OneVotePerHeightKept(c, states, actions, |states| - 1);
    if a != b {
      var v, w := ConflictNeedsHonestRevote(c, states, actions, p, i, a, q, j, b);
      assert SameHeight(c, v, w);
      assert false;
    }
  }

  /** Hence any two nodes that have finalized up to the same height, at any two moments, have
      finalized the same block. */
  lemma FinalityAgreement(c: Config, states: seq<Network>, actions: seq<Action>, p: nat, i: NodeId, q: nat, j: NodeId)
    requires Tolerable(c) && c.onePerHeight && IsRun(c, states, actions) && p < |states| && q < |states|
    requires i in states[p].nodes && j in states[q].nodes
    requires states[p].nodes[i].finalizedHeight == states[q].nodes[j].finalizedHeight
    ensures states[p].nodes[i].finalizedHash == states[q].nodes[j].finalizedHash
  {
    var s, t := states[p].nodes[i], states[q].nodes[j];
    RunKeepsNetInv(c, states, actions, p);
    RunKeepsNetInv(c, states, actions, q);
    if s.finalizedHeight == c.base {
      RunKeepsRooted(c, states, actions, p, i);
      RunKeepsRooted(c, states, actions, q, j);
    } else {
      HeightAgreement(c, states, actions, p, i, s.finalizedHash, q, j, t.finalizedHash, s.finalizedHeight);
    }
  }
}
