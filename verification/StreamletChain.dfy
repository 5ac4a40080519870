/** When finalized blocks form one chain: with both guards on honest votes, whatever two nodes have
    finalized at any two moments lies on one chain of parent links. */
module StreamletChain {
  import opened Identifiers
  import opened Streamlet
  import opened StreamletNetwork

  /** The block reached from another by following k parent links. */
  function Ancestor(c: Config, hash: Hash, k: nat): Hash
    decreases k
  {
    if k == 0 then hash else Ancestor(c, ParentOf(c, hash), k - 1)
  }

  /** An honest vote in the pool was cast by an action of the run. */
  lemma {:induction false} CastByAction(c: Config, states: seq<Network>, actions: seq<Action>, i: nat, v: Vote)
    returns (k: nat)
    requires IsRun(c, states, actions) && i < |states| && v in states[i].cast && Honest(c, v.validator)
    ensures k < i && actions[k] == CastVote(v.validator, v.blockHash, v.epoch)
  {
    assert i > 0;
    assert states[i] == Apply(c, states[i - 1], actions[i - 1]) && Enabled(c, states[i - 1], actions[i - 1]);
    if v in states[i - 1].cast {
      k := CastByAction(c, states, actions, i - 1, v);
    } else {
      k := i - 1;
    }
  }

  /** Every notarized block has an honest voter. */
  lemma HonestVoter(c: Config, states: seq<Network>, actions: seq<Action>, p: nat, i: NodeId, b: Hash) returns (k: nat)
    requires Tolerable(c) && IsRun(c, states, actions) && p < |states|
    requires i in states[p].nodes && b in states[p].nodes[i].proposed && states[p].nodes[i].proposed[b].notarized
    ensures k < |actions| && actions[k].CastVote? && actions[k].hash == b
  {
    var votes := states[p].nodes[i].proposed[b].votes;
    NotarizedQuorum(c, states, actions, p, i, b);
    var x := QuorumsShareHonest(c, Voters(votes), Voters(votes));
    var l :| 0 <= l < |votes| && votes[l].validator == x;
    HeldVoteWasCast(c, states, actions, p, i, b, l);
    k := CastByAction(c, states, actions, |states| - 1, votes[l]);
  }

  /** Some node holds this block as notarized at this height at some moment. */
  ghost predicate Notarized(states: seq<Network>, b: Hash, height: nat) {
    exists p, i :: 0 <= p < |states| && i in states[p].nodes && StoredNotarized(states[p].nodes[i], b, height)
  }

  /** A notarized block extends the starting block, or a notarized block one height below. */
  lemma ParentIsNotarized(c: Config, states: seq<Network>, actions: seq<Action>, b: Hash, height: nat)
    requires Tolerable(c) && c.extending && IsRun(c, states, actions) && Notarized(states, b, height)
    ensures height > c.base
    ensures height == c.base + 1 ==> ParentOf(c, b) == c.baseHash
    ensures height > c.base + 1 ==> Notarized(states, ParentOf(c, b), height - 1)
  {
    var p, i :| 0 <= p < |states| && i in states[p].nodes && StoredNotarized(states[p].nodes[i], b, height);
    RunKeepsRooted(c, states, actions, p, i);
    var k := HonestVoter(c, states, actions, p, i, b);
    var x := actions[k].voter;
    assert Enabled(c, states[k], actions[k]);
    RunKeepsRooted(c, states, actions, k, x);
  }

  /** Under both guards a notarized block has every notarized block below it as its ancestor, and the
      starting block at the end. */
  lemma {:induction false} AncestorsAgree(c: Config, states: seq<Network>, actions: seq<Action>,
                                          b: Hash, h: nat, a: Hash, g: nat)
    requires Tolerable(c) && c.onePerHeight && c.extending && IsRun(c, states, actions)
    requires Notarized(states, b, h) && g <= h
    requires (g == c.base && a == c.baseHash) || Notarized(states, a, g)
    ensures Ancestor(c, b, h - g) == a
    decreases h - g
  {
    ParentIsNotarized(c, states, actions, b, h);
    if h == g {
      SameHeightSameBlock(c, states, actions, b, a, h);
    } else if h > c.base + 1 {
      if g == c.base && a == c.baseHash {
      } else {
        ParentIsNotarized(c, states, actions, a, g);
      }
      AncestorsAgree(c, states, actions, ParentOf(c, b), h - 1, a, g);
    } else {
      if Notarized(states, a, g) {
        ParentIsNotarized(c, states, actions, a, g);
      }
      assert Ancestor(c, b, 1) == Ancestor(c, ParentOf(c, b), 0);
    }
  }

  lemma SameHeightSameBlock(c: Config, states: seq<Network>, actions: seq<Action>, a: Hash, b: Hash, h: nat)
    requires Tolerable(c) && c.onePerHeight && IsRun(c, states, actions)
    requires Notarized(states, a, h) && Notarized(states, b, h)
    ensures a == b
  {
    var p, i :| 0 <= p < |states| && i in states[p].nodes && StoredNotarized(states[p].nodes[i], a, h);
    var q, j :| 0 <= q < |states| && j in states[q].nodes && StoredNotarized(states[q].nodes[j], b, h);
    HeightAgreement(c, states, actions, p, i, a, q, j, b, h);
  }

  /** What a node has finalized is the starting block or a notarized block. */
  lemma FinalizedIsNotarized(c: Config, states: seq<Network>, actions: seq<Action>, p: nat, i: NodeId)
    requires Tolerable(c) && IsRun(c, states, actions) && p < |states| && i in states[p].nodes
    ensures var s := states[p].nodes[i];
            || (s.finalizedHeight == c.base && s.finalizedHash == c.baseHash)
            || Notarized(states, s.finalizedHash, s.finalizedHeight)
  {
    RunKeepsNetInv(c, states, actions, p);
    RunKeepsRooted(c, states, actions, p, i);
    var s := states[p].nodes[i];
    assert s.finalizedHeight > c.base ==> StoredNotarized(s, s.finalizedHash, s.finalizedHeight);
  }

  /** The lower of two finalized blocks is the ancestor of the higher one. */
  ghost predicate OnOneChain(c: Config, s: State, t: State) {
    s.finalizedHeight <= t.finalizedHeight ==>
      Ancestor(c, t.finalizedHash, t.finalizedHeight - s.finalizedHeight) == s.finalizedHash
  }

  /** No conflicting chains: if honest validators vote for no second block of a height and only for
      blocks that extend a notarized one, then in every run any two nodes, at any two moments, have
      finalized blocks of one chain. */
  lemma ChainAgreement(c: Config, states: seq<Network>, actions: seq<Action>, p: nat, i: NodeId, q: nat, j: NodeId)
    requires Tolerable(c) && c.onePerHeight && c.extending && IsRun(c, states, actions)
    requires p < |states| && i in states[p].nodes && q < |states| && j in states[q].nodes
    ensures OnOneChain(c, states[p].nodes[i], states[q].nodes[j])
  {
    var s, t := states[p].nodes[i], states[q].nodes[j];
    FinalizedIsNotarized(c, states, actions, p, i);
    FinalizedIsNotarized(c, states, actions, q, j);
    RunKeepsRooted(c, states, actions, p, i);
    if s.finalizedHeight <= t.finalizedHeight {
      if Notarized(states, t.finalizedHash, t.finalizedHeight) {
        AncestorsAgree(c, states, actions, t.finalizedHash, t.finalizedHeight, s.finalizedHash, s.finalizedHeight);
      } else if Notarized(states, s.finalizedHash, s.finalizedHeight) {
        ParentIsNotarized(c, states, actions, s.finalizedHash, s.finalizedHeight);
      }
    }
  }
}
