/** The mutable stores of gratia-governance/src/proposals.rs and voting.rs, refining `Governance`. */
module GovernanceNode {
  import opened Identifiers
  import G = Governance

  class ProposalStore {
    const idOf: G.IdOf
    var proposals: map<Hash, G.Proposal>
    var phases: map<Hash, G.Phase>
    var nonce: nat

    constructor (idOf: G.IdOf)
      ensures this.idOf == idOf && proposals == map[] && phases == map[] && nonce == 0
    {
      this.idOf := idOf;
      proposals, phases, nonce := map[], map[], 0;
    }

    /** The value of this store alone. */
    function Snapshot(): G.State
      reads this
    {
      With(map[], map[])
    }

    /** The combined value of this store and a voting manager's maps. */
    function With(voted: map<Hash, set<NodeId>>, records: map<Hash, seq<G.Ballot>>): G.State
      reads this
    {
      G.State(proposals, phases, nonce, voted, records)
    }

    method SubmitProposal(c: G.Config, proposer: NodeId, days: nat, eligible: nat, now: nat) returns (r: G.Reply)
      modifies this
      ensures (Snapshot(), r) == G.Submit(idOf, c, old(Snapshot()), proposer, days, eligible, now)
    {
      if days < c.minHistoryDays {
        return G.Refused;
      }
      var id := idOf(proposer, now, nonce);
      nonce := nonce + 1;
      var discussionEnds := now + c.discussionPeriod;
      var votingEnds := discussionEnds + c.votingPeriod;
      var implementationDate := votingEnds + c.implementationDelay;
      proposals := proposals[id := G.Proposal(id, proposer, now, discussionEnds, votingEnds, implementationDate,
                                               G.InDiscussion, 0, 0, 0, eligible)];
      phases := phases[id := G.Discussion];
      return G.Submitted(id);
    }

    method CancelProposal(id: Hash, requester: NodeId) returns (r: G.Reply)
      modifies this
      ensures (Snapshot(), r) == G.Cancel(old(Snapshot()), id, requester)
    {
      if id !in proposals || proposals[id].proposer != requester {
        return G.Refused;
      }
      var phase := if id in phases then phases[id] else G.Discussion;
      if phase != G.Discussion {
        return G.Refused;
      }
      phases := phases[id := G.Cancelled];
      proposals := proposals[id := proposals[id].(status := G.IsRejected)];
      return G.Done;
    }

    method AdvanceProposal(id: Hash, now: nat)
      modifies this
      ensures Snapshot() == G.AdvanceOne(old(Snapshot()), id, now)
    {
      if id !in phases || id !in proposals {
        return;
      }
      var p := proposals[id];
      match phases[id] {
        case Discussion =>
          if now >= p.discussionEnds {
            phases := phases[id := G.Voting];
            p := p.(status := G.InVoting);
          }
        case Voting =>
          if now >= p.votingEnds {
            if G.Passed(p) {
              phases := phases[id := G.Approved];
              p := p.(status := G.IsApproved);
            } else {
              phases := phases[id := G.Rejected];
              p := p.(status := G.IsRejected);
            }
          }
        case Approved =>
          if now >= p.implementationDate {
            phases := phases[id := G.Executed];
            p := p.(status := G.IsImplemented);
          }
        case _ =>
      }
      proposals := proposals[id := p];
    }

    /** Proposals are visited one by one, in no particular order; the result is the simultaneous step. */
    method AdvanceAll(now: nat)
      modifies this
      ensures Snapshot() == G.AdvanceAll(old(Snapshot()), now)
    {
      ghost var start := Snapshot();
      var ids := proposals.Keys;
      while ids != {}
        invariant PartWay(start, Snapshot(), ids, now)
        decreases |ids|
      {
        var id :| id in ids;
        OneCloser(start, Snapshot(), ids, id, now);
        AdvanceProposal(id, now);
        ids := ids - {id};
      }
    }
  }

  /** The proposals in `ids` are still as they were; the others have moved. */
  ghost predicate PartWay(start: G.State, s: G.State, ids: set<Hash>, now: nat) {
    var goal := G.AdvanceAll(start, now);
    && ids <= s.proposals.Keys == start.proposals.Keys && s.phases.Keys == start.phases.Keys
    && s.nonce == start.nonce && s.voted == start.voted && s.records == start.records
    && (forall x <- s.proposals :: s.proposals[x] == if x in ids then start.proposals[x] else goal.proposals[x])
    && (forall x <- s.phases :: s.phases[x] == if x in ids then start.phases[x] else goal.phases[x])
  }

  lemma OneCloser(start: G.State, s: G.State, ids: set<Hash>, id: Hash, now: nat)
    requires PartWay(start, s, ids, now) && id in ids
    ensures PartWay(start, G.AdvanceOne(s, id, now), ids - {id}, now)
  {
    var t, goal := G.AdvanceOne(s, id, now), G.AdvanceAll(start, now);
    assert t.proposals[id] == goal.proposals[id];
    assert id in s.phases ==> t.phases[id] == goal.phases[id];
  }

  class VotingManager {
    var voted: map<Hash, set<NodeId>>
    var records: map<Hash, seq<G.Ballot>>

    constructor ()
      ensures voted == map[] && records == map[]
    {
      voted, records := map[], map[];
    }

    method CastVote(store: ProposalStore, id: Hash, voter: NodeId, vote: G.Vote, validPol: bool, now: nat)
      returns (r: G.Reply)
      modifies this, store`proposals
      ensures (store.With(voted, records), r)
           == G.CastVote(old(store.With(voted, records)), id, voter, vote, validPol, now)
    {
      if !validPol {
        return G.Refused;
      }
      if id !in store.proposals {
        return G.Refused;
      }
      if store.proposals[id].status != G.InVoting {
        return G.Refused;
      }
      if id !in voted {
        voted := voted[id := {}];
      }
      if voter in voted[id] {
        return G.Refused;
      }
      voted := voted[id := voted[id] + {voter}];
      assert voted == old(voted)[id := G.VotersOf(old(store.With(voted, records)), id) + {voter}];
      var ballots := if id in records then records[id] else [];
      records := records[id := ballots + [G.Ballot(voter, vote, now)]];
      var p := store.proposals[id];
      match vote {
        case Yes => p := p.(yes := p.yes + 1);
        case No => p := p.(no := p.no + 1);
        case Abstain => p := p.(abstain := p.abstain + 1);
      }
      store.proposals := store.proposals[id := p];
      return G.Done;
    }
  }
}
