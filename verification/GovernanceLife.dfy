/** What each governance operation decides, and the whole life of a proposal from its submission to its
    execution or rejection. */
module GovernanceLife {
  import opened Identifiers
  import opened Governance
  import opened Counting

  // --------------------------------------------------------------- operations

  /** What users read of a phase. */
  lemma StatusMeans(phase: Phase)
    ensures ToStatus(phase) == InVoting <==> phase == Voting
    ensures ToStatus(phase) == IsApproved <==> phase == Approved
    ensures ToStatus(phase) == IsImplemented <==> phase == Executed
    ensures ToStatus(phase) == IsRejected <==> phase == Rejected || phase == Cancelled
    ensures ToStatus(phase) == InDiscussion <==> phase == Draft || phase == Discussion
  {
  }

  /** All other proposals, and all ballots, are as they were. */
  ghost predicate OnlyProposal(s: State, t: State, id: Hash) {
    && t.voted == s.voted && t.records == s.records
    && (forall x :: x != id ==> (x in t.proposals <==> x in s.proposals) && (x in t.phases <==> x in s.phases))
    && (forall x <- s.proposals :: x != id ==> t.proposals[x] == s.proposals[x])
    && (forall x <- s.phases :: x != id ==> t.phases[x] == s.phases[x])
  }

  /** A proposer with enough history, and no other, opens a discussion without votes, with the
      configured periods laid end to end. */
  lemma SubmitMeans(idOf: IdOf, c: Config, s: State, proposer: NodeId, days: nat, eligible: nat, at: nat)
    ensures var (t, r) := Submit(idOf, c, s, proposer, days, eligible, at);
            && (r.Submitted? <==> days >= c.minHistoryDays)
            && (!r.Submitted? ==> r.Refused? && t == s)
            && (r.Submitted? ==>
                  && r.id == idOf(proposer, at, s.nonce) && t.nonce == s.nonce + 1 && OnlyProposal(s, t, r.id)
                  && r.id in t.proposals && r.id in t.phases && t.phases[r.id] == Discussion
                  && Opened(c, t.proposals[r.id], r.id, proposer, eligible, at))
  {
  }

  predicate Opened(c: Config, p: Proposal, id: Hash, proposer: NodeId, eligible: nat, at: nat) {
    && p.id == id && p.proposer == proposer && p.eligible == eligible && p.submittedAt == at
    && p.status == InDiscussion && p.yes == p.no == p.abstain == 0
    && p.discussionEnds == at + c.discussionPeriod && p.votingEnds == p.discussionEnds + c.votingPeriod
    && p.implementationDate == p.votingEnds + c.implementationDelay
  }

  /** The proposer, and nobody else, may cancel, during discussion only. */
  lemma CancelMeans(s: State, id: Hash, requester: NodeId)
    requires id in s.proposals && id in s.phases
    ensures var (t, r) := Cancel(s, id, requester);
            && (r.Done? <==> s.proposals[id].proposer == requester && s.phases[id] == Discussion)
            && (!r.Done? ==> r.Refused? && t == s)
            && (r.Done? ==>
                  && OnlyProposal(s, t, id) && t.nonce == s.nonce
                  && id in t.proposals && id in t.phases && t.phases[id] == Cancelled
                  && t.proposals[id] == s.proposals[id].(status := IsRejected))
  {
  }

  /** Cancellation has no other source. */
  lemma OnlyCancelCancels(idOf: IdOf, c: Config, s: State, e: Event, id: Hash)
    requires StatusAgrees(s, id) && FreshId(idOf, s, e) && s.phases[id] != Cancelled
    ensures var t := Step(idOf, c, s, e);
            id in t.phases && (t.phases[id] == Cancelled <==>
                                 e == CancelProposal(id, s.proposals[id].proposer) && s.phases[id] == Discussion)
  {
    StepOnProposal(idOf, c, s, e, id);
  }

  /** A vote is taken exactly from a voter with proof of life who has not voted on the proposal, while
      its status is voting; it adds one to one tally, and the voter and the ballot to the records. */
  lemma CastMeans(s: State, id: Hash, voter: NodeId, vote: Vote, validPol: bool, now: nat)
    ensures var (t, r) := CastVote(s, id, voter, vote, validPol, now);
            && (r.Done? <==>
                  && validPol && id in s.proposals && s.proposals[id].status == InVoting
                  && !(id in s.voted && voter in s.voted[id]))
            && (!r.Done? ==> r.Refused? && t == s)
            && (r.Done? ==> Took(s, t, id, voter, vote, now))
  {
  }

  predicate Took(s: State, t: State, id: Hash, voter: NodeId, vote: Vote, now: nat)
    requires id in s.proposals
  {
    var p := s.proposals[id];
    && t.phases == s.phases && t.nonce == s.nonce
    && t.proposals == s.proposals[id := p.(yes := p.yes + (if vote == Yes then 1 else 0),
                                           no := p.no + (if vote == No then 1 else 0),
                                           abstain := p.abstain + (if vote == Abstain then 1 else 0))]
    && t.voted == s.voted[id := (if id in s.voted then s.voted[id] else {}) + {voter}]
    && t.records == s.records[id := (if id in s.records then s.records[id] else []) + [Ballot(voter, vote, now)]]
  }

  // ------------------------------------------------------------------- a life

  /** The state after some events. */
  function After(idOf: IdOf, c: Config, s: State, events: seq<Event>): State
    decreases |events|
  {
    if events == [] then s else After(idOf, c, Step(idOf, c, s, events[0]), events[1..])
  }

  lemma {:induction false} AfterConcat(idOf: IdOf, c: Config, s: State, a: seq<Event>, b: seq<Event>)
    ensures After(idOf, c, s, a + b) == After(idOf, c, After(idOf, c, s, a), b)
    decreases |a|
  {
    if a == [] {
      assert a + b == b;
    } else {
      AfterConcat(idOf, c, Step(idOf, c, s, a[0]), a[1..], b);
      assert (a + b)[1..] == a[1..] + b;
    }
  }

  lemma AfterTwo(idOf: IdOf, c: Config, s: State, a: Event, b: Event)
    ensures After(idOf, c, s, [a, b]) == Step(idOf, c, Step(idOf, c, s, a), b)
  {
    var t := Step(idOf, c, s, a);
    assert [a, b][1..] == [b] && [b][1..] == [];
    assert After(idOf, c, t, [b]) == After(idOf, c, Step(idOf, c, t, b), []);
  }

  /** Everyone on the list votes yes. */
  function YesVotes(id: Hash, voters: seq<NodeId>, at: nat): seq<Event> {
    seq(|voters|, i requires 0 <= i < |voters| => Cast(id, voters[i], Yes, true, at))
  }

  /** A proposal in voting with this many yes votes and nothing else, by these voters. */
  ghost predicate InVote(s: State, id: Hash, p: Proposal, voters: set<NodeId>) {
    && StatusAgrees(s, id) && s.phases[id] == Voting && VotersOf(s, id) == voters
    && s.proposals[id] == p.(status := InVoting, yes := |voters|)
  }

  lemma {:induction false} YesVotesCount(idOf: IdOf, c: Config, s: State, id: Hash, p: Proposal, before: set<NodeId>,
                                         voters: seq<NodeId>, at: nat)
    requires InVote(s, id, p, before) && Distinct(voters) && forall x <- voters :: x !in before
    ensures InVote(After(idOf, c, s, YesVotes(id, voters, at)), id, p, before + Elements(voters))
    decreases |voters|
  {
    if voters == [] {
      assert before + Elements(voters) == before;
    } else {
      var t := OneYes(idOf, c, s, id, p, before, voters, at);
      FirstOf(voters, before);
      YesVotesCount(idOf, c, t, id, p, before + {voters[0]}, voters[1..], at);
    }
  }

  lemma FirstOf(s: seq<NodeId>, before: set<NodeId>)
    requires s != [] && Distinct(s) && forall x <- s :: x !in before
    ensures before + {s[0]} + Elements(s[1..]) == before + Elements(s)
    ensures Distinct(s[1..]) && forall x <- s[1..] :: x !in before + {s[0]}
  {
    var rest := s[1..];
    assert forall i :: 0 < i < |s| ==> rest[i - 1] == s[i];
  }

  lemma OneYes(idOf: IdOf, c: Config, s: State, id: Hash, p: Proposal, before: set<NodeId>, voters: seq<NodeId>,
               at: nat) returns (t: State)
    requires InVote(s, id, p, before) && voters != [] && voters[0] !in before
    ensures InVote(t, id, p, before + {voters[0]})
    ensures After(idOf, c, s, YesVotes(id, voters, at)) == After(idOf, c, t, YesVotes(id, voters[1..], at))
  {
    t := Step(idOf, c, s, Cast(id, voters[0], Yes, true, at));
    CastMeans(s, id, voters[0], Yes, true, at);
    assert YesVotes(id, voters, at)[1..] == YesVotes(id, voters[1..], at);
  }

  lemma VotingOpens(idOf: IdOf, c: Config, s: State, id: Hash, now: nat)
    requires StatusAgrees(s, id) && s.phases[id] == Discussion && now >= s.proposals[id].discussionEnds
    requires VotersOf(s, id) == {} && s.proposals[id].yes == 0
    ensures InVote(Step(idOf, c, s, Tick(now)), id, s.proposals[id], {})
  {
    TickMeans(idOf, c, s, now, id);
    assert ByClock(s.proposals[id], Discussion, Voting, now);
  }

  ghost predicate InPhase(s: State, id: Hash, p: Proposal, phase: Phase) {
    StatusAgrees(s, id) && s.phases[id] == phase && s.proposals[id] == p.(status := s.proposals[id].status)
  }

  lemma TickTo(idOf: IdOf, c: Config, s: State, id: Hash, p: Proposal, from: Phase, to: Phase, now: nat)
    requires InPhase(s, id, p, from) && ByClock(p, from, to, now)
    ensures InPhase(Step(idOf, c, s, Tick(now)), id, p, to)
  {
    TickMeans(idOf, c, s, now, id);
    assert Passed(s.proposals[id]) == Passed(p);
    assert ByClock(s.proposals[id], from, to, now);
  }

  /** Deciding and executing: two ticks past their deadlines. */
  lemma TwoTicks(idOf: IdOf, c: Config, s: State, id: Hash, p: Proposal, decided: nat, executed: nat)
    requires InPhase(s, id, p, Voting) && decided >= p.votingEnds && executed >= p.implementationDate
    ensures InPhase(After(idOf, c, s, [Tick(decided), Tick(executed)]), id, p, if Passed(p) then Executed else Rejected)
  {
    var t := Step(idOf, c, s, Tick(decided));
    var u := Step(idOf, c, t, Tick(executed));
    AfterTwo(idOf, c, s, Tick(decided), Tick(executed));
    if Passed(p) {
      TickTo(idOf, c, s, id, p, Voting, Approved, decided);
      TickTo(idOf, c, t, id, p, Approved, Executed, executed);
    } else {
      TickTo(idOf, c, s, id, p, Voting, Rejected, decided);
      TickMeans(idOf, c, t, executed, id);
    }
  }

  /** The life of a proposal: from any state of any run, submit it, tick past the end of its discussion,
      let any number of voters say yes, and tick past the end of voting and past the implementation
      date. It is then executed exactly if the voters were at least a fifth of the eligible ones, rounded
      down, at least one and at most all, and otherwise rejected. */
  lemma LifeOfProposal(idOf: IdOf, c: Config, s: State, proposer: NodeId, days: nat, eligible: nat, at: nat,
                       voters: seq<NodeId>, start: nat, voted: nat, decided: nat, executed: nat)
    requires Inv(s) && days >= c.minHistoryDays && eligible < U64_MAX && idOf(proposer, at, s.nonce) !in s.proposals
    requires Distinct(voters) && start >= at + c.discussionPeriod
    requires decided >= at + c.discussionPeriod + c.votingPeriod
    requires executed >= at + c.discussionPeriod + c.votingPeriod + c.implementationDelay
    ensures var id := idOf(proposer, at, s.nonce);
            var t := After(idOf, c, s, [SubmitProposal(proposer, days, eligible, at), Tick(start)]
                                       + YesVotes(id, voters, voted) + [Tick(decided), Tick(executed)]);
            && id in t.phases
            && t.phases[id] == if 0 < |voters| && eligible / 5 <= |voters| <= eligible then Executed else Rejected
  {
    var id, first := idOf(proposer, at, s.nonce), [SubmitProposal(proposer, days, eligible, at), Tick(start)];
    var votes, last := YesVotes(id, voters, voted), [Tick(decided), Tick(executed)];
    AfterConcat(idOf, c, s, first + votes, last);
    AfterConcat(idOf, c, s, first, votes);
    var p := OpenedForVotes(idOf, c, s, proposer, days, eligible, at, start);
    var t := After(idOf, c, s, first);
    YesVotesCount(idOf, c, t, id, p, {}, voters, voted);
    var u := After(idOf, c, t, votes);
    assert {} + Elements(voters) == Elements(voters);
    ElementsCount(voters);
    var q := u.proposals[id];
    PassedMeansMajority(q);
    TwoTicks(idOf, c, u, id, q, decided, executed);
  }

  lemma OpenedForVotes(idOf: IdOf, c: Config, s: State, proposer: NodeId, days: nat, eligible: nat, at: nat,
                       start: nat) returns (p: Proposal)
    requires Inv(s) && days >= c.minHistoryDays && idOf(proposer, at, s.nonce) !in s.proposals
    requires start >= at + c.discussionPeriod
    ensures var id := idOf(proposer, at, s.nonce);
            var t := After(idOf, c, s, [SubmitProposal(proposer, days, eligible, at), Tick(start)]);
            Opened(c, p, id, proposer, eligible, at) && InVote(t, id, p, {})
  {
    var id, submit := idOf(proposer, at, s.nonce), SubmitProposal(proposer, days, eligible, at);
    SubmitMeans(idOf, c, s, proposer, days, eligible, at);
    var u := Step(idOf, c, s, submit);
    p := u.proposals[id];
    assert id !in s.voted;
    VotingOpens(idOf, c, u, id, start);
    AfterTwo(idOf, c, s, submit, Tick(start));
  }
}
