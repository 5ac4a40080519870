/** The life of governance proposals (gratia-governance/src/proposals.rs, voting.rs and the
    predicates of gratia-core/src/types.rs). Times are seconds; ids are an uninterpreted function
    of proposer, time and nonce. */
module Governance {
  import opened Identifiers

  const U64_MAX := 0xFFFF_FFFF_FFFF_FFFF

  datatype Phase = Draft | Discussion | Voting | Approved | Rejected | Executed | Cancelled

  datatype Status = InDiscussion | InVoting | IsApproved | IsRejected | IsImplemented | IsReverted

  datatype Vote = Yes | No | Abstain

  datatype Ballot = Ballot(voter: NodeId, vote: Vote, timestamp: nat)

  datatype Proposal = Proposal(
    id: Hash, proposer: NodeId, submittedAt: nat, discussionEnds: nat, votingEnds: nat, implementationDate: nat,
    status: Status, yes: nat, no: nat, abstain: nat, eligible: nat)

  datatype Config = Config(minHistoryDays: nat, discussionPeriod: nat, votingPeriod: nat, implementationDelay: nat)

  datatype State = State(
    proposals: map<Hash, Proposal>, phases: map<Hash, Phase>, nonce: nat,
    voted: map<Hash, set<NodeId>>, records: map<Hash, seq<Ballot>>)

  type IdOf = (NodeId, nat, nat) -> Hash

  // -------------------------------------------------------------- passing votes

  function SatAdd(a: nat, b: nat): nat { if a + b > U64_MAX then U64_MAX else a + b }

  function SatDouble(a: nat): nat { if a * 2 > U64_MAX then U64_MAX else a * 2 }

  predicate QuorumMet(p: Proposal) {
    && p.eligible != 0
    && var total := SatAdd(SatAdd(p.yes, p.no), p.abstain);
       total <= p.eligible && total >= p.eligible / 5
  }

  predicate Passed(p: Proposal) {
    && QuorumMet(p)
    && p.yes <= p.eligible && p.no <= p.eligible
    && SatDouble(p.yes) > SatAdd(p.yes, p.no)
  }

  /** Passing means that at least a fifth of the eligible voters, rounded down, took part, no more than
      all of them did, and the yes votes outnumber the no votes. */
  lemma PassedMeansMajority(p: Proposal)
    requires p.eligible < U64_MAX
    ensures Passed(p) <==>
              && p.eligible > 0
              && p.eligible / 5 <= p.yes + p.no + p.abstain <= p.eligible
              && p.yes > p.no
  {
  }

  /** Quorum is a fifth rounded down: it is met exactly when one more vote would exceed a true fifth,
      and so without a true fifth exactly when the votes fall short of it by less than one. */
  lemma QuorumRoundsDown(p: Proposal)
    requires p.eligible < U64_MAX
    ensures var total := p.yes + p.no + p.abstain;
            && (QuorumMet(p) <==> p.eligible > 0 && total <= p.eligible && p.eligible < 5 * (total + 1))
            && (QuorumMet(p) && 5 * total < p.eligible <==> 5 * total < p.eligible < 5 * (total + 1))
  {
  }

  /** With the greatest 64-bit number of eligible voters, saturation withholds a true majority
      exactly when the yes and no votes together fill the range, and lets an overfull total pass. */
  lemma PassedAtTheLimit(p: Proposal)
    requires p.eligible == U64_MAX && p.yes <= U64_MAX && p.no <= U64_MAX
    ensures Passed(p) <==> p.eligible / 5 <= p.yes + p.no + p.abstain && p.yes > p.no && p.yes + p.no < U64_MAX
  {
  }

  // ------------------------------------------------------------------- steps

  function ToStatus(phase: Phase): Status {
    match phase
    case Draft => InDiscussion
    case Discussion => InDiscussion
    case Voting => InVoting
    case Approved => IsApproved
    case Rejected => IsRejected
    case Executed => IsImplemented
    case Cancelled => IsRejected
  }

  datatype Reply = Done | Submitted(id: Hash) | Refused

  function NewProposal(c: Config, id: Hash, proposer: NodeId, eligible: nat, now: nat): Proposal {
    Proposal(id, proposer, now, now + c.discussionPeriod, now + c.discussionPeriod + c.votingPeriod,
             now + c.discussionPeriod + c.votingPeriod + c.implementationDelay, InDiscussion, 0, 0, 0, eligible)
  }

  function Submit(idOf: IdOf, c: Config, s: State, proposer: NodeId, days: nat, eligible: nat, now: nat): (State, Reply)
  {
    if days < c.minHistoryDays then (s, Refused)
    else
      var id := idOf(proposer, now, s.nonce);
      (s.(proposals := s.proposals[id := NewProposal(c, id, proposer, eligible, now)],
          phases := s.phases[id := Discussion], nonce := s.nonce + 1), Submitted(id))
  }

  function PhaseOf(s: State, id: Hash): Phase { if id in s.phases then s.phases[id] else Discussion }

  function Cancel(s: State, id: Hash, requester: NodeId): (State, Reply) {
    if id !in s.proposals || s.proposals[id].proposer != requester || PhaseOf(s, id) != Discussion then (s, Refused)
    else
      (s.(phases := s.phases[id := Cancelled],
          proposals := s.proposals[id := s.proposals[id].(status := IsRejected)]), Done)
  }

  /** One proposal moves at most one phase per tick. */
  function NextPhase(p: Proposal, phase: Phase, now: nat): Phase {
    match phase
    case Discussion => if now >= p.discussionEnds then Voting else phase
    case Voting => if now >= p.votingEnds then (if Passed(p) then Approved else Rejected) else phase
    case Approved => if now >= p.implementationDate then Executed else phase
    case _ => phase
  }

  function Moved(p: Proposal, phase: Phase, now: nat): Proposal {
    if NextPhase(p, phase, now) == phase then p else p.(status := ToStatus(NextPhase(p, phase, now)))
  }

  function AdvanceOne(s: State, id: Hash, now: nat): State {
    if id !in s.phases || id !in s.proposals then s
    else s.(phases := s.phases[id := NextPhase(s.proposals[id], s.phases[id], now)],
            proposals := s.proposals[id := Moved(s.proposals[id], s.phases[id], now)])
  }

  function AdvanceAll(s: State, now: nat): State {
    s.(phases := map id | id in s.phases ::
                   if id in s.proposals then NextPhase(s.proposals[id], s.phases[id], now) else s.phases[id],
       proposals := map id | id in s.proposals ::
                      if id in s.phases then Moved(s.proposals[id], s.phases[id], now) else s.proposals[id])
  }

  function VotersOf(s: State, id: Hash): set<NodeId> { if id in s.voted then s.voted[id] else {} }

  function BallotsOf(s: State, id: Hash): seq<Ballot> { if id in s.records then s.records[id] else [] }

  function Tally(p: Proposal, vote: Vote): Proposal {
    match vote
    case Yes => p.(yes := p.yes + 1)
    case No => p.(no := p.no + 1)
    case Abstain => p.(abstain := p.abstain + 1)
  }

  predicate MayVote(s: State, id: Hash, voter: NodeId, validPol: bool) {
    validPol && id in s.proposals && s.proposals[id].status == InVoting && voter !in VotersOf(s, id)
  }

  /** Votes are checked against the phase, not the clock. */
  function CastVote(s: State, id: Hash, voter: NodeId, vote: Vote, validPol: bool, now: nat): (State, Reply) {
    if !MayVote(s, id, voter, validPol) then (s, Refused)
    else
      (s.(voted := s.voted[id := VotersOf(s, id) + {voter}],
          records := s.records[id := BallotsOf(s, id) + [Ballot(voter, vote, now)]],
          proposals := s.proposals[id := Tally(s.proposals[id], vote)]), Done)
  }

  // -------------------------------------------------------------------- runs

  datatype Event =
    | SubmitProposal(proposer: NodeId, days: nat, eligible: nat, at: nat)
    | CancelProposal(id: Hash, requester: NodeId)
    | Cast(id: Hash, voter: NodeId, vote: Vote, validPol: bool, at: nat)
    | Tick(now: nat)

  function Step(idOf: IdOf, c: Config, s: State, e: Event): State {
    match e
    case SubmitProposal(proposer, days, eligible, at) => Submit(idOf, c, s, proposer, days, eligible, at).0
    case CancelProposal(id, requester) => Cancel(s, id, requester).0
    case Cast(id, voter, vote, validPol, at) => CastVote(s, id, voter, vote, validPol, at).0
    case Tick(now) => AdvanceAll(s, now)
  }

  function Run(idOf: IdOf, c: Config, events: seq<Event>): State {
    if events == [] then State(map[], map[], 0, map[], map[])
    else Step(idOf, c, Run(idOf, c, events[..|events| - 1]), events[|events| - 1])
  }

  /** A submission gets an id no proposal has. */
  predicate FreshId(idOf: IdOf, s: State, e: Event) {
    e.SubmitProposal? ==> idOf(e.proposer, e.at, s.nonce) !in s.proposals
  }

  ghost predicate FreshIds(idOf: IdOf, c: Config, events: seq<Event>) {
    forall i :: 0 <= i < |events| ==> FreshId(idOf, Run(idOf, c, events[..i]), events[i])
  }

  // --------------------------------------------------------------- invariants

  function Count(ballots: seq<Ballot>, vote: Vote): nat {
    if ballots == [] then 0
    else Count(ballots[..|ballots| - 1], vote) + if ballots[|ballots| - 1].vote == vote then 1 else 0
  }

  ghost predicate DistinctVoters(ballots: seq<Ballot>) {
    forall i, j :: 0 <= i < j < |ballots| ==> ballots[i].voter != ballots[j].voter
  }

  /** The tallies are the counts of the recorded ballots, which come from distinct voters, and the
      voted set holds exactly those voters. */
  ghost predicate TallyOk(p: Proposal, ballots: seq<Ballot>, voters: set<NodeId>) {
    && p.yes == Count(ballots, Yes) && p.no == Count(ballots, No) && p.abstain == Count(ballots, Abstain)
    && DistinctVoters(ballots)
    && forall x :: x in voters <==> exists i :: 0 <= i < |ballots| && ballots[i].voter == x
  }

  predicate SameTally(p: Proposal, q: Proposal) { p.yes == q.yes && p.no == q.no && p.abstain == q.abstain }

  predicate StatusAgrees(s: State, id: Hash) {
    id in s.proposals && id in s.phases && s.proposals[id].status == ToStatus(s.phases[id])
  }

  /** Approved and executed proposals pass; rejected ones do not. */
  predicate Decided(p: Proposal, phase: Phase) {
    (phase == Approved || phase == Executed ==> Passed(p)) && (phase == Rejected ==> !Passed(p))
  }

  ghost predicate ProposalOk(s: State, id: Hash) {
    && StatusAgrees(s, id)
    && TallyOk(s.proposals[id], BallotsOf(s, id), VotersOf(s, id))
    && Decided(s.proposals[id], s.phases[id])
  }

  ghost predicate Inv(s: State) {
    && s.phases.Keys == s.proposals.Keys
    && (forall id <- s.proposals :: ProposalOk(s, id))
    && (forall id :: id in s.records || id in s.voted ==> id in s.proposals)
  }

  lemma SubmitKeepsProposal(idOf: IdOf, c: Config, s: State, e: Event, id: Hash)
    requires ProposalOk(s, id) && e.SubmitProposal? && FreshId(idOf, s, e)
    ensures ProposalOk(Step(idOf, c, s, e), id)
  {
    assert idOf(e.proposer, e.at, s.nonce) != id;
  }

  lemma SubmittedIsOk(idOf: IdOf, c: Config, s: State, e: Event, id: Hash)
    requires Inv(s) && e.SubmitProposal? && id in Step(idOf, c, s, e).proposals && id !in s.proposals
    ensures ProposalOk(Step(idOf, c, s, e), id)
  {
    assert id !in s.records && id !in s.voted;
  }

  lemma SubmitKeepsInv(idOf: IdOf, c: Config, s: State, e: Event)
    requires Inv(s) && e.SubmitProposal? && FreshId(idOf, s, e)
    ensures Inv(Step(idOf, c, s, e))
  {
    var t := Step(idOf, c, s, e);
    forall id | id in t.proposals ensures ProposalOk(t, id) {
      if id in s.proposals {
        SubmitKeepsProposal(idOf, c, s, e, id);
      } else {
        SubmittedIsOk(idOf, c, s, e, id);
      }
    }
  }

  lemma CancelKeepsProposal(s: State, id: Hash, requester: NodeId, x: Hash)
    requires ProposalOk(s, x)
    ensures ProposalOk(Cancel(s, id, requester).0, x)
  {
  }

  lemma CancelKeepsInv(s: State, id: Hash, requester: NodeId)
    requires Inv(s)
    ensures Inv(Cancel(s, id, requester).0)
  {
    forall x | x in s.proposals ensures ProposalOk(Cancel(s, id, requester).0, x) {
      CancelKeepsProposal(s, id, requester, x);
    }
  }

  lemma TickKeepsProposal(s: State, now: nat, id: Hash)
    requires ProposalOk(s, id)
    ensures ProposalOk(AdvanceAll(s, now), id)
  {
    var t := AdvanceAll(s, now);
    assert Passed(t.proposals[id]) == Passed(s.proposals[id]);
  }

  lemma TickKeepsInv(s: State, now: nat)
    requires Inv(s)
    ensures Inv(AdvanceAll(s, now))
  {
    forall x | x in s.proposals ensures ProposalOk(AdvanceAll(s, now), x) {
      TickKeepsProposal(s, now, x);
    }
  }

  lemma CastKeepsTally(p: Proposal, ballots: seq<Ballot>, voters: set<NodeId>, b: Ballot)
    requires TallyOk(p, ballots, voters) && b.voter !in voters
    ensures TallyOk(Tally(p, b.vote), ballots + [b], voters + {b.voter})
  {
    assert (ballots + [b])[..|ballots|] == ballots;
    forall x
      ensures x in voters + {b.voter} <==> exists i :: 0 <= i < |ballots + [b]| && (ballots + [b])[i].voter == x
    {
      if x == b.voter {
        assert (ballots + [b])[|ballots|].voter == x;
      } else if x in voters {
        var i :| 0 <= i < |ballots| && ballots[i].voter == x;
        assert (ballots + [b])[i].voter == x;
      }
    }
  }

  lemma CastKeepsTarget(s: State, id: Hash, voter: NodeId, vote: Vote, now: nat)
    requires ProposalOk(s, id) && MayVote(s, id, voter, true)
    ensures ProposalOk(CastVote(s, id, voter, vote, true, now).0, id)
  {
    var t, b := CastVote(s, id, voter, vote, true, now).0, Ballot(voter, vote, now);
    assert t.phases[id] == s.phases[id] == Voting;
    assert TallyOk(t.proposals[id], BallotsOf(t, id), VotersOf(t, id)) by {
      assert BallotsOf(t, id) == BallotsOf(s, id) + [b] && VotersOf(t, id) == VotersOf(s, id) + {voter};
      CastKeepsTally(s.proposals[id], BallotsOf(s, id), VotersOf(s, id), b);
    }
    assert StatusAgrees(t, id);
  }

  lemma CastKeepsInv(s: State, id: Hash, voter: NodeId, vote: Vote, validPol: bool, now: nat)
    requires Inv(s)
    ensures Inv(CastVote(s, id, voter, vote, validPol, now).0)
  {
    if MayVote(s, id, voter, validPol) {
      var t := CastVote(s, id, voter, vote, validPol, now).0;
      assert t.phases == s.phases && t.proposals.Keys == s.proposals.Keys;
      forall x | x in t.proposals ensures ProposalOk(t, x) {
        if x == id {
          CastKeepsTarget(s, id, voter, vote, now);
        }
      }
    }
  }

  lemma StepKeepsInv(idOf: IdOf, c: Config, s: State, e: Event)
    requires Inv(s) && FreshId(idOf, s, e)
    ensures Inv(Step(idOf, c, s, e))
  {
    match e
    case SubmitProposal(_, _, _, _) => SubmitKeepsInv(idOf, c, s, e);
    case CancelProposal(id, requester) => CancelKeepsInv(s, id, requester);
    case Cast(id, voter, vote, validPol, at) => CastKeepsInv(s, id, voter, vote, validPol, at);
    case Tick(now) => TickKeepsInv(s, now);
  }

  lemma FreshPrefix(idOf: IdOf, c: Config, events: seq<Event>)
    requires FreshIds(idOf, c, events) && events != []
    ensures FreshIds(idOf, c, events[..|events| - 1])
    ensures FreshId(idOf, Run(idOf, c, events[..|events| - 1]), events[|events| - 1])
  {
    var before := events[..|events| - 1];
    forall i | 0 <= i < |before| ensures FreshId(idOf, Run(idOf, c, before[..i]), before[i]) {
      assert before[..i] == events[..i];
    }
  }

  /** In every run: status matches phase, tallies count distinct voters' ballots, whatever is approved
      or executed has passed and still does, and what was voted down has not. */
  lemma {:induction false} RunKeepsInv(idOf: IdOf, c: Config, events: seq<Event>)
    requires FreshIds(idOf, c, events)
    ensures Inv(Run(idOf, c, events))
  {
    if events != [] {
      FreshPrefix(idOf, c, events);
      RunKeepsInv(idOf, c, events[..|events| - 1]);
      StepKeepsInv(idOf, c, Run(idOf, c, events[..|events| - 1]), events[|events| - 1]);
    }
  }

  // ------------------------------------------------------------------- history

  predicate Ended(phase: Phase) { phase == Approved || phase == Rejected || phase == Executed || phase == Cancelled }

  /** The parts of a proposal no step changes. */
  predicate SameTerms(p: Proposal, q: Proposal) {
    && p.id == q.id && p.proposer == q.proposer && p.submittedAt == q.submittedAt && p.eligible == q.eligible
    && p.discussionEnds == q.discussionEnds && p.votingEnds == q.votingEnds
    && p.implementationDate == q.implementationDate
  }

  /** What one step may do to an existing proposal: its terms stay; the tally moves only in the voting
      phase; the phase moves only by the proposer's cancellation or by a tick past its deadline. */
  lemma StepOnProposal(idOf: IdOf, c: Config, s: State, e: Event, id: Hash)
    requires StatusAgrees(s, id) && FreshId(idOf, s, e)
    ensures var t := Step(idOf, c, s, e);
            && id in t.proposals && id in t.phases && SameTerms(s.proposals[id], t.proposals[id])
            && (s.phases[id] != Voting || !e.Cast? ==> SameTally(s.proposals[id], t.proposals[id]))
            && PhaseMove(s, t, e, id)
  {
    match e
    case SubmitProposal(proposer, _, _, at) => assert idOf(proposer, at, s.nonce) != id;
    case CancelProposal(_, _) =>
    case Cast(_, _, _, _, _) => assert s.phases[id] != Voting ==> s.proposals[id].status != InVoting;
    case Tick(_) =>
  }

  /** A phase that ends at its deadline: discussion in voting, voting in the decision that the tally
      makes, and an approved proposal in its execution. */
  predicate ByClock(p: Proposal, from: Phase, to: Phase, now: nat) {
    || (from == Discussion && to == Voting && now >= p.discussionEnds)
    || (from == Voting && to == Approved && now >= p.votingEnds && Passed(p))
    || (from == Voting && to == Rejected && now >= p.votingEnds && !Passed(p))
    || (from == Approved && to == Executed && now >= p.implementationDate)
  }

  /** Each tick moves every proposal whose deadline has come by one phase, and no other: nothing but its
      phase and its status, which say the same, changes. */
  lemma TickMeans(idOf: IdOf, c: Config, s: State, now: nat, id: Hash)
    requires StatusAgrees(s, id)
    ensures var t := Step(idOf, c, s, Tick(now));
            var p, from := s.proposals[id], s.phases[id];
            && StatusAgrees(t, id) && t.proposals[id] == p.(status := t.proposals[id].status)
            && (t.phases[id] == from || ByClock(p, from, t.phases[id], now))
            && (forall to :: ByClock(p, from, to, now) ==> t.phases[id] == to)
            && t.phases.Keys == s.phases.Keys && t.proposals.Keys == s.proposals.Keys
            && t.nonce == s.nonce && t.voted == s.voted && t.records == s.records
  {
  }

  /** The phase stays, is cancelled by the proposer during discussion, or follows the clock. */
  predicate PhaseMove(s: State, t: State, e: Event, id: Hash)
    requires id in s.proposals && id in s.phases && id in t.phases
  {
    || t.phases[id] == s.phases[id]
    || (e == CancelProposal(id, s.proposals[id].proposer) && s.phases[id] == Discussion && t.phases[id] == Cancelled)
    || (e.Tick? && ByClock(s.proposals[id], s.phases[id], t.phases[id], e.now))
  }

  lemma StatusInRun(idOf: IdOf, c: Config, events: seq<Event>, id: Hash)
    requires FreshIds(idOf, c, events) && id in Run(idOf, c, events).proposals
    ensures StatusAgrees(Run(idOf, c, events), id)
  {
    RunKeepsInv(idOf, c, events);
    assert ProposalOk(Run(idOf, c, events), id);
  }

  /** Once voting has ended, by decision or cancellation, the tally never changes again. */
  lemma {:induction false} Frozen(idOf: IdOf, c: Config, events: seq<Event>, i: nat, id: Hash)
    requires FreshIds(idOf, c, events) && i <= |events|
    requires var s := Run(idOf, c, events[..i]); id in s.proposals && id in s.phases && Ended(s.phases[id])
    ensures var s, t := Run(idOf, c, events[..i]), Run(idOf, c, events);
            id in t.proposals && id in t.phases && Ended(t.phases[id]) && SameTally(s.proposals[id], t.proposals[id])
  {
    if i == |events| {
      assert events[..i] == events;
    } else {
      var before := events[..|events| - 1];
      FreshPrefix(idOf, c, events);
      assert before[..i] == events[..i];
      Frozen(idOf, c, before, i, id);
      StatusInRun(idOf, c, before, id);
      StepOnProposal(idOf, c, Run(idOf, c, before), events[|events| - 1], id);
    }
  }

  /** A tick after `since` at or past a deadline. */
  predicate TickedPast(events: seq<Event>, since: int, i: int, deadline: nat) {
    0 <= i < |events| && since < i && events[i].Tick? && events[i].now >= deadline
  }

  /** The ticks a phase presupposes, in order, all of them after the submission. */
  ghost predicate WentThrough(events: seq<Event>, since: int, p: Proposal, phase: Phase) {
    match phase
    case Voting => exists i :: TickedPast(events, since, i, p.discussionEnds)
    case Approved => exists i, j ::
      TickedPast(events, since, i, p.discussionEnds) && TickedPast(events, i, j, p.votingEnds)
    case Rejected => exists i, j ::
      TickedPast(events, since, i, p.discussionEnds) && TickedPast(events, i, j, p.votingEnds)
    case Executed => exists i, j, k ::
      && TickedPast(events, since, i, p.discussionEnds) && TickedPast(events, i, j, p.votingEnds)
      && TickedPast(events, j, k, p.implementationDate)
    case _ => true
  }

  /** Event number `since` submitted the proposal: its proposer had enough history, and its deadlines
      are the configured periods laid end to end from the submission. */
  predicate Origin(c: Config, events: seq<Event>, since: int, p: Proposal) {
    && 0 <= since < |events| && events[since].SubmitProposal?
    && events[since].proposer == p.proposer && events[since].at == p.submittedAt && events[since].eligible == p.eligible
    && events[since].days >= c.minHistoryDays
    && p.discussionEnds - p.submittedAt == c.discussionPeriod
    && p.votingEnds - p.discussionEnds == c.votingPeriod
    && p.implementationDate - p.votingEnds == c.implementationDelay
  }

  lemma WentThroughExtends(events: seq<Event>, e: Event, since: int, p: Proposal, phase: Phase)
    requires WentThrough(events, since, p, phase)
    ensures WentThrough(events + [e], since, p, phase)
  {
    var longer := events + [e];
    assert forall i: int, j: int, d: nat :: TickedPast(events, i, j, d) ==> TickedPast(longer, i, j, d);
  }

  /** The phase reached by a tick adds that tick to the ones already presupposed. */
  lemma TickAddsPassage(events: seq<Event>, now: nat, since: int, p: Proposal, phase: Phase, to: Phase)
    requires WentThrough(events, since, p, phase) && since < |events| && ByClock(p, phase, to, now)
    ensures WentThrough(events + [Tick(now)], since, p, to)
  {
    var longer, n := events + [Tick(now)], |events|;
    assert longer[n] == Tick(now);
    match phase
    case Discussion => assert TickedPast(longer, since, n, p.discussionEnds);
    case Voting =>
      var i :| TickedPast(events, since, i, p.discussionEnds);
      assert TickedPast(longer, since, i, p.discussionEnds) && TickedPast(longer, i, n, p.votingEnds);
    case Approved =>
      var i, j :| TickedPast(events, since, i, p.discussionEnds) && TickedPast(events, i, j, p.votingEnds);
      assert TickedPast(longer, since, i, p.discussionEnds) && TickedPast(longer, i, j, p.votingEnds);
      assert TickedPast(longer, j, n, p.implementationDate);
  }

  /** In every run a proposal was submitted by a proposer with enough history, its deadlines lie the
      configured periods apart, and it reached its phase through ticks past its discussion, voting
      and implementation deadlines, in that order, at different ticks and after its submission. */
  lemma {:induction false} PhasesWereEarned(idOf: IdOf, c: Config, events: seq<Event>, id: Hash) returns (since: int)
    requires FreshIds(idOf, c, events)
    requires id in Run(idOf, c, events).proposals && id in Run(idOf, c, events).phases
    ensures Origin(c, events, since, Run(idOf, c, events).proposals[id])
    ensures WentThrough(events, since, Run(idOf, c, events).proposals[id], Run(idOf, c, events).phases[id])
  {
    var before, e := events[..|events| - 1], events[|events| - 1];
    var s := Run(idOf, c, before);
    FreshPrefix(idOf, c, events);
    assert events == before + [e];
    if id in s.proposals {
      StatusInRun(idOf, c, before, id);
      since := PhasesWereEarned(idOf, c, before, id);
      StepEarnsPhase(idOf, c, before, since, s, e, id);
    } else {
      since := |before|;
      NewHasOrigin(idOf, c, before, s, e, id);
    }
  }

  lemma NewHasOrigin(idOf: IdOf, c: Config, before: seq<Event>, s: State, e: Event, id: Hash)
    requires id !in s.proposals && id in Step(idOf, c, s, e).proposals
    ensures var t := Step(idOf, c, s, e);
            id in t.phases && t.phases[id] == Discussion && Origin(c, before + [e], |before|, t.proposals[id])
  {
    assert (before + [e])[|before|] == e;
  }

  lemma StepEarnsPhase(idOf: IdOf, c: Config, before: seq<Event>, since: int, s: State, e: Event, id: Hash)
    requires StatusAgrees(s, id) && FreshId(idOf, s, e) && Origin(c, before, since, s.proposals[id])
    requires WentThrough(before, since, s.proposals[id], s.phases[id])
    ensures var t := Step(idOf, c, s, e);
            && id in t.proposals && id in t.phases && Origin(c, before + [e], since, t.proposals[id])
            && WentThrough(before + [e], since, t.proposals[id], t.phases[id])
  {
    StepOnProposal(idOf, c, s, e, id);
    var t := Step(idOf, c, s, e);
    assert (before + [e])[since] == before[since];
    if t.phases[id] == s.phases[id] {
      WentThroughExtends(before, e, since, s.proposals[id], s.phases[id]);
    } else if e.Tick? {
      TickAddsPassage(before, e.now, since, s.proposals[id], s.phases[id], t.phases[id]);
    }
  }
}
