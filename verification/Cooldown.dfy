/** Cooldown tracking across committee rotations (gratia-consensus/src/committee.rs). */
module Cooldown {
  import opened Bytes
  import opened Identifiers
  import opened Committee
  import A = CommitteeAgreement
  import opened Counting

  const HISTORY_LIMIT := 20

  function Ids(members: seq<Member>): seq<NodeId> {
    seq(|members|, i requires 0 <= i < |members| => members[i].nodeId)
  }

  /** Newest first, at most twenty entries. */
  function Record(history: seq<seq<NodeId>>, ids: seq<NodeId>): seq<seq<NodeId>> {
    var longer := [ids] + history;
    longer[..Min(HISTORY_LIMIT, |longer|)]
  }

  class CooldownTracker {
    var recentCommittees: seq<seq<NodeId>>

    constructor ()
      ensures recentCommittees == []
    {
      recentCommittees := [];
    }

    method RecordCommittee(members: seq<Member>)
      modifies this
      ensures recentCommittees == Record(old(recentCommittees), Ids(members))
    {
      recentCommittees := [Ids(members)] + recentCommittees;
      if |recentCommittees| > HISTORY_LIMIT {
        recentCommittees := recentCommittees[..HISTORY_LIMIT];
      }
    }

    method IsInCooldown(id: NodeId, cooldownRounds: nat) returns (cooling: bool)
      ensures cooling == InCooldown(recentCommittees, id, cooldownRounds)
    {
      if cooldownRounds == 0 {
        return false;
      }
      var i := 0;
      while i < |recentCommittees| && i < cooldownRounds
        invariant 0 <= i <= |recentCommittees|
        invariant forall j :: 0 <= j < i ==> id !in recentCommittees[j]
      {
        if id in recentCommittees[i] {
          return true;
        }
        i := i + 1;
      }
      return false;
    }
  }

  // -------------------------------------------------------------------- runs

  /** What one rotation is given. */
  datatype Round = Round(nodes: seq<EligibleNode>, seed: Digest, epoch: nat, slot: nat, networkSize: nat)

  /** The tracker, and every committee so far (newest first, never forgotten). */
  datatype Progress = Progress(history: seq<seq<NodeId>>, all: seq<seq<NodeId>>)

  /** Selects with the tracker and records the result; a failed selection records nothing. */
  function Rotate(o: Oracle, p: Progress, r: Round): Progress {
    match Select(o, r.nodes, r.seed, r.epoch, r.slot, r.networkSize, Some(p.history))
    case Err => p
    case Ok(c) => Progress(Record(p.history, Ids(c.members)), [Ids(c.members)] + p.all)
  }

  function Rotations(o: Oracle, rounds: seq<Round>): Progress {
    if rounds == [] then Progress([], [])
    else Rotate(o, Rotations(o, rounds[..|rounds| - 1]), rounds[|rounds| - 1])
  }

  ghost predicate NewestKept(p: Progress) {
    p.history == p.all[..Min(20, |p.all|)]
  }

  /** The tracker is the newest twenty entries of the full record, in every run. */
  lemma {:induction false} HistoryIsPrefix(o: Oracle, rounds: seq<Round>)
    ensures NewestKept(Rotations(o, rounds))
  {
    if rounds != [] {
      HistoryIsPrefix(o, rounds[..|rounds| - 1]);
    }
  }

  /** So for every tier, in every run, the bounded history gives the same cooldown answers as an unbounded one. */
  lemma BoundedHistorySuffices(o: Oracle, rounds: seq<Round>, tier: Tier, id: NodeId)
    requires tier in SCALING_TIERS
    ensures InCooldown(Rotations(o, rounds).history, id, tier.cooldownRounds)
        <==> InCooldown(Rotations(o, rounds).all, id, tier.cooldownRounds)
  {
    HistoryIsPrefix(o, rounds);
    var p := Rotations(o, rounds);
    assert tier.cooldownRounds <= 5;
    forall i | 0 <= i < |p.all| && i < tier.cooldownRounds ensures p.history[i] == p.all[i] {
    }
  }

  // ---------------------------------------------------------------- counting

  /** All ids of the first k committees. */
  function Cooling(all: seq<seq<NodeId>>, k: nat): (r: set<NodeId>)
    requires k <= |all|
    ensures forall i, x :: 0 <= i < k && x in all[i] ==> x in r
  {
    if k == 0 then {} else Cooling(all, k - 1) + Elements(all[k - 1])
  }

  lemma {:induction false} CoolingSize(all: seq<seq<NodeId>>, k: nat, size: nat)
    requires k <= |all| && SizesFit(all, size)
    ensures |Cooling(all, k)| <= size * k
  {
    if k > 0 {
      CoolingSize(all, k - 1, size);
      ElementsCount(all[k - 1]);
      assert |Cooling(all, k)| <= |Cooling(all, k - 1)| + |Elements(all[k - 1])|;
      assert size * k == size * (k - 1) + size;
    }
  }

  /** Banning b ids from a list without repeated ids removes at most b nodes. */
  lemma {:induction false} FewAreBanned(s: seq<EligibleNode>, p: EligibleNode -> bool, banned: set<NodeId>)
    requires A.DistinctNodes(s) && forall n <- s :: n.nodeId !in banned ==> p(n)
    ensures |Filter(s, p)| + |banned| >= |s|
  {
    if s != [] {
      var last, front := s[|s| - 1], s[..|s| - 1];
      if last.nodeId in banned {
        forall n | n in front && n.nodeId !in banned - {last.nodeId} ensures p(n) {
        }
        FewAreBanned(front, p, banned - {last.nodeId});
      } else {
        FewAreBanned(front, p, banned);
      }
    }
  }

  // ------------------------------------------------------------ disjointness

  /** Enough distinct 30-day nodes for a full committee after every recent member has been excluded. */
  ghost predicate WellSupplied(tier: Tier, r: Round) {
    && TierFor(r.networkSize) == tier && A.DistinctNodes(r.nodes)
    && |Filter(r.nodes, IsCommitteeEligible)| >= tier.committeeSize * (tier.cooldownRounds + 1)
  }

  ghost predicate SizesFit(all: seq<seq<NodeId>>, size: nat) {
    forall i :: 0 <= i < |all| ==> |all[i]| <= size
  }

  /** Members are drawn from nodes of the pool. */
  lemma MemberFromPool(o: Oracle, r: Round, history: Option<seq<seq<NodeId>>>, m: Member)
    requires var c := Select(o, r.nodes, r.seed, r.epoch, r.slot, r.networkSize, history); c.Ok? && m in c.value.members
    ensures exists n :: n in Pool(r.nodes, TierFor(r.networkSize), history) && n.nodeId == m.nodeId
  {
    var pool := Pool(r.nodes, TierFor(r.networkSize), history);
    var candidates := Candidates(o, r.seed, r.epoch, pool);
    A.SortKeeps(candidates);
    assert m in multiset(Sort(candidates));
    assert m in candidates;
    A.CandidateHasSource(o, r.seed, r.epoch, pool, m);
  }

  /** In a well supplied round the cooldown filter is never lifted. */
  lemma PoolHasRested(tier: Tier, r: Round, all: seq<seq<NodeId>>, history: seq<seq<NodeId>>)
    requires WellSupplied(tier, r) && tier in SCALING_TIERS && SizesFit(all, tier.committeeSize)
    requires history == all[..Min(HISTORY_LIMIT, |all|)]
    ensures var p := (n: EligibleNode) => !InCooldown(history, n.nodeId, tier.cooldownRounds);
            Pool(r.nodes, tier, Some(history)) == Filter(Filter(r.nodes, IsCommitteeEligible), p)
  {
    var trusted := Filter(r.nodes, IsCommitteeEligible);
    var k := Min(tier.cooldownRounds, |history|);
    var banned := Cooling(history, k);
    CoolingSize(history, k, tier.committeeSize);
    A.FilterDistinct(r.nodes, IsCommitteeEligible);
    FewAreBanned(trusted, (n: EligibleNode) => !InCooldown(history, n.nodeId, tier.cooldownRounds), banned);
    MulMonotone(k, tier.cooldownRounds, tier.committeeSize);
    assert tier.committeeSize * (tier.cooldownRounds + 1)
        == tier.committeeSize * tier.cooldownRounds + tier.committeeSize;
  }

  /** Hence the committee of such a round shares no member with the last `cooldownRounds` committees. */
  lemma RoundAvoidsRecent(o: Oracle, tier: Tier, r: Round, p: Progress)
    requires WellSupplied(tier, r) && tier in SCALING_TIERS && SizesFit(p.all, tier.committeeSize)
    requires p.history == p.all[..Min(HISTORY_LIMIT, |p.all|)]
    requires Select(o, r.nodes, r.seed, r.epoch, r.slot, r.networkSize, Some(p.history)).Ok?
    ensures var committee := Select(o, r.nodes, r.seed, r.epoch, r.slot, r.networkSize, Some(p.history)).value;
            var chosen := Ids(committee.members);
            forall j :: 0 <= j < |p.all| && j < tier.cooldownRounds ==> Disjoint(chosen, p.all[j])
  {
    var members := Select(o, r.nodes, r.seed, r.epoch, r.slot, r.networkSize, Some(p.history)).value.members;
    var rested := (n: EligibleNode) => !InCooldown(p.history, n.nodeId, tier.cooldownRounds);
    PoolHasRested(tier, r, p.all, p.history);
    A.FilterWithin(Filter(r.nodes, IsCommitteeEligible), rested);
    forall x, j | 0 <= j < |p.all| && j < tier.cooldownRounds && x in Ids(members) ensures x !in p.all[j] {
      var m :| m in members && m.nodeId == x;
      MemberFromPool(o, r, Some(p.history), m);
      assert tier.cooldownRounds <= 5 && p.history[j] == p.all[j];
    }
  }

  lemma {:induction false} RunSizes(o: Oracle, tier: Tier, rounds: seq<Round>)
    requires forall r <- rounds :: TierFor(r.networkSize) == tier
    ensures SizesFit(Rotations(o, rounds).all, tier.committeeSize)
  {
    if rounds != [] {
      var before, r := rounds[..|rounds| - 1], rounds[|rounds| - 1];
      RunSizes(o, tier, before);
      assert TierFor(r.networkSize) == tier;
    }
  }

  ghost predicate Disjoint(a: seq<NodeId>, b: seq<NodeId>) {
    forall x <- a :: x !in b
  }

  /** At a fixed, well supplied tier every rotation succeeds and any `cooldownRounds + 1` consecutive
      committees are pairwise disjoint, over runs of any length. */
  lemma {:induction false} ConsecutiveCommitteesDisjoint(o: Oracle, tier: Tier, rounds: seq<Round>)
    requires tier in SCALING_TIERS && forall r <- rounds :: WellSupplied(tier, r)
    ensures var all := Rotations(o, rounds).all;
            && |all| == |rounds|
            && forall i, j :: 0 <= i < j < |all| && j - i <= tier.cooldownRounds ==> Disjoint(all[i], all[j])
  {
    if rounds != [] {
      var before, r := rounds[..|rounds| - 1], rounds[|rounds| - 1];
      ConsecutiveCommitteesDisjoint(o, tier, before);
      HistoryIsPrefix(o, before);
      RunSizes(o, tier, before);
      var p := Rotations(o, before);
      SupplyMeansSuccess(o, tier, r, Some(p.history));
      RoundAvoidsRecent(o, tier, r, p);
      var all := Rotations(o, rounds).all;
      forall i, j | 0 <= i < j < |all| && j - i <= tier.cooldownRounds ensures Disjoint(all[i], all[j]) {
        if i > 0 {
          assert Disjoint(p.all[i - 1], p.all[j - 1]);
        }
      }
    }
  }

  lemma SupplyMeansSuccess(o: Oracle, tier: Tier, r: Round, history: Option<seq<seq<NodeId>>>)
    requires tier in SCALING_TIERS && WellSupplied(tier, r)
    ensures Select(o, r.nodes, r.seed, r.epoch, r.slot, r.networkSize, history).Ok?
  {
    FilterImplies(r.nodes, IsCommitteeEligible, IsEligible);
    assert tier.committeeSize * (tier.cooldownRounds + 1) > 0;
  }
}
