/** Committee selection (gratia-consensus/src/committee.rs, vrf.rs): trust filter, fallbacks,
    cooldown, weighted tickets, sorting and truncation. */
module Committee {
  import opened Bytes
  import opened Identifiers
  import opened Counting

  // -------------------------------------------------------------------- tiers

  datatype Tier = Tier(
    minNetworkSize: nat, committeeSize: nat, finalityThreshold: nat, minSelectionPool: nat, cooldownRounds: nat)

  const SCALING_TIERS: seq<Tier> := [
    Tier(0, 3, 2, 10, 5),
    Tier(100, 5, 4, 50, 3),
    Tier(500, 7, 5, 100, 2),
    Tier(2_500, 11, 8, 500, 1),
    Tier(10_000, 15, 10, 2_000, 1),
    Tier(50_000, 19, 13, 10_000, 1),
    Tier(100_000, 21, 14, 20_000, 1)]

  const SLOTS_PER_EPOCH := 900

  /** The highest tier a network of this size qualifies for. */
  function TierFor(networkSize: nat): (t: Tier)
    ensures t in SCALING_TIERS && t.minNetworkSize <= networkSize
    ensures forall u <- SCALING_TIERS :: u.minNetworkSize <= networkSize ==> u.minNetworkSize <= t.minNetworkSize
  {
    if networkSize >= 100_000 then SCALING_TIERS[6]
    else if networkSize >= 50_000 then SCALING_TIERS[5]
    else if networkSize >= 10_000 then SCALING_TIERS[4]
    else if networkSize >= 2_500 then SCALING_TIERS[3]
    else if networkSize >= 500 then SCALING_TIERS[2]
    else if networkSize >= 100 then SCALING_TIERS[1]
    else SCALING_TIERS[0]
  }

  method TierForNetworkSize(networkSize: nat) returns (t: Tier)
    ensures t == TierFor(networkSize)
  {
    // the lowest tier starts at 0, so the walk down the table always stops
    var i := |SCALING_TIERS| - 1;
    while networkSize < SCALING_TIERS[i].minNetworkSize
      invariant 0 <= i <= 6
      invariant forall j :: i < j < 7 ==> networkSize < SCALING_TIERS[j].minNetworkSize
    {
      i := i - 1;
    }
    t := SCALING_TIERS[i];
  }

  // -------------------------------------------------------------------- nodes

  datatype EligibleNode = EligibleNode(
    nodeId: NodeId, vrfPubkey: Digest, presenceScore: nat, hasValidPol: bool, meetsMinimumStake: bool,
    polDays: nat, signingPubkey: seq<Byte>, vrfProof: seq<Byte>)

  predicate IsEligible(n: EligibleNode) {
    n.hasValidPol && n.meetsMinimumStake && n.presenceScore >= 40
  }

  predicate IsCommitteeEligible(n: EligibleNode) {
    IsEligible(n) && n.polDays >= 30
  }

  datatype Member = Member(
    nodeId: NodeId, vrfPubkey: Digest, presenceScore: nat, output: Digest, proofBytes: seq<Byte>,
    selectionValue: nat, signingPubkey: seq<Byte>)

  datatype ValidatorCommittee = ValidatorCommittee(
    epochNumber: nat, startSlot: nat, endSlot: nat, seed: Digest,
    members: seq<Member>, committeeSize: nat, finalityThreshold: nat, networkSize: nat)

  datatype Result<+T> = Ok(value: T) | Err

  /** The hash and the proof verifier that tickets come from. Both see the seed and the epoch number. */
  datatype Oracle = Oracle(
    hash: (Digest, nat, NodeId) -> Digest,
    verify: (Digest, Digest, nat, seq<Byte>) -> Option<Digest>)

  // ------------------------------------------------------------------ tickets

  function LittleEndian(bytes: seq<Byte>): nat {
    if bytes == [] then 0 else bytes[0] as int + 256 * LittleEndian(bytes[1..])
  }

  function Clamp(score: nat): nat {
    if score < 40 then 40 else if score > 100 then 100 else score
  }

  /** The first eight bytes of the output divided by the clamped score: lower is better. */
  function SelectionValue(output: Digest, score: nat): nat {
    LittleEndian(output[..8]) / Clamp(score)
  }

  function Ticket(o: Oracle, seed: Digest, epoch: nat, n: EligibleNode): Option<Digest> {
    if n.vrfProof != [] then o.verify(n.vrfPubkey, seed, epoch, n.vrfProof) else Some(o.hash(seed, epoch, n.nodeId))
  }

  function Candidate(o: Oracle, seed: Digest, epoch: nat, n: EligibleNode): Option<Member> {
    match Ticket(o, seed, epoch, n)
    case None => None
    case Some(output) =>
      Some(Member(n.nodeId, n.vrfPubkey, n.presenceScore, output, n.vrfProof,
                  SelectionValue(output, n.presenceScore), n.signingPubkey))
  }

  /** The members the nodes of a pool would become; nodes with a bad proof are skipped. */
  function Candidates(o: Oracle, seed: Digest, epoch: nat, pool: seq<EligibleNode>): seq<Member> {
    if pool == [] then []
    else
      var rest := Candidates(o, seed, epoch, pool[..|pool| - 1]);
      match Candidate(o, seed, epoch, pool[|pool| - 1])
      case Some(m) => rest + [m]
      case None => rest
  }

  // ------------------------------------------------------------------ sorting

  /** Lower selection value first, ties by node id. */
  predicate AtMost(a: Member, b: Member) {
    a.selectionValue < b.selectionValue || (a.selectionValue == b.selectionValue && a.nodeId <= b.nodeId)
  }

  ghost predicate Sorted(s: seq<Member>) {
    forall i, j :: 0 <= i < j < |s| ==> AtMost(s[i], s[j])
  }

  function Insert(m: Member, s: seq<Member>): seq<Member> {
    if s == [] || AtMost(m, s[0]) then [m] + s else [s[0]] + Insert(m, s[1..])
  }

  function Sort(s: seq<Member>): seq<Member> {
    if s == [] then [] else Insert(s[|s| - 1], Sort(s[..|s| - 1]))
  }

  // ---------------------------------------------------------------- selection

  function Filter<T>(s: seq<T>, p: T -> bool): seq<T> {
    if s == [] then []
    else
      var rest := Filter(s[..|s| - 1], p);
      if p(s[|s| - 1]) then rest + [s[|s| - 1]] else rest
  }

  /** The node served in one of the most recent `rounds` recorded committees. */
  predicate InCooldown(history: seq<seq<NodeId>>, id: NodeId, rounds: nat) {
    exists i :: 0 <= i < |history| && i < rounds && id in history[i]
  }

  /** The nodes tickets are drawn for: trusted nodes if there are enough, minus those in cooldown
      if enough remain, and otherwise every eligible node. */
  function Pool(nodes: seq<EligibleNode>, tier: Tier, history: Option<seq<seq<NodeId>>>): seq<EligibleNode> {
    var trusted := Filter(nodes, IsCommitteeEligible);
    var pool := if |trusted| < tier.committeeSize then Filter(nodes, IsEligible) else trusted;
    match history
    case None => pool
    case Some(h) =>
      var rested := Filter(pool, (n: EligibleNode) => !InCooldown(h, n.nodeId, tier.cooldownRounds));
      if |rested| < tier.committeeSize then Filter(nodes, IsEligible) else rested
  }

  function RealSigners(members: seq<Member>): nat {
    |Filter(members, (m: Member) => m.signingPubkey != [])|
  }

  /** The committee drawn from a list of nodes; an error when no node is eligible. */
  function Select(o: Oracle, nodes: seq<EligibleNode>, seed: Digest, epoch: nat, slot: nat, networkSize: nat,
                  history: Option<seq<seq<NodeId>>>): Result<ValidatorCommittee>
  {
    var tier := TierFor(networkSize);
    if Filter(nodes, IsEligible) == [] then Err
    else
      var sorted := Sort(Candidates(o, seed, epoch, Pool(nodes, tier, history)));
      var members := sorted[..Min(tier.committeeSize, |sorted|)];
      var threshold := if RealSigners(members) <= 1 then 1 else tier.finalityThreshold;
      Ok(ValidatorCommittee(epoch, slot, slot + SLOTS_PER_EPOCH, seed, members, tier.committeeSize,
                            threshold, networkSize))
  }

  /** `select_committee`: the network size is the number of eligible nodes and there is no cooldown. */
  function SelectFromList(o: Oracle, nodes: seq<EligibleNode>, seed: Digest, epoch: nat,
                          slot: nat): Result<ValidatorCommittee>
  {
    Select(o, nodes, seed, epoch, slot, |Filter(nodes, IsEligible)|, None)
  }

  method SelectCommittee(o: Oracle, nodes: seq<EligibleNode>, seed: Digest, epoch: nat, slot: nat, networkSize: nat,
                         history: Option<seq<seq<NodeId>>>) returns (r: Result<ValidatorCommittee>)
    ensures r == Select(o, nodes, seed, epoch, slot, networkSize, history)
  {
    var tier := TierForNetworkSize(networkSize);
    var eligible := Filter(nodes, IsCommitteeEligible);
    if |eligible| < tier.committeeSize {
      eligible := Filter(nodes, IsEligible);
    }
    FilterImplies(nodes, IsCommitteeEligible, IsEligible);
    if eligible == [] {
      return Err;
    }
    if history.Some? {
      eligible := Filter(eligible, (n: EligibleNode) => !InCooldown(history.value, n.nodeId, tier.cooldownRounds));
      if |eligible| < tier.committeeSize {
        eligible := Filter(nodes, IsEligible);
      }
    }
    assert eligible == Pool(nodes, tier, history);
    var candidates := BuildCandidates(o, seed, epoch, eligible);
    candidates := Sort(candidates);
    candidates := candidates[..Min(tier.committeeSize, |candidates|)];
    var effectiveThreshold := if RealSigners(candidates) <= 1 then 1 else tier.finalityThreshold;
    r := Ok(ValidatorCommittee(epoch, slot, slot + SLOTS_PER_EPOCH, seed, candidates, tier.committeeSize,
                               effectiveThreshold, networkSize));
  }

  method BuildCandidates(o: Oracle, seed: Digest, epoch: nat, eligible: seq<EligibleNode>)
    returns (candidates: seq<Member>)
    ensures candidates == Candidates(o, seed, epoch, eligible)
  {
    candidates := [];
    var i := 0;
    while i < |eligible|
      invariant 0 <= i <= |eligible|
      invariant candidates == Candidates(o, seed, epoch, eligible[..i])
    {
      var n := eligible[i];
      assert eligible[..i + 1][..i] == eligible[..i];
      var ticket := Ticket(o, seed, epoch, n);
      if ticket.Some? {
        candidates := candidates + [Member(n.nodeId, n.vrfPubkey, n.presenceScore, ticket.value, n.vrfProof,
                                           SelectionValue(ticket.value, n.presenceScore), n.signingPubkey)];
      }
      i := i + 1;
    }
    assert eligible[..i] == eligible;
  }

  lemma {:induction false} FilterImplies<T>(s: seq<T>, p: T -> bool, q: T -> bool)
    requires forall x <- s :: p(x) ==> q(x)
    ensures |Filter(s, p)| <= |Filter(s, q)|
  {
    if s != [] {
      FilterImplies(s[..|s| - 1], p, q);
    }
  }
}
