/** What selection weighs: how a ticket becomes a value, which nodes draw one, and who is seated first. */
module CommitteeWeights {
  import opened Bytes
  import opened Identifiers
  import opened Committee
  import opened CommitteeAgreement
  import opened Counting

  // ------------------------------------------------------------------ tickets

  function Pow256(i: nat): nat { if i == 0 then 1 else 256 * Pow256(i - 1) }

  /** The sum of bytes[i] * 256^i over the first n bytes. */
  function Weighted(bytes: seq<Byte>, n: nat): nat
    requires n <= |bytes|
  {
    if n == 0 then 0 else Weighted(bytes, n - 1) + bytes[n - 1] as int * Pow256(n - 1)
  }

  lemma {:induction false} WeightedShift(bytes: seq<Byte>, n: nat)
    requires n < |bytes|
    ensures Weighted(bytes, n + 1) == bytes[0] as int + 256 * Weighted(bytes[1..], n)
  {
    if n == 0 {
      assert Weighted(bytes, 1) == Weighted(bytes, 0) + bytes[0] as int * Pow256(0);
    } else {
      WeightedShift(bytes, n - 1);
      var b, w := bytes[n] as int, Pow256(n - 1);
      assert b * (256 * w) == 256 * (b * w);
      assert bytes[1..][n - 1] == bytes[n];
    }
  }

  lemma {:induction false} LittleEndianIsSum(bytes: seq<Byte>)
    ensures LittleEndian(bytes) == Weighted(bytes, |bytes|)
  {
    if bytes != [] {
      LittleEndianIsSum(bytes[1..]);
      WeightedShift(bytes, |bytes| - 1);
    }
  }

  lemma {:induction false} WeightedPrefix(bytes: seq<Byte>, k: nat, n: nat)
    requires n <= k <= |bytes|
    ensures Weighted(bytes[..k], n) == Weighted(bytes, n)
  {
    if n > 0 {
      WeightedPrefix(bytes, k, n - 1);
    }
  }

  /** The eight low bytes of a ticket as a number. */
  function Raw(output: Digest): nat { Weighted(output, 8) }

  /** A score cut to the range from 40 to 100. */
  predicate CutTo(score: nat, s: nat) {
    && 40 <= s <= 100 && (40 <= score <= 100 ==> s == score)
    && (score < 40 ==> s == 40) && (score > 100 ==> s == 100)
  }

  /** A quotient rounded down. */
  predicate Divided(raw: nat, s: nat, v: nat) { v * s <= raw < (v + 1) * s }

  /** The value of a ticket is its number divided by the cut score, rounded down. */
  lemma TicketIsDivided(output: Digest, score: nat, s: nat)
    requires CutTo(score, s)
    ensures Divided(Raw(output), s, SelectionValue(output, score))
  {
    LittleEndianIsSum(output[..8]);
    WeightedPrefix(output, 8, 8);
    DivBounds(Raw(output), s);
  }

  lemma StrictQuotient(raw: nat, low: nat, high: nat, v: nat, w: nat)
    requires 0 < low < high && raw >= low * high && w * high <= raw && raw < (v + 1) * low
    ensures w < v
  {
    if v <= w {
      MulMonotone(v, w, high);
      assert v * high <= raw && (v + 1) * low == v * low + low;
      assert v * high == v * low + v * (high - low);
      MulMonotone(1, high - low, v);
      assert v < low;
      MulMonotone(v + 1, low, low);
      MulMonotone(low, high, low);
    }
  }

  /** The weight is felt: on any ticket of at least the product of two scores, the higher score gives
      the strictly lower value. */
  lemma HigherScoreIsLower(output: Digest, low: nat, high: nat)
    requires 40 <= low < high <= 100 && Raw(output) >= low * high
    ensures SelectionValue(output, high) < SelectionValue(output, low)
  {
    TicketIsDivided(output, low, low);
    TicketIsDivided(output, high, high);
    StrictQuotient(Raw(output), low, high, SelectionValue(output, low), SelectionValue(output, high));
  }

  // --------------------------------------------------------------------- pool

  predicate Able(n: EligibleNode) { n.hasValidPol && n.meetsMinimumStake && n.presenceScore >= 40 }

  predicate Trusted(n: EligibleNode) { Able(n) && n.polDays >= 30 }

  /** In none of the latest committees that still count; without a history everyone has rested. */
  predicate Rested(n: EligibleNode, tier: Tier, history: Option<seq<seq<NodeId>>>) {
    history.Some? ==>
      forall i :: 0 <= i < |history.value| && i < tier.cooldownRounds ==> n.nodeId !in history.value[i]
  }

  function Indices<T>(s: seq<T>, p: T -> bool): set<int> {
    set i | 0 <= i < |s| && p(s[i])
  }

  /** How many entries of the list have the property. */
  function Number<T>(s: seq<T>, p: T -> bool): nat { |Indices(s, p)| }

  lemma IndicesOfLast<T>(s: seq<T>, p: T -> bool)
    requires s != []
    ensures var n := |s| - 1; Indices(s, p) == Indices(s[..n], p) + if p(s[n]) then {n} else {}
  {
  }

  lemma {:induction false} FilterLength<T>(s: seq<T>, p: T -> bool)
    ensures |Filter(s, p)| == Number(s, p)
  {
    if s != [] {
      FilterLength(s[..|s| - 1], p);
      IndicesOfLast(s, p);
    }
  }

  lemma {:induction false} FilterBoth(nodes: seq<EligibleNode>, p: EligibleNode -> bool, q: EligibleNode -> bool,
                                      r: EligibleNode -> bool)
    requires forall n <- nodes :: r(n) == (p(n) && q(n))
    ensures Filter(Filter(nodes, p), q) == Filter(nodes, r)
  {
    if nodes != [] {
      var n := |nodes| - 1;
      FilterBoth(nodes[..n], p, q, r);
      var f := Filter(nodes[..n], p);
      assert (f + [nodes[n]])[..|f|] == f;
    }
  }

  lemma {:induction false} FilterSame(nodes: seq<EligibleNode>, p: EligibleNode -> bool, q: EligibleNode -> bool)
    requires forall n <- nodes :: p(n) == q(n)
    ensures Filter(nodes, p) == Filter(nodes, q)
  {
    if nodes != [] {
      FilterSame(nodes[..|nodes| - 1], p, q);
    }
  }

  predicate Drawing(n: EligibleNode, trusted: bool, tier: Tier, history: Option<seq<seq<NodeId>>>) {
    Able(n) && (trusted ==> Trusted(n)) && Rested(n, tier, history)
  }

  function NumberDrawing(nodes: seq<EligibleNode>, trusted: bool, tier: Tier, history: Option<seq<seq<NodeId>>>): nat {
    Number(nodes, n => Drawing(n, trusted, tier, history))
  }

  lemma RestedFilter(nodes: seq<EligibleNode>, trusted: bool, tier: Tier, history: Option<seq<seq<NodeId>>>,
                     base: EligibleNode -> bool, r: EligibleNode -> bool)
    requires forall x :: base(x) == (Able(x) && (trusted ==> Trusted(x)))
    requires forall x :: r(x) == Drawing(x, trusted, tier, history)
    ensures history.Some? ==>
      var q := (x: EligibleNode) => !InCooldown(history.value, x.nodeId, tier.cooldownRounds);
      Filter(Filter(nodes, base), q) == Filter(nodes, r)
    ensures |Filter(nodes, r)| == NumberDrawing(nodes, trusted, tier, history)
  {
    if history.Some? {
      FilterBoth(nodes, base, (x: EligibleNode) => !InCooldown(history.value, x.nodeId, tier.cooldownRounds), r);
    }
    FilterLength(nodes, r);
    assert Indices(nodes, r) == Indices(nodes, n => Drawing(n, trusted, tier, history));
  }

  /** Who draws a ticket: the rested trusted nodes, if enough nodes are trusted and these fill the
      committee; the rested able nodes, if too few nodes are trusted but these fill it; and otherwise every
      able node. */
  lemma PoolMeans(nodes: seq<EligibleNode>, tier: Tier, history: Option<seq<seq<NodeId>>>, n: EligibleNode)
    ensures var trusted := Number(nodes, Trusted) >= tier.committeeSize;
            var filled := history.None? || NumberDrawing(nodes, trusted, tier, history) >= tier.committeeSize;
            n in Pool(nodes, tier, history) <==>
              n in nodes && if filled then Drawing(n, trusted, tier, history) else Able(n)
  {
    var trusted := Number(nodes, Trusted) >= tier.committeeSize;
    var base := (x: EligibleNode) => Able(x) && (trusted ==> Trusted(x));
    var r := (x: EligibleNode) => Drawing(x, trusted, tier, history);
    FilterLength(nodes, Trusted);
    FilterSame(nodes, IsCommitteeEligible, Trusted);
    FilterSame(nodes, IsEligible, Able);
    FilterSame(nodes, base, if trusted then Trusted else Able);
    RestedFilter(nodes, trusted, tier, history, base, r);
    FilterMember(nodes, base, n);
    FilterMember(nodes, Able, n);
    FilterMember(nodes, r, n);
  }

  lemma {:induction false} FilterMember(nodes: seq<EligibleNode>, p: EligibleNode -> bool, n: EligibleNode)
    ensures n in Filter(nodes, p) <==> n in nodes && p(n)
  {
    if nodes != [] {
      FilterMember(nodes[..|nodes| - 1], p, n);
    }
  }

  // ------------------------------------------------------------------ members

  lemma {:induction false} CandidateIsListed(o: Oracle, seed: Digest, epoch: nat, pool: seq<EligibleNode>,
                                             n: EligibleNode, m: Member)
    requires n in pool && Candidate(o, seed, epoch, n) == Some(m)
    ensures m in Candidates(o, seed, epoch, pool)
  {
    if pool[|pool| - 1] != n {
      CandidateIsListed(o, seed, epoch, pool[..|pool| - 1], n, m);
    }
  }

  /** Every member's value is the number on its own ticket divided by its node's cut score. */
  lemma MembersAreWeighted(o: Oracle, nodes: seq<EligibleNode>, seed: Digest, epoch: nat, slot: nat, networkSize: nat,
                           history: Option<seq<seq<NodeId>>>, m: Member) returns (n: EligibleNode, s: nat)
    requires var r := Select(o, nodes, seed, epoch, slot, networkSize, history); r.Ok? && m in r.value.members
    ensures n in nodes && MadeFrom(o, seed, epoch, n, m) && CutTo(n.presenceScore, s)
    ensures Divided(Raw(m.output), s, m.selectionValue)
  {
    n := MembersAreEligible(o, nodes, seed, epoch, slot, networkSize, history, m);
    s := if n.presenceScore > 100 then 100 else n.presenceScore;
    TicketIsDivided(m.output, n.presenceScore, s);
  }

  lemma SeatedIfFirst(members: seq<Member>, candidates: seq<Member>, a: Member, b: Member)
    requires forall m, c :: m in members && c in multiset(candidates) - multiset(members) ==> GoesFirst(m, c)
    requires a in members && b in candidates && !GoesFirst(a, b)
    ensures b in members
  {
    assert b in multiset(candidates) - multiset(members) || b in members;
  }

  /** Two nodes with one ticket, large enough for their scores to tell: the one with the lower score is
      not seated without the other. */
  lemma HigherScoreIsSeatedFirst(o: Oracle, nodes: seq<EligibleNode>, seed: Digest, epoch: nat, slot: nat,
                                 networkSize: nat, history: Option<seq<seq<NodeId>>>,
                                 low: EligibleNode, high: EligibleNode, a: Member, b: Member)
    requires var pool := Pool(nodes, TierFor(networkSize), history); low in pool && high in pool
    requires Candidate(o, seed, epoch, low) == Some(a) && Candidate(o, seed, epoch, high) == Some(b)
    requires a.output == b.output && 40 <= low.presenceScore < high.presenceScore <= 100
    requires Raw(a.output) >= low.presenceScore * high.presenceScore
    requires var r := Select(o, nodes, seed, epoch, slot, networkSize, history); r.Ok? && a in r.value.members
    ensures b in Select(o, nodes, seed, epoch, slot, networkSize, history).value.members
  {
    var members := Select(o, nodes, seed, epoch, slot, networkSize, history).value.members;
    var candidates := Candidates(o, seed, epoch, Pool(nodes, TierFor(networkSize), history));
    CandidateIsListed(o, seed, epoch, Pool(nodes, TierFor(networkSize), history), high, b);
    LowestTicketsWin(o, nodes, seed, epoch, slot, networkSize, history);
    HigherScoreIsLower(a.output, low.presenceScore, high.presenceScore);
    SeatedIfFirst(members, candidates, a, b);
  }

  lemma SomeAble(nodes: seq<EligibleNode>)
    ensures Filter(nodes, Able) != [] <==> exists n :: n in nodes && Able(n)
  {
    var able := Filter(nodes, Able);
    if able != [] {
      assert able[0] in able;
      FilterMember(nodes, Able, able[0]);
    }
    if n :| n in nodes && Able(n) {
      FilterMember(nodes, Able, n);
    }
  }

  /** Selection fails exactly if no node is able; otherwise the committee serves for 900 slots and asks
      for the tier's signatures, or for a single one while no two of its members have keys. */
  lemma SelectedMeans(o: Oracle, nodes: seq<EligibleNode>, seed: Digest, epoch: nat, slot: nat, networkSize: nat,
                      history: Option<seq<seq<NodeId>>>)
    ensures var r := Select(o, nodes, seed, epoch, slot, networkSize, history);
            && (r.Ok? <==> exists n :: n in nodes && Able(n))
            && (r.Ok? ==>
                  var c, tier := r.value, TierFor(networkSize);
                  && c.epochNumber == epoch && c.startSlot == slot && c.endSlot == slot + 900 && c.seed == seed
                  && c.committeeSize == tier.committeeSize && c.networkSize == networkSize
                  && c.finalityThreshold == if TwoKeys(c.members) then tier.finalityThreshold else 1)
  {
    FilterSame(nodes, IsEligible, Able);
    SomeAble(nodes);
    var r := Select(o, nodes, seed, epoch, slot, networkSize, history);
    if r.Ok? {
      RealSignersMeans(r.value.members);
    }
  }

  /** Two members of the list have keys. */
  ghost predicate TwoKeys(members: seq<Member>) {
    exists i, j :: 0 <= i < j < |members| && members[i].signingPubkey != [] && members[j].signingPubkey != []
  }

  lemma RealSignersMeans(members: seq<Member>)
    ensures RealSigners(members) > 1 <==> TwoKeys(members)
  {
    var p := (m: Member) => m.signingPubkey != [];
    FilterLength(members, p);
    var keyed := Indices(members, p);
    if TwoKeys(members) {
      var i, j :| 0 <= i < j < |members| && members[i].signingPubkey != [] && members[j].signingPubkey != [];
      assert {i, j} <= keyed;
      SubsetSize({i, j}, keyed);
    }
    if |keyed| > 1 {
      var i, j := PairIn(keyed);
    }
  }

  lemma PairIn(s: set<int>) returns (i: int, j: int)
    requires |s| > 1
    ensures i in s && j in s && i < j
  {
    var xs := Choose(s, 2);
    assert xs[0] != xs[1];
    i, j := if xs[0] < xs[1] then xs[0] else xs[1], if xs[0] < xs[1] then xs[1] else xs[0];
  }
}
