/** What committee selection guarantees: every permutation of the node list yields the same
    committee, the lowest tickets win, and a better score never costs a seat. */
module CommitteeAgreement {
  import opened Bytes
  import opened Identifiers
  import opened Committee
  import opened Counting

  // --------------------------------------------- filters ignore the order

  /** A filter keeps every copy of what it accepts and nothing else. */
  lemma {:induction false} FilterCount<T>(s: seq<T>, p: T -> bool, x: T)
    ensures multiset(Filter(s, p))[x] == if p(x) then multiset(s)[x] else 0
  {
    if s != [] {
      var n := |s| - 1;
      FilterCount(s[..n], p, x);
      assert s == s[..n] + [s[n]];
    }
  }

  lemma FilterPermuted(s: seq<EligibleNode>, t: seq<EligibleNode>, p: EligibleNode -> bool)
    requires multiset(s) == multiset(t)
    ensures multiset(Filter(s, p)) == multiset(Filter(t, p))
    ensures |Filter(s, p)| == |Filter(t, p)|
  {
    forall x: EligibleNode ensures multiset(Filter(s, p))[x] == multiset(Filter(t, p))[x] {
      FilterCount(s, p, x);
      FilterCount(t, p, x);
    }
    assert multiset(Filter(s, p)) == multiset(Filter(t, p));
    assert |multiset(Filter(s, p))| == |multiset(Filter(t, p))|;
  }

  lemma PoolPermuted(s: seq<EligibleNode>, t: seq<EligibleNode>, tier: Tier, history: Option<seq<seq<NodeId>>>)
    requires multiset(s) == multiset(t)
    ensures multiset(Pool(s, tier, history)) == multiset(Pool(t, tier, history))
  {
    FilterPermuted(s, t, IsCommitteeEligible);
    FilterPermuted(s, t, IsEligible);
    var trustedS, trustedT := Filter(s, IsCommitteeEligible), Filter(t, IsCommitteeEligible);
    var poolS := if |trustedS| < tier.committeeSize then Filter(s, IsEligible) else trustedS;
    var poolT := if |trustedT| < tier.committeeSize then Filter(t, IsEligible) else trustedT;
    if history.Some? {
      FilterPermuted(poolS, poolT, (n: EligibleNode) => !InCooldown(history.value, n.nodeId, tier.cooldownRounds));
    }
  }

  /** The candidates of a list split at any node: the node contributes itself only. */
  lemma {:induction false} CandidatesAppend(o: Oracle, seed: Digest, epoch: nat, a: seq<EligibleNode>,
                                            b: seq<EligibleNode>)
    ensures Candidates(o, seed, epoch, a + b) == Candidates(o, seed, epoch, a) + Candidates(o, seed, epoch, b)
  {
    if b == [] {
      assert a + b == a;
    } else {
      var n := |b| - 1;
      CandidatesAppend(o, seed, epoch, a, b[..n]);
      assert (a + b)[..|a + b| - 1] == a + b[..n];
    }
  }

  lemma {:induction false} CandidatesPermuted(o: Oracle, seed: Digest, epoch: nat, s: seq<EligibleNode>,
                                              t: seq<EligibleNode>)
    requires multiset(s) == multiset(t)
    ensures multiset(Candidates(o, seed, epoch, s)) == multiset(Candidates(o, seed, epoch, t))
    decreases |s|
  {
    if s == [] {
      assert |multiset(t)| == 0;
    } else {
      var n := |s| - 1;
      assert s == s[..n] + [s[n]];
      assert s[n] in multiset(t);
      var j :| 0 <= j < |t| && t[j] == s[n];
      var front, back := t[..j], t[j + 1..];
      assert t == front + ([t[j]] + back);
      assert multiset(front + back) == multiset(t) - multiset{t[j]};
      CandidatesPermuted(o, seed, epoch, s[..n], front + back);
      CandidatesAppend(o, seed, epoch, front, back);
      CandidatesAppend(o, seed, epoch, front, [t[j]] + back);
      CandidatesAppend(o, seed, epoch, [t[j]], back);
      CandidatesAppend(o, seed, epoch, s[..n], [s[n]]);
    }
  }

  // -------------------------------------------------------- sorting is unique

  lemma {:induction false} InsertAdds(m: Member, s: seq<Member>)
    ensures multiset(Insert(m, s)) == multiset(s) + multiset{m}
  {
    if s != [] && !AtMost(m, s[0]) {
      InsertAdds(m, s[1..]);
      assert s == [s[0]] + s[1..];
    }
  }

  lemma {:induction false} InsertKeeps(m: Member, s: seq<Member>)
    requires Sorted(s)
    ensures Sorted(Insert(m, s)) && multiset(Insert(m, s)) == multiset(s) + multiset{m}
  {
    InsertAdds(m, s);
    if s == [] {
    } else if AtMost(m, s[0]) {
    } else {
      InsertKeeps(m, s[1..]);
      var r := Insert(m, s[1..]);
      forall y | y in r ensures AtMost(s[0], y) {
        assert y in multiset(r);
      }
    }
  }

  lemma {:induction false} SortKeeps(s: seq<Member>)
    ensures Sorted(Sort(s)) && multiset(Sort(s)) == multiset(s) && |Sort(s)| == |s|
  {
    if s != [] {
      SortKeeps(s[..|s| - 1]);
      InsertKeeps(s[|s| - 1], Sort(s[..|s| - 1]));
      assert s == s[..|s| - 1] + [s[|s| - 1]];
    }
    assert |multiset(Sort(s))| == |multiset(s)|;
  }

  /** No two entries carry the same node id. */
  ghost predicate DistinctMembers(s: seq<Member>) {
    forall i, j :: 0 <= i < j < |s| ==> s[i].nodeId != s[j].nodeId
  }

  ghost predicate DistinctNodes(s: seq<EligibleNode>) {
    forall i, j :: 0 <= i < j < |s| ==> s[i].nodeId != s[j].nodeId
  }

  lemma {:induction false} InsertDistinct(m: Member, s: seq<Member>)
    requires Sorted(s) && DistinctMembers(s) && forall x <- s :: x.nodeId != m.nodeId
    ensures DistinctMembers(Insert(m, s))
  {
    if s != [] && !AtMost(m, s[0]) {
      InsertDistinct(m, s[1..]);
      InsertKeeps(m, s[1..]);
      var r := Insert(m, s[1..]);
      forall j | 0 <= j < |r| ensures s[0].nodeId != r[j].nodeId {
        assert r[j] in multiset(r);
        assert r[j] == m || r[j] in s[1..];
      }
    }
  }

  lemma {:induction false} SortDistinct(s: seq<Member>)
    requires DistinctMembers(s)
    ensures DistinctMembers(Sort(s))
  {
    if s != [] {
      var front := s[..|s| - 1];
      SortDistinct(front);
      SortKeeps(front);
      forall x | x in Sort(front) ensures x.nodeId != s[|s| - 1].nodeId {
        assert x in multiset(front);
      }
      InsertDistinct(s[|s| - 1], Sort(front));
    }
  }

  /** A list without repeated ids has only one sorted arrangement. */
  lemma {:induction false} SortedIsUnique(s: seq<Member>, t: seq<Member>)
    requires Sorted(s) && Sorted(t) && multiset(s) == multiset(t) && DistinctMembers(s)
    ensures s == t
  {
    assert |multiset(s)| == |multiset(t)|;
    if s != [] {
      HeadsAgree(s, t);
      assert s == [s[0]] + s[1..] && t == [t[0]] + t[1..];
      assert multiset(s[1..]) == multiset(s) - multiset{s[0]};
      assert multiset(t[1..]) == multiset(t) - multiset{t[0]};
      SortedIsUnique(s[1..], t[1..]);
    }
  }

  lemma HeadsAgree(s: seq<Member>, t: seq<Member>)
    requires Sorted(s) && Sorted(t) && multiset(s) == multiset(t) && DistinctMembers(s) && s != [] && t != []
    ensures s[0] == t[0]
  {
    assert s[0] in multiset(t) && t[0] in multiset(s);
    var i :| 0 <= i < |s| && s[i] == t[0];
    var j :| 0 <= j < |t| && t[j] == s[0];
    assert AtMost(s[0], s[i]) && AtMost(t[0], t[j]);
  }

  lemma {:induction false} FilterDistinct(s: seq<EligibleNode>, p: EligibleNode -> bool)
    requires DistinctNodes(s)
    ensures DistinctNodes(Filter(s, p))
  {
    if s != [] {
      var front := s[..|s| - 1];
      FilterDistinct(front, p);
      FilterWithin(front, p);
      var f := Filter(front, p);
      assert forall i :: 0 <= i < |f| ==> f[i] in front && f[i].nodeId != s[|s| - 1].nodeId;
    }
  }

  lemma PoolDistinct(s: seq<EligibleNode>, tier: Tier, history: Option<seq<seq<NodeId>>>)
    requires DistinctNodes(s)
    ensures DistinctNodes(Pool(s, tier, history))
  {
    FilterDistinct(s, IsCommitteeEligible);
    FilterDistinct(s, IsEligible);
    if history.Some? {
      var p := (n: EligibleNode) => !InCooldown(history.value, n.nodeId, tier.cooldownRounds);
      FilterDistinct(Filter(s, IsCommitteeEligible), p);
      FilterDistinct(Filter(s, IsEligible), p);
    }
  }

  /** Every candidate carries the id of the pool node it was made from. */
  lemma {:induction false} CandidateHasSource(o: Oracle, seed: Digest, epoch: nat, pool: seq<EligibleNode>, m: Member)
    requires m in Candidates(o, seed, epoch, pool)
    ensures exists n :: n in pool && Candidate(o, seed, epoch, n) == Some(m)
  {
    var k := |pool| - 1;
    if Candidate(o, seed, epoch, pool[k]) == Some(m) {
    } else {
      CandidateHasSource(o, seed, epoch, pool[..k], m);
    }
  }

  lemma {:induction false} CandidatesDistinct(o: Oracle, seed: Digest, epoch: nat, pool: seq<EligibleNode>)
    requires DistinctNodes(pool)
    ensures DistinctMembers(Candidates(o, seed, epoch, pool))
  {
    if pool != [] {
      var k := |pool| - 1;
      var rest := Candidates(o, seed, epoch, pool[..k]);
      CandidatesDistinct(o, seed, epoch, pool[..k]);
      forall m | m in rest ensures m.nodeId != pool[k].nodeId {
        CandidateHasSource(o, seed, epoch, pool[..k], m);
      }
    }
  }

  // -------------------------------------------------------------- agreement

  /** Every permutation of a list with distinct node ids selects the same committee: the same
      members in the same order, the same threshold, or the same refusal. */
  lemma Agreement(o: Oracle, s: seq<EligibleNode>, t: seq<EligibleNode>, seed: Digest, epoch: nat, slot: nat,
                  networkSize: nat, history: Option<seq<seq<NodeId>>>)
    requires multiset(s) == multiset(t) && DistinctNodes(s)
    ensures Select(o, s, seed, epoch, slot, networkSize, history)
         == Select(o, t, seed, epoch, slot, networkSize, history)
  {
    var tier := TierFor(networkSize);
    var poolS, poolT := Pool(s, tier, history), Pool(t, tier, history);
    var candS, candT := Candidates(o, seed, epoch, poolS), Candidates(o, seed, epoch, poolT);
    FilterPermuted(s, t, IsEligible);
    PoolPermuted(s, t, tier, history);
    CandidatesPermuted(o, seed, epoch, poolS, poolT);
    PoolDistinct(s, tier, history);
    CandidatesDistinct(o, seed, epoch, poolS);
    SortKeeps(candS);
    SortDistinct(candS);
    SortKeeps(candT);
    SortedIsUnique(Sort(candS), Sort(candT));
  }

  lemma AgreementFromList(o: Oracle, s: seq<EligibleNode>, t: seq<EligibleNode>, seed: Digest, epoch: nat, slot: nat)
    requires multiset(s) == multiset(t) && DistinctNodes(s)
    ensures SelectFromList(o, s, seed, epoch, slot) == SelectFromList(o, t, seed, epoch, slot)
  {
    FilterPermuted(s, t, IsEligible);
    Agreement(o, s, t, seed, epoch, slot, |Filter(s, IsEligible)|, None);
  }

  /** One member may stand before another: its value is lower, or the same with an id that is not higher. */
  predicate GoesFirst(a: Member, b: Member) {
    a.selectionValue <= b.selectionValue && (a.selectionValue == b.selectionValue ==> a.nodeId <= b.nodeId)
  }

  /** The members are the lowest tickets of the pool: sorted, as many as the tier asks for or the
      pool has, and no candidate left out precedes a member. */
  lemma LowestTicketsWin(o: Oracle, nodes: seq<EligibleNode>, seed: Digest, epoch: nat, slot: nat,
                         networkSize: nat, history: Option<seq<seq<NodeId>>>)
    requires Select(o, nodes, seed, epoch, slot, networkSize, history).Ok?
    ensures var members := Select(o, nodes, seed, epoch, slot, networkSize, history).value.members;
            var candidates := Candidates(o, seed, epoch, Pool(nodes, TierFor(networkSize), history));
            && (forall i, j :: 0 <= i < j < |members| ==> GoesFirst(members[i], members[j]))
            && |members| == Min(TierFor(networkSize).committeeSize, |candidates|)
            && multiset(members) <= multiset(candidates)
            && forall m, c :: m in members && c in multiset(candidates) - multiset(members) ==> GoesFirst(m, c)
  {
    var candidates := Candidates(o, seed, epoch, Pool(nodes, TierFor(networkSize), history));
    SortKeeps(candidates);
    PrefixIsLowest(Sort(candidates), Min(TierFor(networkSize).committeeSize, |candidates|));
  }

  lemma PrefixIsLowest(sorted: seq<Member>, k: nat)
    requires Sorted(sorted) && k <= |sorted|
    ensures multiset(sorted[..k]) <= multiset(sorted)
    ensures forall i, j :: 0 <= i < j < k ==> GoesFirst(sorted[..k][i], sorted[..k][j])
    ensures forall m, c :: m in sorted[..k] && c in multiset(sorted) - multiset(sorted[..k]) ==> GoesFirst(m, c)
  {
    assert sorted == sorted[..k] + sorted[k..];
    assert multiset(sorted) - multiset(sorted[..k]) == multiset(sorted[k..]);
    forall m, c | m in sorted[..k] && c in multiset(sorted[k..])
      ensures GoesFirst(m, c)
    {
      assert c in sorted[k..];
    }
  }

  // ------------------------------------------------------ score monotonicity

  /** How many candidates come strictly before a given one. */
  function Rank(s: seq<Member>, m: Member): nat {
    if s == [] then 0 else Rank(s[1..], m) + if AtMost(m, s[0]) then 0 else 1
  }

  lemma {:induction false} RankInsert(x: Member, s: seq<Member>, m: Member)
    ensures Rank(Insert(x, s), m) == Rank(s, m) + if AtMost(m, x) then 0 else 1
  {
    if s == [] {
      assert Insert(x, s) == [x] && [x][1..] == [];
    } else if AtMost(x, s[0]) {
      assert ([x] + s)[1..] == s;
    } else {
      RankInsert(x, s[1..], m);
      assert ([s[0]] + Insert(x, s[1..]))[1..] == Insert(x, s[1..]);
    }
  }

  lemma {:induction false} RankAppend(s: seq<Member>, x: Member, m: Member)
    ensures Rank(s + [x], m) == Rank(s, m) + if AtMost(m, x) then 0 else 1
  {
    if s == [] {
      assert s + [x] == [x] && [x][1..] == [];
    } else {
      RankAppend(s[1..], x, m);
      assert (s + [x])[1..] == s[1..] + [x];
    }
  }

  lemma {:induction false} RankSort(s: seq<Member>, m: Member)
    ensures Rank(Sort(s), m) == Rank(s, m)
  {
    if s != [] {
      var n := |s| - 1;
      RankSort(s[..n], m);
      RankInsert(s[n], Sort(s[..n]), m);
      RankAppend(s[..n], s[n], m);
      assert s == s[..n] + [s[n]];
    }
  }

  /** In a sorted list without repeated ids the rank is the index. */
  lemma {:induction false} RankIsIndex(s: seq<Member>, i: nat)
    requires Sorted(s) && DistinctMembers(s) && i < |s|
    ensures Rank(s, s[i]) == i
  {
    if i == 0 {
      RankZero(s[1..], s[0]);
    } else {
      RankIsIndex(s[1..], i - 1);
      assert AtMost(s[0], s[i]);
    }
  }

  lemma {:induction false} RankZero(s: seq<Member>, m: Member)
    requires forall x <- s :: AtMost(m, x)
    ensures Rank(s, m) == 0
  {
    if s != [] {
      RankZero(s[1..], m);
    }
  }

  /** One node's presence score replaced, everything else as it was. */
  function Raise(n: EligibleNode, id: NodeId, score: nat): EligibleNode {
    if n.nodeId == id then n.(presenceScore := score) else n
  }

  function RaiseAll(s: seq<EligibleNode>, id: NodeId, score: nat): seq<EligibleNode> {
    if s == [] then [] else RaiseAll(s[..|s| - 1], id, score) + [Raise(s[|s| - 1], id, score)]
  }

  /** The list in which node i has its score replaced is `RaiseAll` of the list. */
  lemma RaiseAllIsUpdate(s: seq<EligibleNode>, i: nat, score: nat)
    requires i < |s| && forall j :: 0 <= j < |s| && j != i ==> s[j].nodeId != s[i].nodeId
    ensures RaiseAll(s, s[i].nodeId, score) == s[i := s[i].(presenceScore := score)]
  {
    RaiseAllAt(s, s[i].nodeId, score);
  }

  lemma {:induction false} RaiseAllAt(s: seq<EligibleNode>, id: NodeId, score: nat)
    ensures |RaiseAll(s, id, score)| == |s|
    ensures forall j :: 0 <= j < |s| ==> RaiseAll(s, id, score)[j] == Raise(s[j], id, score)
  {
    if s != [] {
      RaiseAllAt(s[..|s| - 1], id, score);
    }
  }

  ghost predicate Insensitive(s: seq<EligibleNode>, p: EligibleNode -> bool, id: NodeId, score: nat) {
    forall n <- s :: p(Raise(n, id, score)) == p(n)
  }

  lemma {:induction false} FilterRaise(s: seq<EligibleNode>, p: EligibleNode -> bool, id: NodeId, score: nat)
    requires Insensitive(s, p, id, score)
    ensures Filter(RaiseAll(s, id, score), p) == RaiseAll(Filter(s, p), id, score)
    ensures |Filter(RaiseAll(s, id, score), p)| == |Filter(s, p)|
  {
    if s != [] {
      var n := |s| - 1;
      FilterRaise(s[..n], p, id, score);
      var r := RaiseAll(s, id, score);
      assert r[..|r| - 1] == RaiseAll(s[..n], id, score);
      var f := Filter(s[..n], p);
      assert (f + [s[n]])[..|f|] == f;
    }
    RaiseAllAt(Filter(s, p), id, score);
  }

  /** A score that stays at 40 or above leaves every filter decision as it was. */
  lemma PoolRaise(s: seq<EligibleNode>, id: NodeId, score: nat, tier: Tier, history: Option<seq<seq<NodeId>>>)
    requires score >= 40 && forall n <- s :: n.nodeId == id ==> n.presenceScore >= 40
    ensures Pool(RaiseAll(s, id, score), tier, history) == RaiseAll(Pool(s, tier, history), id, score)
  {
    FilterRaise(s, IsCommitteeEligible, id, score);
    FilterRaise(s, IsEligible, id, score);
    if history.Some? {
      var p := (n: EligibleNode) => !InCooldown(history.value, n.nodeId, tier.cooldownRounds);
      FilterRaise(Filter(s, IsCommitteeEligible), p, id, score);
      FilterRaise(Filter(s, IsEligible), p, id, score);
    }
  }

  /** Dividing the same ticket by a higher score gives no larger value. */
  lemma SelectionValueAntitone(output: Digest, low: nat, high: nat)
    requires low <= high
    ensures SelectionValue(output, high) <= SelectionValue(output, low)
  {
    DivAntitone(LittleEndian(output[..8]), Clamp(low), Clamp(high));
  }

  lemma DivAntitone(x: nat, a: nat, b: nat)
    requires 0 < a <= b
    ensures x / b <= x / a
  {
    var q, r := x / a, x / b;
    assert x < (q + 1) * a by { DivBounds(x, a); }
    assert r * b <= x by { DivBounds(x, b); }
    MulMonotone(a, b, r);
    if r > q {
      MulMonotone(q + 1, r, a);
    }
  }

  /** A member whose score rose: same node, lower or equal value. */
  ghost predicate Better(m: Member, m': Member) {
    m'.nodeId == m.nodeId && m'.selectionValue <= m.selectionValue
  }

  /** Candidate by candidate, the raised list differs only in the raised node, which got better. */
  lemma {:induction false} CandidatesRaise(o: Oracle, seed: Digest, epoch: nat, s: seq<EligibleNode>, id: NodeId,
                                           score: nat)
    requires forall n <- s :: n.nodeId == id ==> n.presenceScore <= score
    ensures var c, d := Candidates(o, seed, epoch, s), Candidates(o, seed, epoch, RaiseAll(s, id, score));
            |c| == |d| && forall j :: 0 <= j < |c| ==> Better(c[j], d[j]) && (c[j].nodeId != id ==> c[j] == d[j])
  {
    if s != [] {
      var n := |s| - 1;
      CandidatesRaise(o, seed, epoch, s[..n], id, score);
      var r := RaiseAll(s, id, score);
      assert r[..|r| - 1] == RaiseAll(s[..n], id, score) && r[|r| - 1] == Raise(s[n], id, score);
      match Ticket(o, seed, epoch, s[n])
      case None =>
      case Some(output) =>
        if s[n].nodeId == id {
          SelectionValueAntitone(output, s[n].presenceScore, score);
        }
    }
  }

  /** Improving one entry cannot worsen its own rank. */
  lemma {:induction false} RankImproves(c: seq<Member>, d: seq<Member>, m: Member, m': Member)
    requires Better(m, m') && |c| == |d|
    requires forall j :: 0 <= j < |c| ==>
        (c[j].nodeId != m.nodeId ==> c[j] == d[j]) && (c[j].nodeId == m.nodeId ==> d[j] == m')
    ensures Rank(d, m') <= Rank(c, m)
  {
    if c != [] {
      RankImproves(c[1..], d[1..], m, m');
    }
  }

  /** A seat is held exactly by rank: an entry of rank below k is among the first k. */
  lemma SeatByRank(c: seq<Member>, m: Member, k: nat) returns (i: nat)
    requires DistinctMembers(c) && m in c && Rank(c, m) < k
    ensures i < |Sort(c)| && i < k && Sort(c)[i] == m
  {
    SortKeeps(c);
    SortDistinct(c);
    assert m in multiset(Sort(c));
    i :| 0 <= i < |Sort(c)| && Sort(c)[i] == m;
    RankIsIndex(Sort(c), i);
    RankSort(c, m);
  }

  /** A member and the node it was made from: same id, keys and score, and an output that is the node's
      verified proof or, without a proof, the hash of seed, epoch and id. */
  predicate MadeFrom(o: Oracle, seed: Digest, epoch: nat, n: EligibleNode, m: Member) {
    && m.nodeId == n.nodeId && m.vrfPubkey == n.vrfPubkey && m.presenceScore == n.presenceScore
    && m.proofBytes == n.vrfProof && m.signingPubkey == n.signingPubkey
    && (n.vrfProof != [] ==> o.verify(n.vrfPubkey, seed, epoch, n.vrfProof) == Some(m.output))
    && (n.vrfProof == [] ==> m.output == o.hash(seed, epoch, n.nodeId))
  }

  /** Every member was made from a node of the list that has valid proof of life, stake and a score of 40. */
  lemma MembersAreEligible(o: Oracle, nodes: seq<EligibleNode>, seed: Digest, epoch: nat, slot: nat, networkSize: nat,
                           history: Option<seq<seq<NodeId>>>, m: Member) returns (n: EligibleNode)
    requires var r := Select(o, nodes, seed, epoch, slot, networkSize, history); r.Ok? && m in r.value.members
    ensures n in nodes && MadeFrom(o, seed, epoch, n, m)
    ensures m.selectionValue == SelectionValue(m.output, n.presenceScore)
    ensures n.hasValidPol && n.meetsMinimumStake && n.presenceScore >= 40
  {
    var pool := Pool(nodes, TierFor(networkSize), history);
    var candidates := Candidates(o, seed, epoch, pool);
    SortKeeps(candidates);
    assert m in multiset(Sort(candidates)) && m in multiset(candidates);
    CandidateHasSource(o, seed, epoch, pool, m);
    n :| n in pool && Candidate(o, seed, epoch, n) == Some(m);
    PoolWithin(nodes, TierFor(networkSize), history);
  }

  /** Raising one node's presence score, all else equal, never costs it its seat. */
  lemma ScoreMonotonicity(o: Oracle, nodes: seq<EligibleNode>, i: nat, score: nat, seed: Digest, epoch: nat, slot: nat,
                          networkSize: nat, history: Option<seq<seq<NodeId>>>)
    requires DistinctNodes(nodes) && i < |nodes| && nodes[i].presenceScore <= score
    requires var r := Select(o, nodes, seed, epoch, slot, networkSize, history);
             r.Ok? && exists m :: m in r.value.members && m.nodeId == nodes[i].nodeId
    ensures var r := Select(o, nodes[i := nodes[i].(presenceScore := score)], seed, epoch, slot, networkSize, history);
            r.Ok? && exists m :: m in r.value.members && m.nodeId == nodes[i].nodeId
  {
    var id, tier := nodes[i].nodeId, TierFor(networkSize);
    var pool := Pool(nodes, tier, history);
    var c := Candidates(o, seed, epoch, pool);
    var m :| m in Select(o, nodes, seed, epoch, slot, networkSize, history).value.members && m.nodeId == id;
    var n := MembersAreEligible(o, nodes, seed, epoch, slot, networkSize, history, m);
    assert n == nodes[i];
    RaiseAllIsUpdate(nodes, i, score);
    PoolRaise(nodes, id, score, tier, history);
    FilterRaise(nodes, IsEligible, id, score);
    PoolDistinct(nodes, tier, history);
    PoolWithin(nodes, tier, history);
    CandidatesDistinct(o, seed, epoch, pool);
    RaisedSeat(o, seed, epoch, pool, id, score, m, tier.committeeSize);
  }

  lemma PoolWithin(nodes: seq<EligibleNode>, tier: Tier, history: Option<seq<seq<NodeId>>>)
    ensures forall n <- Pool(nodes, tier, history) :: n in nodes && IsEligible(n)
  {
    FilterWithin(nodes, IsCommitteeEligible);
    FilterWithin(nodes, IsEligible);
    if history.Some? {
      var p := (n: EligibleNode) => !InCooldown(history.value, n.nodeId, tier.cooldownRounds);
      FilterWithin(Filter(nodes, IsCommitteeEligible), p);
      FilterWithin(Filter(nodes, IsEligible), p);
    }
  }

  lemma {:induction false} FilterWithin<T>(s: seq<T>, p: T -> bool)
    ensures forall x <- Filter(s, p) :: x in s && p(x)
  {
    if s != [] {
      FilterWithin(s[..|s| - 1], p);
    }
  }

  /** An entry among the first k of the sorted list has rank below k. */
  lemma RankOfSeat(c: seq<Member>, m: Member, k: nat)
    requires DistinctMembers(c) && k <= |Sort(c)| && m in Sort(c)[..k]
    ensures m in c && Rank(c, m) < k
  {
    var i :| 0 <= i < k && Sort(c)[i] == m;
    SortKeeps(c);
    SortDistinct(c);
    RankIsIndex(Sort(c), i);
    RankSort(c, m);
    assert m in multiset(c);
  }

  /** The seat of a raised node in the raised pool. */
  lemma RaisedSeat(o: Oracle, seed: Digest, epoch: nat, pool: seq<EligibleNode>, id: NodeId, score: nat, m: Member,
                   size: nat)
    requires DistinctNodes(pool) && forall n <- pool :: n.nodeId == id ==> n.presenceScore <= score
    requires var sorted := Sort(Candidates(o, seed, epoch, pool));
             m in sorted[..Min(size, |sorted|)] && m.nodeId == id
    ensures var sorted := Sort(Candidates(o, seed, epoch, RaiseAll(pool, id, score)));
            exists m' :: m' in sorted[..Min(size, |sorted|)] && m'.nodeId == id
  {
    var c, d := Candidates(o, seed, epoch, pool), Candidates(o, seed, epoch, RaiseAll(pool, id, score));
    CandidatesDistinct(o, seed, epoch, pool);
    CandidatesRaise(o, seed, epoch, pool, id, score);
    SeatKept(c, d, m, size);
  }

  /** If the entries of one node only got better, the node keeps its seat. */
  lemma SeatKept(c: seq<Member>, d: seq<Member>, m: Member, size: nat)
    requires DistinctMembers(c) && |c| == |d| && m in Sort(c)[..Min(size, |Sort(c)|)]
    requires forall j :: 0 <= j < |c| ==> Better(c[j], d[j]) && (c[j].nodeId != m.nodeId ==> c[j] == d[j])
    ensures exists m' :: m' in Sort(d)[..Min(size, |Sort(d)|)] && m'.nodeId == m.nodeId
  {
    SortLength(c);
    SortLength(d);
    var k := Min(size, |c|);
    RankOfSeat(c, m, k);
    SameNodesDistinct(c, d);
    var m' := ImprovedEntry(c, d, m);
    var seat := SeatByRank(d, m', k);
    assert Sort(d)[seat] in Sort(d)[..k];
  }

  lemma ImprovedEntry(c: seq<Member>, d: seq<Member>, m: Member) returns (m': Member)
    requires DistinctMembers(c) && |c| == |d| && m in c
    requires forall j :: 0 <= j < |c| ==> Better(c[j], d[j]) && (c[j].nodeId != m.nodeId ==> c[j] == d[j])
    ensures m' in d && m'.nodeId == m.nodeId && Rank(d, m') <= Rank(c, m)
  {
    var j :| 0 <= j < |c| && c[j] == m;
    m' := d[j];
    RankImproves(c, d, m, m');
  }

  lemma SameNodesDistinct(c: seq<Member>, d: seq<Member>)
    requires DistinctMembers(c) && |c| == |d| && forall j :: 0 <= j < |c| ==> Better(c[j], d[j])
    ensures DistinctMembers(d)
  {
    assert forall i :: 0 <= i < |c| ==> c[i].nodeId == d[i].nodeId;
  }

  lemma SortLength(c: seq<Member>)
    ensures |Sort(c)| == |c|
  {
    SortKeeps(c);
  }
}
