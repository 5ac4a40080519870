/** What a node does when it hears the votes of a whole quorum, up to the finality of a middle block. */
module StreamletQuorum {
  import opened Identifiers
  import opened Streamlet
  import opened StreamletNetwork
  import opened Counting

  // ------------------------------------------------ a node that hears a quorum

  /** The state after a sequence of votes was delivered. */
  function Fed(s: State, votes: seq<Vote>): State {
    if votes == [] then s else AddVote(Fed(s, votes[..|votes| - 1]), votes[|votes| - 1]).0
  }

  function Remote(remote: map<(nat, NodeId), Hash>, votes: seq<Vote>): map<(nat, NodeId), Hash> {
    if votes == [] then remote
    else
      var v := votes[|votes| - 1];
      Remote(remote, votes[..|votes| - 1])[(v.epoch, v.validator) := v.blockHash]
  }

  /** Distinct validators' votes of one epoch for one block. */
  ghost predicate BallotsFor(votes: seq<Vote>, k: Hash, epoch: nat) {
    OneVoteEach(votes) && forall v <- votes :: v.blockHash == k && v.epoch == epoch
  }

  /** Nothing was heard about this block or this epoch. */
  ghost predicate Unheard(s: State, k: Hash, epoch: nat) {
    && k in s.proposed && s.proposed[k].votes == [] && !s.proposed[k].notarized
    && forall x <- s.remoteVotes :: x.0 != epoch
  }

  function Tallied(s: State, k: Hash, votes: seq<Vote>): State
    requires k in s.proposed
  {
    s.(proposed := s.proposed[k := s.proposed[k].(votes := votes)], remoteVotes := Remote(s.remoteVotes, votes))
  }

  function Quorate(s: State, k: Hash, votes: seq<Vote>): State
    requires k in s.proposed
  {
    var height := s.proposed[k].header.height;
    s.(proposed := s.proposed[k := s.proposed[k].(votes := votes, notarized := true)],
       remoteVotes := Remote(s.remoteVotes, votes),
       highestNotarized := if height > s.highestNotarized then height else s.highestNotarized)
  }

  lemma {:induction false} RemoteOfEpoch(remote: map<(nat, NodeId), Hash>, votes: seq<Vote>, k: Hash, epoch: nat)
    requires (forall v <- votes :: v.blockHash == k && v.epoch == epoch) && forall x <- remote :: x.0 != epoch
    ensures forall x <- Remote(remote, votes) :: if x.0 == epoch then Remote(remote, votes)[x] == k else x in remote
  {
    if votes != [] {
      RemoteOfEpoch(remote, votes[..|votes| - 1], k, epoch);
    }
  }

  lemma NotEquivocating(s: State, k: Hash, epoch: nat, votes: seq<Vote>, v: Vote)
    requires Unheard(s, k, epoch) && BallotsFor(votes, k, epoch) && v.blockHash == k && v.epoch == epoch
    ensures !Equivocates(Tallied(s, k, votes), v)
  {
    RemoteOfEpoch(s.remoteVotes, votes, k, epoch);
  }

  lemma OneMoreTallied(s: State, k: Hash, epoch: nat, votes: seq<Vote>)
    requires Unheard(s, k, epoch) && BallotsFor(votes, k, epoch) && 0 < |votes| < Threshold(s.committeeSize)
    ensures AddVote(Tallied(s, k, votes[..|votes| - 1]), votes[|votes| - 1]).0 == Tallied(s, k, votes)
  {
    var n := |votes| - 1;
    NotEquivocating(s, k, epoch, votes[..n], votes[n]);
    assert votes == votes[..n] + [votes[n]];
    var t, p := Tallied(s, k, votes[..n]), s.proposed[k].(votes := votes);
    assert CountVote(t.proposed[k], votes[n], s.committeeSize) == (p, false);
    assert t.proposed[k := p] == s.proposed[k := p];
  }

  /** Below the threshold votes only accumulate. */
  lemma {:induction false} FedBelowQuorum(s: State, k: Hash, epoch: nat, votes: seq<Vote>)
    requires Unheard(s, k, epoch) && BallotsFor(votes, k, epoch) && |votes| < Threshold(s.committeeSize)
    ensures Fed(s, votes) == Tallied(s, k, votes)
  {
    if votes == [] {
      assert s.proposed[k := s.proposed[k].(votes := [])] == s.proposed;
    } else {
      FedBelowQuorum(s, k, epoch, votes[..|votes| - 1]);
      OneMoreTallied(s, k, epoch, votes);
    }
  }

  lemma LastVoteNotarizes(s: State, k: Hash, epoch: nat, votes: seq<Vote>)
    requires Unheard(s, k, epoch) && BallotsFor(votes, k, epoch) && |votes| == Threshold(s.committeeSize) >= 1
    ensures var t, v := Tallied(s, k, votes[..|votes| - 1]), votes[|votes| - 1];
            Notarizes(t, v) && Counted(t, v) == Quorate(s, k, votes)
  {
    var n := |votes| - 1;
    NotEquivocating(s, k, epoch, votes[..n], votes[n]);
    assert votes == votes[..n] + [votes[n]];
    var t, p := Tallied(s, k, votes[..n]), s.proposed[k].(votes := votes, notarized := true);
    assert CountVote(t.proposed[k], votes[n], s.committeeSize) == (p, true);
    assert t.proposed[k := p] == s.proposed[k := p];
  }

  /** The vote that completes the quorum notarizes the block and triggers the finality check. */
  lemma FedQuorum(s: State, k: Hash, epoch: nat, votes: seq<Vote>)
    requires Unheard(s, k, epoch) && BallotsFor(votes, k, epoch) && |votes| == Threshold(s.committeeSize) >= 1
    ensures Fed(s, votes) == CheckFinality(Quorate(s, k, votes)).0
  {
    var n := |votes| - 1;
    FedBelowQuorum(s, k, epoch, votes[..n]);
    LastVoteNotarizes(s, k, epoch, votes);
  }

  lemma QuorateKeepsIndex(s: State, k: Hash, votes: seq<Vote>)
    requires IndexAgrees(s) && k in s.proposed
    ensures IndexAgrees(Quorate(s, k, votes))
  {
    var t := Quorate(s, k, votes);
    assert t.byHeight == s.byHeight && t.proposed.Keys == s.proposed.Keys;
    assert forall x <- s.proposed ::
      t.proposed[x].header == s.proposed[x].header && t.proposed[x].blockHash == s.proposed[x].blockHash;
  }

  ghost predicate TipBounds(s: State) {
    forall k <- s.proposed :: s.proposed[k].notarized ==> s.proposed[k].header.height <= s.highestNotarized
  }

  lemma NoTripleAboveTip(s: State, h: nat)
    requires IndexAgrees(s) && TipBounds(s) && h + 2 > s.highestNotarized
    ensures !Triple(s, h)
  {
    NotarizedAtIsStored(s, h + 2);
  }

  /** Two notarized heights above the finalized one are not enough. */
  lemma NoTripleYet(s: State)
    requires IndexAgrees(s) && TipBounds(s) && s.highestNotarized <= s.finalizedHeight + 2
    ensures CheckFinality(s) == (s, None)
  {
    forall h: nat | s.finalizedHeight + 1 <= h < s.highestNotarized ensures !Triple(s, h) {
      NoTripleAboveTip(s, h);
    }
  }

  /** Three in a row finalize the middle one. */
  lemma TripleFinalizes(s: State, a: Hash, m: Hash, d: Hash)
    requires Complete(s, a, m, d)
    ensures var (t, h) := CheckFinality(s);
            h.Some? && t.finalizedHeight == s.finalizedHeight + 2 && t.finalizedHash == m
  {
    var h := s.finalizedHeight + 1;
    NotarizedAtIsStored(s, h);
    NotarizedAtIsStored(s, h + 1);
    NotarizedAtIsStored(s, h + 2);
    assert Triple(s, h);
  }

  // ---------------------------------------------------- a node on its way there

  /** The blocks a node knows, those it heard no vote for, its tip, and bounds on the epochs it heard
      votes of and voted in. */
  datatype View = View(known: set<Hash>, unheard: set<Hash>, tip: nat, heard: nat, voted: nat)

  /** A node with this view that has finalized nothing. */
  ghost predicate Ready(c: Config, s: State, v: View) {
    && IndexAgrees(s) && TipBounds(s) && s.committeeSize == |c.committee|
    && s.finalizedHeight == c.base && s.highestNotarized == v.tip >= c.base && s.proposed.Keys == v.known
    && (forall k <- v.known :: s.proposed[k].header == c.headerOf(k))
    && (forall k <- v.unheard :: k in v.known && s.proposed[k].votes == [] && !s.proposed[k].notarized)
    && (forall x <- s.remoteVotes :: x.0 <= v.heard)
    && (forall e <- s.votedEpochs :: e <= v.voted)
  }

  function Announced(c: Config, s: State, k: Hash): State { AddProposal(s, c.headerOf(k), k, 0) }

  lemma AnnouncedReady(c: Config, s: State, v: View, k: Hash)
    requires Ready(c, s, v) && k !in v.known
    ensures Ready(c, Announced(c, s, k), v.(known := v.known + {k}, unheard := v.unheard + {k}))
  {
    AddProposalKeepsIndex(s, c.headerOf(k), k, 0);
  }

  lemma QuorateReady(c: Config, s: State, v: View, k: Hash, e: nat, votes: seq<Vote>)
    requires Ready(c, s, v) && k in v.unheard && HeightOf(c, k) == v.tip + 1 && v.heard < e && BallotsFor(votes, k, e)
    ensures Ready(c, Quorate(s, k, votes), v.(unheard := v.unheard - {k}, tip := v.tip + 1, heard := e))
    ensures StoredNotarized(Quorate(s, k, votes), k, v.tip + 1)
    ensures forall x, h: nat :: StoredNotarized(s, x, h) ==> StoredNotarized(Quorate(s, k, votes), x, h)
  {
    QuorateKeepsIndex(s, k, votes);
    RemoteOfEpoch(s.remoteVotes, votes, k, e);
  }

  ghost predicate Quorum(c: Config, votes: seq<Vote>, k: Hash, e: nat) {
    BallotsFor(votes, k, e) && |votes| == Threshold(|c.committee|) >= 1
  }

  /** A quorum for the next height, up to two above the finalized one, moves the tip and no more. */
  lemma FedReady(c: Config, s: State, v: View, k: Hash, e: nat, votes: seq<Vote>)
    requires Ready(c, s, v) && k in v.unheard && HeightOf(c, k) == v.tip + 1 <= c.base + 2
    requires v.heard < e && Quorum(c, votes, k, e)
    ensures Ready(c, Fed(s, votes), v.(unheard := v.unheard - {k}, tip := v.tip + 1, heard := e))
    ensures StoredNotarized(Fed(s, votes), k, v.tip + 1)
    ensures forall x, h: nat :: StoredNotarized(s, x, h) ==> StoredNotarized(Fed(s, votes), x, h)
  {
    QuorateReady(c, s, v, k, e, votes);
    FedQuorum(s, k, e, votes);
    NoTripleYet(Quorate(s, k, votes));
  }

  /** A block at each of the three heights above the starting block. */
  predicate Ladder(c: Config, a: Hash, m: Hash, d: Hash) {
    HeightOf(c, a) == c.base + 1 && HeightOf(c, m) == c.base + 2 && HeightOf(c, d) == c.base + 3
  }

  /** A node that was told of some blocks and has heard no vote. */
  function Told(c: Config, blocks: set<Hash>): View { View(blocks, blocks, c.base, 0, 0) }

  lemma ThreeBlocks(a: Hash, b: Hash, d: Hash)
    ensures Elements([a, b, d]) == {a, b, d}
  {
    var s := [a, b, d];
    assert s[0] == a && s[1] == b && s[2] == d;
  }

  lemma FourBlocks(a: Hash, b: Hash, d: Hash, e: Hash)
    ensures Elements([a, b, d, e]) == {a, b, d, e}
  {
    var s := [a, b, d, e];
    assert s[0] == a && s[1] == b && s[2] == d && s[3] == e;
  }

  function Start(c: Config): State { Initial(|c.committee|, c.base, c.baseHash) }

  /** Three notarized heights, with a single block at the middle one. */
  ghost predicate Complete(s: State, a: Hash, m: Hash, d: Hash) {
    && IndexAgrees(s) && s.highestNotarized == s.finalizedHeight + 3
    && StoredNotarized(s, a, s.finalizedHeight + 1) && StoredNotarized(s, m, s.finalizedHeight + 2)
    && StoredNotarized(s, d, s.finalizedHeight + 3)
    && forall k <- s.proposed :: s.proposed[k].header.height == s.finalizedHeight + 2 ==> k == m
  }

  /** The middle block is the only known one of its height, and both lower blocks are notarized. */
  ghost predicate OneShort(c: Config, s: State, v: View, a: Hash, m: Hash, d: Hash) {
    && Ladder(c, a, m, d) && v.tip == c.base + 2 && d in v.unheard
    && StoredNotarized(s, a, c.base + 1) && StoredNotarized(s, m, c.base + 2)
    && forall k <- v.known :: HeightOf(c, k) == c.base + 2 ==> k == m
  }

  lemma QuorateComplete(c: Config, s: State, v: View, a: Hash, m: Hash, d: Hash, D: seq<Vote>, e: nat)
    requires Ready(c, s, v) && OneShort(c, s, v, a, m, d) && v.heard < e && Quorum(c, D, d, e)
    ensures Complete(Quorate(s, d, D), a, m, d) && Quorate(s, d, D).finalizedHeight == c.base
  {
    QuorateReady(c, s, v, d, e, D);
  }

  /** A ready node that has notarized two heights finalizes the second when it hears a quorum for a third. */
  lemma ThirdQuorumFinalizes(c: Config, s: State, v: View, a: Hash, m: Hash, d: Hash, D: seq<Vote>, e: nat)
    requires Ready(c, s, v) && OneShort(c, s, v, a, m, d) && v.heard < e && Quorum(c, D, d, e)
    ensures Fed(s, D) == CheckFinality(Quorate(s, d, D)).0 && CheckFinality(Quorate(s, d, D)).1.Some?
    ensures Fed(s, D).finalizedHeight == c.base + 2 && Fed(s, D).finalizedHash == m
  {
    FedQuorum(s, d, e, D);
    QuorateComplete(c, s, v, a, m, d, D, e);
    TripleFinalizes(Quorate(s, d, D), a, m, d);
  }
}
