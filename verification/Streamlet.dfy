/** One node of the Streamlet protocol (gratia-consensus/src/streamlet.rs) as a
    transition system on values. `StreamletNode.dfy` holds the mutable class that
    refines it and `StreamletNetwork.dfy` runs many nodes against each other. */
module Streamlet {
  import opened Identifiers
  import opened Counting

  datatype Vote = Vote(epoch: nat, blockHash: Hash, height: nat, validator: NodeId)

  datatype Header = Header(height: nat, parent: Hash)

  datatype ProposedBlock = ProposedBlock(header: Header, blockHash: Hash, epoch: nat, votes: seq<Vote>, notarized: bool)

  datatype State = State(
    committeeSize: nat,
    proposed: map<Hash, ProposedBlock>,
    byHeight: map<nat, seq<Hash>>,
    finalizedHeight: nat,
    finalizedHash: Hash,
    votedEpochs: map<nat, Hash>,
    highestNotarized: nat,
    remoteVotes: map<(nat, NodeId), Hash>)

  /** Epochs this far behind the newest one are forgotten. */
  const EPOCH_WINDOW := 100

  // ------------------------------------------------------------------- steps

  /** Votes needed for notarization: two thirds of the committee, rounded up. */
  function Threshold(committeeSize: nat): nat {
    (committeeSize * 2 + 2) / 3
  }

  /** It is the least number of votes that makes up two thirds of the committee. */
  lemma ThresholdIsTwoThirds(committeeSize: nat)
    ensures 3 * Threshold(committeeSize) >= 2 * committeeSize
    ensures forall votes: nat :: votes >= Threshold(committeeSize) <==> 3 * votes >= 2 * committeeSize
  {
  }

  predicate HasVoted(votes: seq<Vote>, validator: NodeId) {
    exists i :: 0 <= i < |votes| && votes[i].validator == validator
  }

  /** Adds a vote to one block; the flag says whether the block just became notarized. */
  function CountVote(p: ProposedBlock, v: Vote, committeeSize: nat): (ProposedBlock, bool) {
    if HasVoted(p.votes, v.validator) then (p, false)
    else
      var counted := p.(votes := p.votes + [v]);
      if !p.notarized && |counted.votes| >= Threshold(committeeSize) then (counted.(notarized := true), true)
      else (counted, false)
  }

  /** The state of a node that starts from a finalized block. */
  function Initial(committeeSize: nat, height: nat, hash: Hash): State {
    State(committeeSize, map[], map[], height, hash, map[], height, map[])
  }

  function AddProposal(s: State, header: Header, hash: Hash, epoch: nat): State {
    if hash in s.proposed then s
    else
      var siblings := if header.height in s.byHeight then s.byHeight[header.height] else [];
      s.(proposed := s.proposed[hash := ProposedBlock(header, hash, epoch, [], false)],
         byHeight := s.byHeight[header.height := siblings + [hash]])
  }

  predicate ShouldVote(s: State, hash: Hash, epoch: nat) {
    && epoch !in s.votedEpochs
    && hash in s.proposed
    && var height := s.proposed[hash].header.height;
       && height > s.finalizedHeight
       && (height == s.highestNotarized + 1 || height == s.finalizedHeight + 1)
  }

  function RecordVote(s: State, epoch: nat, hash: Hash): State {
    s.(votedEpochs := s.votedEpochs[epoch := hash])
  }

  /** The first hash of a list whose block is stored and notarized. */
  function FirstNotarized(proposed: map<Hash, ProposedBlock>, hashes: seq<Hash>): Option<Hash> {
    if hashes == [] then None
    else if hashes[0] in proposed && proposed[hashes[0]].notarized then Some(hashes[0])
    else FirstNotarized(proposed, hashes[1..])
  }

  function NotarizedAt(s: State, height: nat): Option<Hash> {
    if height in s.byHeight then FirstNotarized(s.proposed, s.byHeight[height]) else None
  }

  /** Three consecutive heights hold notarized blocks. Parent links are not examined. */
  predicate Triple(s: State, h: nat) {
    NotarizedAt(s, h).Some? && NotarizedAt(s, h + 1).Some? && NotarizedAt(s, h + 2).Some?
  }

  /** The first triple at or above `h` within the scanned range. */
  function FirstTriple(s: State, h: nat): (t: Option<nat>)
    ensures t.Some? ==> h <= t.value < s.highestNotarized && Triple(s, t.value)
    decreases s.highestNotarized - h
  {
    if h >= s.highestNotarized then None
    else if Triple(s, h) then Some(h)
    else FirstTriple(s, h + 1)
  }

  /** No triple lies below the one found, and none in the range if none is found. */
  lemma {:induction false} FirstTripleIsLowest(s: State, h: nat)
    ensures match FirstTriple(s, h)
            case Some(t) => h <= t < s.highestNotarized && Triple(s, t) && forall k :: h <= k < t ==> !Triple(s, k)
            case None => forall k :: h <= k < s.highestNotarized ==> !Triple(s, k)
    decreases s.highestNotarized - h
  {
    if h < s.highestNotarized && !Triple(s, h) {
      FirstTripleIsLowest(s, h + 1);
    }
  }

  /** A key is kept when no key of the map is more than the window ahead of it. */
  predicate RecentVoted(voted: map<nat, Hash>, epoch: nat) {
    forall e <- voted :: e <= epoch + EPOCH_WINDOW
  }

  predicate RecentRemote(remote: map<(nat, NodeId), Hash>, epoch: nat) {
    forall k <- remote :: k.0 <= epoch + EPOCH_WINDOW
  }

  predicate ListedUnder(byHeight: map<nat, seq<Hash>>, heights: set<nat>, hash: Hash) {
    exists h :: h in heights && h in byHeight && hash in byHeight[h]
  }

  function HeightsBelow(byHeight: map<nat, seq<Hash>>, height: nat): set<nat> {
    set h | h in byHeight && h < height
  }

  /** The blocks listed under none of these heights. */
  function Unlisted(proposed: map<Hash, ProposedBlock>, byHeight: map<nat, seq<Hash>>, heights: set<nat>)
    : map<Hash, ProposedBlock>
  {
    map k | k in proposed && !ListedUnder(byHeight, heights, k) :: proposed[k]
  }

  function PruneBelow(s: State, height: nat): State {
    var stale := HeightsBelow(s.byHeight, height);
    s.(byHeight := s.byHeight - stale,
       proposed := Unlisted(s.proposed, s.byHeight, stale),
       votedEpochs := map e | e in s.votedEpochs && RecentVoted(s.votedEpochs, e) :: s.votedEpochs[e],
       remoteVotes := map k | k in s.remoteVotes && RecentRemote(s.remoteVotes, k.0) :: s.remoteVotes[k])
  }

  function Finalized(s: State, h: nat): State
    requires NotarizedAt(s, h).Some?
  {
    s.(finalizedHeight := h, finalizedHash := NotarizedAt(s, h).value)
  }

  function CheckFinality(s: State): (State, Option<nat>) {
    var first := FirstTriple(s, s.finalizedHeight + 1);
    if first.None? then (s, None)
    else (PruneBelow(Finalized(s, first.value + 1), first.value + 1), Some(first.value + 1))
  }

  /** The vote contradicts a remembered vote of the same validator and epoch. */
  predicate Equivocates(s: State, v: Vote) {
    (v.epoch, v.validator) in s.remoteVotes && s.remoteVotes[(v.epoch, v.validator)] != v.blockHash
  }

  /** The state after a vote that is not rejected has been remembered and counted. */
  function Counted(s: State, v: Vote): State {
    var s1 := s.(remoteVotes := s.remoteVotes[(v.epoch, v.validator) := v.blockHash]);
    if v.blockHash !in s.proposed then s1
    else
      var (p, just) := CountVote(s.proposed[v.blockHash], v, s.committeeSize);
      s1.(proposed := s.proposed[v.blockHash := p],
          highestNotarized :=
            if just && p.header.height > s.highestNotarized then p.header.height else s.highestNotarized)
  }

  predicate Notarizes(s: State, v: Vote) {
    && !Equivocates(s, v) && v.blockHash in s.proposed
    && CountVote(s.proposed[v.blockHash], v, s.committeeSize).1
  }

  /** New state, whether the block just became notarized, and the newly finalized height. */
  function AddVote(s: State, v: Vote): (State, bool, Option<nat>) {
    if Equivocates(s, v) then (s, false, None)
    else if !Notarizes(s, v) then (Counted(s, v), false, None)
    else
      var (s', h) := CheckFinality(Counted(s, v));
      (s', true, h)
  }

  function NextProposalHeight(s: State): nat {
    (if s.highestNotarized > s.finalizedHeight then s.highestNotarized else s.finalizedHeight) + 1
  }

  function NextProposalParent(s: State): Hash {
    match NotarizedAt(s, s.highestNotarized)
    case Some(h) => h
    case None => s.finalizedHash
  }

  // -------------------------------------------------------------------- runs

  datatype Event =
    | Propose(header: Header, hash: Hash, epoch: nat)
    | Record(votedEpoch: nat, votedHash: Hash)
    | Receive(vote: Vote)

  function Step(s: State, e: Event): State {
    match e
    case Propose(header, hash, epoch) => AddProposal(s, header, hash, epoch)
    case Record(epoch, hash) => RecordVote(s, epoch, hash)
    case Receive(vote) => AddVote(s, vote).0
  }

  function Run(s: State, events: seq<Event>): State {
    if events == [] then s else Step(Run(s, events[..|events| - 1]), events[|events| - 1])
  }

  // --------------------------------------------------------- run invariants

  /** The height index lists exactly the stored blocks, each once, under its own height. */
  ghost predicate IndexAgrees(s: State) {
    && (forall k <- s.proposed ::
          && s.proposed[k].blockHash == k
          && s.proposed[k].header.height in s.byHeight
          && k in s.byHeight[s.proposed[k].header.height])
    && (forall h <- s.byHeight ::
          && Distinct(s.byHeight[h])
          && forall k <- s.byHeight[h] :: k in s.proposed && s.proposed[k].header.height == h)
  }

  ghost predicate OneVoteEach(votes: seq<Vote>) {
    forall i, j :: 0 <= i < j < |votes| ==> votes[i].validator != votes[j].validator
  }

  /** A block holds votes for itself from distinct validators and is notarized exactly when they suffice. */
  ghost predicate BlockOk(p: ProposedBlock, committeeSize: nat) {
    && OneVoteEach(p.votes)
    && (forall v <- p.votes :: v.blockHash == p.blockHash)
    && (p.notarized <==> |p.votes| >= 1 && 3 * |p.votes| >= 2 * committeeSize)
  }

  ghost predicate TalliesAgree(s: State) {
    forall k <- s.proposed :: s.proposed[k].blockHash == k && BlockOk(s.proposed[k], s.committeeSize)
  }

  predicate StoredNotarized(s: State, k: Hash, height: nat) {
    k in s.proposed && s.proposed[k].notarized && s.proposed[k].header.height == height
  }

  /** How the finalized and the highest notarized height relate to the stored blocks.
      `base` is the height the node started from. */
  ghost predicate HeightsAgree(s: State, base: nat) {
    && base <= s.finalizedHeight <= s.highestNotarized
    && (forall k <- s.proposed :: s.proposed[k].notarized ==> s.proposed[k].header.height <= s.highestNotarized)
    && (s.finalizedHeight > base ==>
          StoredNotarized(s, s.finalizedHash, s.finalizedHeight) && s.finalizedHeight < s.highestNotarized)
    && (s.highestNotarized > base ==> exists k :: StoredNotarized(s, k, s.highestNotarized))
  }

  /** Every counted vote of a recent epoch is still remembered for its block. */
  ghost predicate VotesRemembered(s: State) {
    forall k, i :: k in s.proposed && 0 <= i < |s.proposed[k].votes| ==> Remembered(s, k, s.proposed[k].votes[i])
  }

  ghost predicate Remembered(s: State, k: Hash, v: Vote) {
    RecentRemote(s.remoteVotes, v.epoch) ==>
      (v.epoch, v.validator) in s.remoteVotes && s.remoteVotes[(v.epoch, v.validator)] == k
  }

  ghost predicate Inv(s: State, base: nat) {
    IndexAgrees(s) && TalliesAgree(s) && HeightsAgree(s, base) && VotesRemembered(s)
  }

  // ------------------------------------------------- each step keeps them

  lemma CountedKeepsIndex(s: State, v: Vote)
    requires IndexAgrees(s)
    ensures IndexAgrees(Counted(s, v))
  {
    var t := Counted(s, v);
    assert t.byHeight == s.byHeight && t.proposed.Keys == s.proposed.Keys;
    assert forall k <- s.proposed ::
      t.proposed[k].header == s.proposed[k].header && t.proposed[k].blockHash == s.proposed[k].blockHash;
  }

  lemma CountedKeepsTallies(s: State, v: Vote)
    requires TalliesAgree(s)
    ensures TalliesAgree(Counted(s, v))
  {
  }

  lemma CountedKeepsHeights(s: State, v: Vote, base: nat)
    requires TalliesAgree(s) && HeightsAgree(s, base)
    ensures HeightsAgree(Counted(s, v), base)
    ensures Notarizes(s, v) ==> Counted(s, v).highestNotarized >= s.proposed[v.blockHash].header.height
  {
    var t := Counted(s, v);
    assert forall k, h :: StoredNotarized(s, k, h) ==> StoredNotarized(t, k, h);
    if v.blockHash in s.proposed && t.highestNotarized != s.highestNotarized {
      assert StoredNotarized(t, v.blockHash, t.highestNotarized);
    }
  }

  lemma CountedKeepsMemory(s: State, v: Vote)
    requires TalliesAgree(s) && VotesRemembered(s) && !Equivocates(s, v)
    ensures VotesRemembered(Counted(s, v))
  {
    var t := Counted(s, v);
    forall k, i | k in t.proposed && 0 <= i < |t.proposed[k].votes|
      ensures Remembered(t, k, t.proposed[k].votes[i])
    {
      var w := t.proposed[k].votes[i];
      if i < |s.proposed[k].votes| {
        assert w == s.proposed[k].votes[i] && Remembered(s, k, w);
        if RecentRemote(t.remoteVotes, w.epoch) {
          assert forall x <- s.remoteVotes :: x in t.remoteVotes;
          assert RecentRemote(s.remoteVotes, w.epoch);
        }
      } else {
        assert k == v.blockHash && w == v;
      }
    }
  }

  /** With an exact index, pruning keeps exactly the blocks at or above the given height. */
  lemma PruneKeepsUpperBlocks(s: State, height: nat, k: Hash)
    requires IndexAgrees(s) && k in s.proposed
    ensures k in PruneBelow(s, height).proposed <==> s.proposed[k].header.height >= height
  {
    var stale := HeightsBelow(s.byHeight, height);
    var h := s.proposed[k].header.height;
    assert h in stale ==> ListedUnder(s.byHeight, stale, k);
  }

  lemma PruneKeepsIndex(s: State, height: nat)
    requires IndexAgrees(s)
    ensures IndexAgrees(PruneBelow(s, height))
  {
    forall k | k in s.proposed
      ensures k in PruneBelow(s, height).proposed <==> s.proposed[k].header.height >= height
    {
      PruneKeepsUpperBlocks(s, height, k);
    }
  }

  /** The newest remembered epoch survives pruning, so the window does not move. */
  lemma PruneKeepsWindow(s: State, height: nat, epoch: nat)
    ensures RecentRemote(PruneBelow(s, height).remoteVotes, epoch) ==> RecentRemote(s.remoteVotes, epoch)
  {
    var kept := PruneBelow(s, height).remoteVotes;
    if RecentRemote(kept, epoch) {
      forall k: (nat, NodeId) | k in s.remoteVotes
        ensures k.0 <= epoch + EPOCH_WINDOW
      {
        var newest := NewestRemote(s.remoteVotes, k);
        assert RecentRemote(s.remoteVotes, newest.0) && newest in kept;
      }
    }
  }

  /** A key of the newest remembered epoch, found from any key. */
  lemma NewestRemote(remote: map<(nat, NodeId), Hash>, start: (nat, NodeId)) returns (newest: (nat, NodeId))
    requires start in remote
    ensures newest in remote && newest.0 >= start.0 && forall k <- remote :: k.0 <= newest.0
  {
    newest := start;
    var rest := remote.Keys;
    while rest != {}
      invariant newest in remote && newest.0 >= start.0 && rest <= remote.Keys
      invariant forall k <- remote :: k in rest || k.0 <= newest.0
      decreases |rest|
    {
      var k: (nat, NodeId) :| k in rest;
      if k.0 > newest.0 {
        newest := k;
      }
      rest := rest - {k};
    }
  }

  lemma PruneKeepsMemory(s: State, height: nat)
    requires VotesRemembered(s)
    ensures VotesRemembered(PruneBelow(s, height))
  {
    var t := PruneBelow(s, height);
    forall k, i | k in t.proposed && 0 <= i < |t.proposed[k].votes|
      ensures Remembered(t, k, t.proposed[k].votes[i])
    {
      var w := s.proposed[k].votes[i];
      assert Remembered(s, k, w);
      PruneKeepsWindow(s, height, w.epoch);
    }
  }

  lemma PruneKeepsTallies(s: State, height: nat)
    requires TalliesAgree(s)
    ensures TalliesAgree(PruneBelow(s, height))
  {
    assert forall k <- PruneBelow(s, height).proposed :: k in s.proposed;
  }

  /** What `NotarizedAt` finds is a stored notarized block of that height, and it finds one if there is one. */
  lemma NotarizedAtIsStored(s: State, height: nat)
    requires IndexAgrees(s)
    ensures NotarizedAt(s, height).Some? ==> StoredNotarized(s, NotarizedAt(s, height).value, height)
    ensures NotarizedAt(s, height).None? ==> forall k :: !StoredNotarized(s, k, height)
  {
    if height in s.byHeight {
      FirstNotarizedFinds(s.proposed, s.byHeight[height]);
    }
  }

  lemma {:induction false} FirstNotarizedFinds(proposed: map<Hash, ProposedBlock>, hashes: seq<Hash>)
    ensures match FirstNotarized(proposed, hashes)
            case Some(k) => k in hashes && k in proposed && proposed[k].notarized
            case None => forall k <- hashes :: k in proposed ==> !proposed[k].notarized
  {
    if hashes != [] {
      FirstNotarizedFinds(proposed, hashes[1..]);
    }
  }

  lemma PruneKeepsStored(s: State, height: nat, k: Hash, h: nat)
    requires IndexAgrees(s) && StoredNotarized(s, k, h) && h >= height
    ensures StoredNotarized(PruneBelow(s, height), k, h)
  {
    PruneKeepsUpperBlocks(s, height, k);
  }

  /** Pruning below the finalized height loses neither the finalized block nor the tip. */
  lemma PruneKeepsHeights(s: State, base: nat)
    requires IndexAgrees(s) && HeightsAgree(s, base) && s.finalizedHeight > base
    ensures HeightsAgree(PruneBelow(s, s.finalizedHeight), base)
    ensures StoredNotarized(PruneBelow(s, s.finalizedHeight), s.finalizedHash, s.finalizedHeight)
  {
    PruneKeepsStored(s, s.finalizedHeight, s.finalizedHash, s.finalizedHeight);
    var tip :| StoredNotarized(s, tip, s.highestNotarized);
    PruneKeepsStored(s, s.finalizedHeight, tip, s.highestNotarized);
  }

  /** The middle of a notarized triple lies below the tip and is stored. */
  lemma TripleBelowTip(s: State, base: nat, m: nat)
    requires IndexAgrees(s) && HeightsAgree(s, base) && m > s.finalizedHeight + 1 && Triple(s, m - 1)
    ensures m + 1 <= s.highestNotarized
    ensures IndexAgrees(Finalized(s, m)) && HeightsAgree(Finalized(s, m), base)
  {
    NotarizedAtIsStored(s, m);
    NotarizedAtIsStored(s, m + 1);
    var t := Finalized(s, m);
    var tip :| StoredNotarized(s, tip, s.highestNotarized);
    assert StoredNotarized(t, tip, t.highestNotarized);
  }

  /** Height h was finalized: at least two above the last one, below the tip, and its block is stored. */
  ghost predicate Advanced(s: State, t: State, h: nat) {
    && t.finalizedHeight == h && t.highestNotarized == s.highestNotarized
    && s.finalizedHeight + 2 <= h < s.highestNotarized
    && StoredNotarized(t, t.finalizedHash, h)
  }

  /** What finality does when it does something: it finalizes the middle of a triple. */
  ghost predicate FinalizesTriple(s: State, t: State, m: nat) {
    m > s.finalizedHeight + 1 && Triple(s, m - 1) && t == PruneBelow(Finalized(s, m), m)
  }

  lemma TripleAdvances(s: State, base: nat, t: State, m: nat)
    requires IndexAgrees(s) && HeightsAgree(s, base) && FinalizesTriple(s, t, m)
    ensures HeightsAgree(t, base) && Advanced(s, t, m)
  {
    TripleBelowTip(s, base, m);
    PruneKeepsHeights(Finalized(s, m), base);
  }

  lemma FinalityCases(s: State)
    ensures var (t, h) := CheckFinality(s); if h.Some? then FinalizesTriple(s, t, h.value) else t == s
  {
  }

  /** Finalization raises the finalized height by at least two, stays below the highest
      notarized height and names the block it stores. */
  lemma FinalityAdvances(s: State, base: nat)
    requires IndexAgrees(s) && HeightsAgree(s, base)
    ensures var (t, h) := CheckFinality(s);
            HeightsAgree(t, base) && if h.Some? then Advanced(s, t, h.value) else t == s
  {
    FinalityCases(s);
    var (t, h) := CheckFinality(s);
    if h.Some? {
      TripleAdvances(s, base, t, h.value);
    }
  }

  lemma FinalityKeepsInv(s: State, base: nat)
    requires Inv(s, base)
    ensures Inv(CheckFinality(s).0, base)
  {
    FinalityAdvances(s, base);
    var t, h := CheckFinality(s).0, CheckFinality(s).1;
    if h.Some? {
      var s1 := s.(finalizedHeight := t.finalizedHeight, finalizedHash := t.finalizedHash);
      assert t == PruneBelow(s1, h.value);
      assert IndexAgrees(t) by { PruneKeepsIndex(s1, h.value); }
      assert VotesRemembered(t) by { PruneKeepsMemory(s1, h.value); }
      assert TalliesAgree(t) by { PruneKeepsTallies(s1, h.value); }
    }
  }

  lemma AddVoteKeepsInv(s: State, v: Vote, base: nat)
    requires Inv(s, base)
    ensures Inv(AddVote(s, v).0, base)
  {
    if !Equivocates(s, v) {
      CountedKeepsIndex(s, v);
      CountedKeepsTallies(s, v);
      CountedKeepsHeights(s, v, base);
      CountedKeepsMemory(s, v);
      FinalityKeepsInv(Counted(s, v), base);
    }
  }

  lemma AddProposalKeepsIndex(s: State, header: Header, hash: Hash, epoch: nat)
    requires IndexAgrees(s)
    ensures IndexAgrees(AddProposal(s, header, hash, epoch))
  {
    var t := AddProposal(s, header, hash, epoch);
    if hash !in s.proposed {
      forall h | h in t.byHeight
        ensures Distinct(t.byHeight[h])
        ensures forall k <- t.byHeight[h] :: k in t.proposed && t.proposed[k].header.height == h
      {
        if h in s.byHeight {
          assert hash !in s.byHeight[h];
        }
      }
    }
  }

  lemma AddProposalKeepsHeights(s: State, header: Header, hash: Hash, epoch: nat, base: nat)
    requires HeightsAgree(s, base)
    ensures HeightsAgree(AddProposal(s, header, hash, epoch), base)
  {
    var t := AddProposal(s, header, hash, epoch);
    assert forall k, h :: StoredNotarized(s, k, h) ==> StoredNotarized(t, k, h);
  }

  lemma AddProposalKeepsMemory(s: State, header: Header, hash: Hash, epoch: nat)
    requires VotesRemembered(s)
    ensures VotesRemembered(AddProposal(s, header, hash, epoch))
  {
    var t := AddProposal(s, header, hash, epoch);
    assert forall k, v :: Remembered(s, k, v) == Remembered(t, k, v);
  }

  lemma AddProposalKeepsInv(s: State, header: Header, hash: Hash, epoch: nat, base: nat)
    requires Inv(s, base)
    ensures Inv(AddProposal(s, header, hash, epoch), base)
  {
    var t := AddProposal(s, header, hash, epoch);
    assert IndexAgrees(t) by { AddProposalKeepsIndex(s, header, hash, epoch); }
    assert TalliesAgree(t);
    assert HeightsAgree(t, base) by { AddProposalKeepsHeights(s, header, hash, epoch, base); }
    assert VotesRemembered(t) by { AddProposalKeepsMemory(s, header, hash, epoch); }
  }

  lemma StepKeepsInv(s: State, e: Event, base: nat)
    requires Inv(s, base)
    ensures Inv(Step(s, e), base)
  {
    match e
    case Propose(header, hash, epoch) => AddProposalKeepsInv(s, header, hash, epoch, base);
    case Record(epoch, hash) =>
      var t := RecordVote(s, epoch, hash);
      assert forall k, h :: StoredNotarized(s, k, h) == StoredNotarized(t, k, h);
      assert forall k, v :: Remembered(s, k, v) == Remembered(t, k, v);
    case Receive(vote) => AddVoteKeepsInv(s, vote, base);
  }

  lemma {:induction false} RunKeepsInvFrom(s: State, base: nat, events: seq<Event>)
    requires Inv(s, base)
    ensures Inv(Run(s, events), base) && Run(s, events).committeeSize == s.committeeSize
  {
    if events != [] {
      var before := events[..|events| - 1];
      RunKeepsInvFrom(s, base, before);
      StepKeepsInv(Run(s, before), events[|events| - 1], base);
    }
  }

  /** Every run from a finalized block keeps the index exact, the tallies right, the heights in
      order and the recent votes remembered. */
  lemma RunKeepsInv(committeeSize: nat, base: nat, hash: Hash, events: seq<Event>)
    ensures Inv(Run(Initial(committeeSize, base, hash), events), base)
    ensures Run(Initial(committeeSize, base, hash), events).committeeSize == committeeSize
  {
    RunKeepsInvFrom(Initial(committeeSize, base, hash), base, events);
  }

  // ---------------------------------------------------------- main theorems

  ghost predicate ExtendsTip(s: State, base: nat) {
    || StoredNotarized(s, NextProposalParent(s), NextProposalHeight(s) - 1)
    || (NextProposalParent(s) == s.finalizedHash && NextProposalHeight(s) - 1 == s.finalizedHeight == base)
  }

  lemma ParentIsTip(s: State, base: nat)
    requires IndexAgrees(s) && HeightsAgree(s, base)
    ensures ExtendsTip(s, base)
  {
    NotarizedAtIsStored(s, s.highestNotarized);
  }

  /** The greatest height of a stored notarized block, or the starting height if there is none above it. */
  ghost predicate IsTip(s: State, base: nat, tip: nat) {
    && tip >= base
    && (forall k, h: nat :: StoredNotarized(s, k, h) ==> h <= tip)
    && (tip == base || exists k :: StoredNotarized(s, k, tip))
  }

  /** In every run the next proposal is one above the greatest notarized height and extends a notarized
      block of that height; only a node that has notarized nothing above its starting block extends the
      finalized one instead. */
  lemma ProposalExtendsNotarizedTip(committeeSize: nat, base: nat, hash: Hash, events: seq<Event>)
    ensures var s := Run(Initial(committeeSize, base, hash), events);
            ExtendsTip(s, base) && IsTip(s, base, NextProposalHeight(s) - 1)
  {
    RunKeepsInv(committeeSize, base, hash, events);
    var s := Run(Initial(committeeSize, base, hash), events);
    ParentIsTip(s, base);
    NextIsAboveTip(s, base);
  }

  lemma NextIsAboveTip(s: State, base: nat)
    requires HeightsAgree(s, base)
    ensures IsTip(s, base, NextProposalHeight(s) - 1)
  {
    if s.highestNotarized > base {
      var top :| StoredNotarized(s, top, s.highestNotarized);
    }
  }

  /** In every run a node may vote exactly for a stored block one above the finalized height or one
      above the tip, once per remembered epoch. The parent of the block plays no part. */
  lemma VoteTargets(committeeSize: nat, base: nat, hash: Hash, events: seq<Event>, tip: nat, k: Hash, epoch: nat)
    requires IsTip(Run(Initial(committeeSize, base, hash), events), base, tip)
    ensures var s := Run(Initial(committeeSize, base, hash), events);
            ShouldVote(s, k, epoch) <==>
              && epoch !in s.votedEpochs && k in s.proposed
              && (s.proposed[k].header.height == s.finalizedHeight + 1 || s.proposed[k].header.height == tip + 1)
  {
    RunKeepsInv(committeeSize, base, hash, events);
    var s := Run(Initial(committeeSize, base, hash), events);
    if s.highestNotarized > base {
      var top :| StoredNotarized(s, top, s.highestNotarized);
    }
    assert tip == s.highestNotarized;
  }

  /** What a node proposes next it may itself vote for in an epoch it has not voted in. */
  lemma OwnProposalIsVotable(committeeSize: nat, base: nat, hash: Hash, events: seq<Event>, k: Hash, parent: Hash,
                             epoch: nat)
    requires var s := Run(Initial(committeeSize, base, hash), events); k !in s.proposed && epoch !in s.votedEpochs
    ensures var s := Run(Initial(committeeSize, base, hash), events);
            ShouldVote(AddProposal(s, Header(NextProposalHeight(s), parent), k, epoch), k, epoch)
  {
    RunKeepsInv(committeeSize, base, hash, events);
  }

  /** In every run a vote either leaves finality alone or moves it up by at least two heights, to a
      stored notarized block strictly below the highest notarized one. */
  lemma FinalityEvent(committeeSize: nat, base: nat, hash: Hash, events: seq<Event>, v: Vote)
    ensures var s := Run(Initial(committeeSize, base, hash), events);
            var (t, just, h) := AddVote(s, v);
            && (h.None? ==> t.finalizedHeight == s.finalizedHeight && t.finalizedHash == s.finalizedHash)
            && (h.Some? ==>
                  && just && t.finalizedHeight == h.value
                  && s.finalizedHeight + 2 <= h.value < t.highestNotarized
                  && StoredNotarized(t, t.finalizedHash, h.value))
  {
    RunKeepsInv(committeeSize, base, hash, events);
    var s := Run(Initial(committeeSize, base, hash), events);
    if !Equivocates(s, v) {
      CountedKeepsIndex(s, v);
      CountedKeepsTallies(s, v);
      CountedKeepsHeights(s, v, base);
      FinalityAdvances(Counted(s, v), base);
    }
  }

  /** The validator is remembered to have voted for another block in that epoch. */
  predicate Contradicts(s: State, v: Vote) {
    exists k :: k in s.remoteVotes && k == (v.epoch, v.validator) && s.remoteVotes[k] != v.blockHash
  }

  /** A proposal with a new hash comes last among those of its height, without votes; one with a known
      hash changes nothing. */
  lemma ProposalIsListedLast(s: State, header: Header, hash: Hash, epoch: nat)
    ensures var t := AddProposal(s, header, hash, epoch);
            && (hash in s.proposed ==> t == s)
            && (hash !in s.proposed ==>
                  && t == s.(proposed := t.proposed, byHeight := t.byHeight)
                  && t.proposed == s.proposed[hash := ProposedBlock(header, hash, epoch, [], false)]
                  && t.byHeight.Keys == s.byHeight.Keys + {header.height}
                  && (forall h <- s.byHeight :: h != header.height ==> t.byHeight[h] == s.byHeight[h])
                  && |t.byHeight[header.height]| >= 1
                  && var list := t.byHeight[header.height];
                     && list[|list| - 1] == hash
                     && list[..|list| - 1] == if header.height in s.byHeight then s.byHeight[header.height] else [])
  {
  }

  /** Of several notarized blocks of a height, the one that was listed first is looked up. */
  lemma {:induction false} FirstListedIsFound(proposed: map<Hash, ProposedBlock>, hashes: seq<Hash>)
    ensures match FirstNotarized(proposed, hashes)
            case None => forall k <- hashes :: !(k in proposed && proposed[k].notarized)
            case Some(h) => exists i ::
              && 0 <= i < |hashes| && hashes[i] == h && h in proposed && proposed[h].notarized
              && forall j :: 0 <= j < i ==> !(hashes[j] in proposed && proposed[hashes[j]].notarized)
  {
    if hashes != [] && !(hashes[0] in proposed && proposed[hashes[0]].notarized) {
      var rest := hashes[1..];
      FirstListedIsFound(proposed, rest);
      assert forall k <- hashes :: k == hashes[0] || k in rest;
      if FirstNotarized(proposed, rest).Some? {
        var h := FirstNotarized(proposed, rest).value;
        var i :| && 0 <= i < |rest| && rest[i] == h && h in proposed && proposed[h].notarized
                 && forall j :: 0 <= j < i ==> !(rest[j] in proposed && proposed[rest[j]].notarized);
        assert hashes[i + 1] == h;
        assert forall j :: 0 < j < i + 1 ==> hashes[j] == rest[j - 1];
      }
    }
  }

  /** A vote notarizes its block exactly if it contradicts no remembered vote, the block is known and not
      notarized, its validator is new to the block, and with it two thirds of the committee have voted. */
  lemma NotarizesIffTwoThirds(s: State, v: Vote)
    ensures AddVote(s, v).1 <==>
              && !Contradicts(s, v) && v.blockHash in s.proposed && !s.proposed[v.blockHash].notarized
              && (forall w <- s.proposed[v.blockHash].votes :: w.validator != v.validator)
              && 3 * (|s.proposed[v.blockHash].votes| + 1) >= 2 * s.committeeSize
  {
    ThresholdIsTwoThirds(s.committeeSize);
  }

  /** A vote that notarizes nothing changes its own block's votes and the memory, or nothing. */
  lemma VoteIsCounted(s: State, v: Vote)
    requires !AddVote(s, v).1
    ensures var t := AddVote(s, v).0;
            if Contradicts(s, v) then t == s
            else
              && t == s.(proposed := t.proposed, remoteVotes := t.remoteVotes)
              && t.remoteVotes == s.remoteVotes[(v.epoch, v.validator) := v.blockHash]
              && t.proposed.Keys == s.proposed.Keys
              && forall k <- s.proposed ::
                   var p := s.proposed[k];
                   if k == v.blockHash && (forall w <- p.votes :: w.validator != v.validator)
                   then t.proposed[k] == p.(votes := p.votes + [v]) else t.proposed[k] == p
  {
  }

  /** Pruning keeps a remembered vote exactly if no remembered vote is of an epoch more than 100 later. */
  lemma PruningForgetsVotes(s: State, height: nat, k: (nat, NodeId))
    ensures k in PruneBelow(s, height).remoteVotes <==>
        k in s.remoteVotes && forall x <- s.remoteVotes :: x.0 <= k.0 + 100
    ensures k in PruneBelow(s, height).remoteVotes ==> PruneBelow(s, height).remoteVotes[k] == s.remoteVotes[k]
  {
  }

  /** The validators that voted for a block in an epoch. */
  function VotersIn(votes: seq<Vote>, epoch: nat): set<NodeId> {
    set i | 0 <= i < |votes| && votes[i].epoch == epoch :: votes[i].validator
  }

  /** Enough votes of one epoch to notarize the block. */
  predicate NotarizedIn(s: State, k: Hash, epoch: nat) {
    && k in s.proposed
    && |VotersIn(s.proposed[k].votes, epoch)| >= 1
    && 3 * |VotersIn(s.proposed[k].votes, epoch)| >= 2 * s.committeeSize
  }

  /** A notarized block all of whose votes are of one epoch is notarized in that epoch. */
  lemma NotarizedByOneEpoch(s: State, k: Hash, epoch: nat)
    requires TalliesAgree(s) && k in s.proposed && s.proposed[k].notarized
    requires forall v <- s.proposed[k].votes :: v.epoch == epoch
    ensures NotarizedIn(s, k, epoch)
  {
    VotersCount(s.proposed[k].votes, epoch);
  }

  lemma VotersCount(votes: seq<Vote>, epoch: nat)
    requires OneVoteEach(votes) && forall v <- votes :: v.epoch == epoch
    ensures |VotersIn(votes, epoch)| == |votes|
  {
    var ids := seq(|votes|, i requires 0 <= i < |votes| => votes[i].validator);
    ElementsCount(ids);
    assert forall i :: 0 <= i < |votes| ==> ids[i] == votes[i].validator && votes[i].epoch == epoch;
    assert VotersIn(votes, epoch) == Elements(ids);
  }

  /** Two thirds rounded up, twice, exceeds the committee by at least a third of it. */
  lemma QuorumsOverlap(committee: set<NodeId>, a: set<NodeId>, b: set<NodeId>)
    requires a <= committee && b <= committee
    requires 3 * |a| >= 2 * |committee| && 3 * |b| >= 2 * |committee|
    ensures 3 * |a * b| >= |committee|
  {
    SubsetSize(a + b, committee);
    assert |a + b| == |a| + |b| - |a * b|;
  }

  /** In every run, and in spite of pruning, two counted votes of one validator in one recent epoch
      are for the same block. */
  lemma NoRecentEquivocation(committeeSize: nat, base: nat, hash: Hash, events: seq<Event>,
                             a: Hash, i: nat, b: Hash, j: nat)
    requires var s := Run(Initial(committeeSize, base, hash), events);
             && a in s.proposed && i < |s.proposed[a].votes|
             && b in s.proposed && j < |s.proposed[b].votes|
             && s.proposed[a].votes[i].validator == s.proposed[b].votes[j].validator
             && s.proposed[a].votes[i].epoch == s.proposed[b].votes[j].epoch
             && RecentRemote(s.remoteVotes, s.proposed[a].votes[i].epoch)
    ensures a == b
  {
    RunKeepsInv(committeeSize, base, hash, events);
    var s := Run(Initial(committeeSize, base, hash), events);
    assert Remembered(s, a, s.proposed[a].votes[i]) && Remembered(s, b, s.proposed[b].votes[j]);
  }

  /** Some remembered vote is of this epoch or a later one. */
  ghost predicate HeardUpTo(s: State, epoch: nat) {
    exists k :: k in s.remoteVotes && k.0 >= epoch
  }

  lemma PruneKeepsNewest(s: State, height: nat, epoch: nat)
    requires HeardUpTo(s, epoch)
    ensures HeardUpTo(PruneBelow(s, height), epoch)
  {
    var k :| k in s.remoteVotes && k.0 >= epoch;
    var newest := NewestRemote(s.remoteVotes, k);
    assert newest in PruneBelow(s, height).remoteVotes;
  }

  lemma AddVoteKeepsNewest(s: State, v: Vote, epoch: nat)
    requires HeardUpTo(s, epoch) || (v.epoch >= epoch && !Equivocates(s, v))
    ensures HeardUpTo(AddVote(s, v).0, epoch)
  {
    if !Equivocates(s, v) {
      var t := Counted(s, v);
      assert (v.epoch, v.validator) in t.remoteVotes;
      assert HeardUpTo(t, epoch) by {
        if HeardUpTo(s, epoch) {
          var k :| k in s.remoteVotes && k.0 >= epoch;
          assert k in t.remoteVotes;
        }
      }
      FinalityCases(t);
      if CheckFinality(t).1.Some? {
        PruneKeepsNewest(Finalized(t, CheckFinality(t).1.value), CheckFinality(t).1.value, epoch);
      }
    }
  }

  lemma {:induction false} RunKeepsNewest(s: State, events: seq<Event>, epoch: nat)
    requires HeardUpTo(s, epoch)
    ensures HeardUpTo(Run(s, events), epoch)
  {
    if events != [] {
      var before, last := events[..|events| - 1], events[|events| - 1];
      RunKeepsNewest(s, before, epoch);
      if last.Receive? {
        AddVoteKeepsNewest(Run(s, before), last.vote, epoch);
      }
    }
  }

  /** Any one voter can end the memory: once a node has remembered a single vote of a far epoch, every
      later finality event erases all votes of the epochs more than a window before it, whoever cast
      them. From then on any vote of those epochs is counted, a second one of its validator included. */
  lemma FarVoteErasesMemory(s: State, far: Vote, events: seq<Event>, last: Vote, v: Vote)
    requires !Equivocates(s, far) && v.epoch + EPOCH_WINDOW < far.epoch
    requires AddVote(Run(AddVote(s, far).0, events), last).2.Some?
    ensures var t := AddVote(Run(AddVote(s, far).0, events), last).0;
            && !Equivocates(t, v)
            && (v.blockHash in t.proposed && !HasVoted(t.proposed[v.blockHash].votes, v.validator) ==>
                  v in Counted(t, v).proposed[v.blockHash].votes)
  {
    AddVoteKeepsNewest(s, far, far.epoch);
    RunKeepsNewest(AddVote(s, far).0, events, far.epoch);
    var u := Run(AddVote(s, far).0, events);
    var k :| k in u.remoteVotes && k.0 >= far.epoch;
    assert k in Counted(u, last).remoteVotes;
  }

  /** Hence in one node at most one block is notarized by the votes of a recent epoch, whatever
      the voters do, as long as they belong to the committee. */
  lemma OneBlockPerRecentEpoch(committee: set<NodeId>, base: nat, hash: Hash, events: seq<Event>,
                               epoch: nat, a: Hash, b: Hash)
    requires var s := Run(Initial(|committee|, base, hash), events);
             && RecentRemote(s.remoteVotes, epoch)
             && NotarizedIn(s, a, epoch) && VotersIn(s.proposed[a].votes, epoch) <= committee
             && NotarizedIn(s, b, epoch) && VotersIn(s.proposed[b].votes, epoch) <= committee
    ensures a == b
  {
    var s := Run(Initial(|committee|, base, hash), events);
    RunKeepsInv(|committee|, base, hash, events);
    var A, B := VotersIn(s.proposed[a].votes, epoch), VotersIn(s.proposed[b].votes, epoch);
    QuorumsOverlap(committee, A, B);
    SubsetSize(A, committee);
    var x :| x in A * B;
    var i :| && 0 <= i < |s.proposed[a].votes|
              && s.proposed[a].votes[i].epoch == epoch && s.proposed[a].votes[i].validator == x;
    var j :| && 0 <= j < |s.proposed[b].votes|
              && s.proposed[b].votes[j].epoch == epoch && s.proposed[b].votes[j].validator == x;
    NoRecentEquivocation(|committee|, base, hash, events, a, i, b, j);
  }
}
