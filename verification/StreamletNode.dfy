/** The mutable node state of gratia-consensus/src/streamlet.rs, method by method,
    each proved to take the step of the same name in `Streamlet`. */
module StreamletNode {
  import opened Identifiers
  import S = Streamlet

  function Without(proposed: map<Hash, S.ProposedBlock>, hashes: seq<Hash>): map<Hash, S.ProposedBlock> {
    map k | k in proposed && k !in hashes :: proposed[k]
  }

  class StreamletState {
    const nodeId: NodeId
    const committeeSize: nat
    var proposed: map<Hash, S.ProposedBlock>
    var byHeight: map<nat, seq<Hash>>
    var finalizedHeight: nat
    var finalizedHash: Hash
    var votedEpochs: map<nat, Hash>
    var highestNotarized: nat
    var remoteVotes: map<(nat, NodeId), Hash>

    /** The value the methods are specified on. */
    function Snapshot(): S.State
      reads this
    {
      S.State(committeeSize, proposed, byHeight, finalizedHeight, finalizedHash,
              votedEpochs, highestNotarized, remoteVotes)
    }

    constructor (nodeId: NodeId, committeeSize: nat)
      ensures this.nodeId == nodeId && Snapshot() == S.Initial(committeeSize, 0, 0)
    {
      this.nodeId, this.committeeSize := nodeId, committeeSize;
      proposed, byHeight := map[], map[];
      finalizedHeight, finalizedHash, highestNotarized := 0, 0, 0;
      votedEpochs, remoteVotes := map[], map[];
    }

    /** Restoring a fresh node gives the initial state at the restored block. */
    method Restore(height: nat, hash: Hash)
      modifies this
      ensures Snapshot()
           == old(Snapshot()).(finalizedHeight := height, finalizedHash := hash, highestNotarized := height)
      ensures old(Snapshot()) == S.Initial(committeeSize, 0, 0) ==> Snapshot() == S.Initial(committeeSize, height, hash)
    {
      finalizedHeight, finalizedHash, highestNotarized := height, hash, height;
    }

    method AddProposal(header: S.Header, hash: Hash, epoch: nat) returns (isNew: bool)
      modifies this
      ensures Snapshot() == S.AddProposal(old(Snapshot()), header, hash, epoch)
      ensures isNew <==> hash !in old(proposed)
    {
      if hash in proposed {
        return false;
      }
      proposed := proposed[hash := S.ProposedBlock(header, hash, epoch, [], false)];
      if header.height !in byHeight {
        byHeight := byHeight[header.height := []];
      }
      byHeight := byHeight[header.height := byHeight[header.height] + [hash]];
      return true;
    }

    method ShouldVote(hash: Hash, epoch: nat) returns (ok: bool)
      ensures ok == S.ShouldVote(Snapshot(), hash, epoch)
    {
      if epoch in votedEpochs || hash !in proposed {
        return false;
      }
      var height := proposed[hash].header.height;
      if height <= finalizedHeight {
        return false;
      }
      var expected := highestNotarized + 1;
      if height != expected {
        if height != finalizedHeight + 1 {
          return false;
        }
      }
      return true;
    }

    method RecordVote(epoch: nat, hash: Hash)
      modifies this
      ensures Snapshot() == S.RecordVote(old(Snapshot()), epoch, hash)
    {
      votedEpochs := votedEpochs[epoch := hash];
    }

    method GetNotarizedAt(height: nat) returns (found: Option<Hash>)
      ensures found == S.NotarizedAt(Snapshot(), height)
    {
      if height in byHeight {
        var hashes := byHeight[height];
        var i := 0;
        while i < |hashes|
          invariant 0 <= i <= |hashes|
          invariant S.FirstNotarized(proposed, hashes) == S.FirstNotarized(proposed, hashes[i..])
        {
          if hashes[i] in proposed && proposed[hashes[i]].notarized {
            return Some(hashes[i]);
          }
          assert hashes[i..][1..] == hashes[i + 1..];
          i := i + 1;
        }
      }
      return None;
    }

    /** Removes the listed blocks of one height. */
    method RemoveAll(hashes: seq<Hash>)
      modifies this`proposed
      ensures proposed == Without(old(proposed), hashes)
    {
      var i := 0;
      while i < |hashes|
        invariant 0 <= i <= |hashes|
        invariant proposed == Without(old(proposed), hashes[..i])
      {
        proposed := proposed - {hashes[i]};
        i := i + 1;
      }
      assert hashes[..i] == hashes;
    }

    /** Removes the heights below a bound together with every block listed under them. */
    method PruneBlocks(height: nat)
      modifies this`proposed, this`byHeight
      ensures byHeight == S.PruneBelow(old(Snapshot()), height).byHeight
      ensures proposed == S.PruneBelow(old(Snapshot()), height).proposed
    {
      ghost var index := byHeight;
      ghost var stale := S.HeightsBelow(index, height);
      var oldHeights := S.HeightsBelow(byHeight, height);
      while oldHeights != {}
        invariant oldHeights <= stale
        invariant byHeight == index - (stale - oldHeights)
        invariant proposed == S.Unlisted(old(proposed), index, stale - oldHeights)
        decreases |oldHeights|
      {
        var h :| h in oldHeights;
        ghost var removed := stale - oldHeights;
        assert h in byHeight && byHeight[h] == index[h];
        RemoveAll(byHeight[h]);
        byHeight := byHeight - {h};
        oldHeights := oldHeights - {h};
        assert stale - oldHeights == removed + {h};
      }
      assert stale - oldHeights == stale;
    }

    method PruneVotes()
      modifies this`votedEpochs, this`remoteVotes
      ensures votedEpochs == S.PruneBelow(old(Snapshot()), 0).votedEpochs
      ensures remoteVotes == S.PruneBelow(old(Snapshot()), 0).remoteVotes
    {
      var maxEpoch := MaxOf(votedEpochs.Keys);
      assert forall e: nat :: S.RecentVoted(votedEpochs, e) <==> maxEpoch <= e + S.EPOCH_WINDOW;
      votedEpochs := map e | e in votedEpochs && !(e + S.EPOCH_WINDOW < maxEpoch) :: votedEpochs[e];
      ghost var remote := remoteVotes;
      var epochs := set k | k in remoteVotes :: k.0;
      var remoteMax := MaxOf(epochs);
      assert forall k <- remote :: k.0 in epochs;
      assert forall e <- epochs :: exists k :: k in remote && k.0 == e;
      assert forall e: nat :: S.RecentRemote(remote, e) <==> remoteMax <= e + S.EPOCH_WINDOW;
      remoteVotes := map k | k in remoteVotes && k.0 + S.EPOCH_WINDOW >= remoteMax :: remoteVotes[k];
    }

    method PruneBelow(height: nat)
      modifies this
      ensures Snapshot() == S.PruneBelow(old(Snapshot()), height)
    {
      PruneBlocks(height);
      PruneVotes();
    }

    method HasTriple(h: nat) returns (found: bool)
      ensures found == S.Triple(Snapshot(), h)
    {
      var atH := GetNotarizedAt(h);
      var atH1 := GetNotarizedAt(h + 1);
      var atH2 := GetNotarizedAt(h + 2);
      return atH.Some? && atH1.Some? && atH2.Some?;
    }

    /** The scan for three consecutive notarized heights. */
    method FindTriple() returns (found: Option<nat>)
      ensures found == S.FirstTriple(Snapshot(), finalizedHeight + 1)
    {
      ghost var s := Snapshot();
      var h, top := finalizedHeight + 1, highestNotarized;
      while h < top
        invariant S.FirstTriple(s, finalizedHeight + 1) == S.FirstTriple(s, h)
      {
        var triple := HasTriple(h);
        if triple {
          return Some(h);
        }
        h := h + 1;
      }
      return None;
    }

    method CheckFinality() returns (finalized: Option<nat>)
      modifies this
      ensures (Snapshot(), finalized) == S.CheckFinality(old(Snapshot()))
    {
      var found := FindTriple();
      if found.None? {
        return None;
      }
      var middle := GetNotarizedAt(found.value + 1);
      finalizedHeight := found.value + 1;
      finalizedHash := middle.value;
      PruneBelow(found.value + 1);
      return Some(found.value + 1);
    }

    method AddVote(vote: S.Vote) returns (justNotarized: bool, finalized: Option<nat>)
      modifies this
      ensures (Snapshot(), justNotarized, finalized) == S.AddVote(old(Snapshot()), vote)
    {
      var key := (vote.epoch, vote.validator);
      if key in remoteVotes && remoteVotes[key] != vote.blockHash {
        return false, None;
      }
      remoteVotes := remoteVotes[key := vote.blockHash];
      if vote.blockHash !in proposed {
        return false, None;
      }
      var block, just := CountVote(proposed[vote.blockHash], vote);
      proposed := proposed[vote.blockHash := block];
      if !just {
        return false, None;
      }
      if block.header.height > highestNotarized {
        highestNotarized := block.header.height;
      }
      assert Snapshot() == S.Counted(old(Snapshot()), vote);
      finalized := CheckFinality();
      justNotarized := true;
    }

    /** `ProposedBlock::add_vote`: a scan for the voter, then the count. */
    method CountVote(p: S.ProposedBlock, vote: S.Vote) returns (block: S.ProposedBlock, just: bool)
      ensures (block, just) == S.CountVote(p, vote, committeeSize)
      ensures just <==>
        && !p.notarized && (forall w <- p.votes :: w.validator != vote.validator)
        && 3 * (|p.votes| + 1) >= 2 * committeeSize
    {
      var i := 0;
      while i < |p.votes|
        invariant 0 <= i <= |p.votes|
        invariant forall j :: 0 <= j < i ==> p.votes[j].validator != vote.validator
      {
        if p.votes[i].validator == vote.validator {
          return p, false;
        }
        i := i + 1;
      }
      block := p.(votes := p.votes + [vote]);
      just := !block.notarized && |block.votes| >= (committeeSize * 2 + 2) / 3;
      if just {
        block := block.(notarized := true);
      }
    }

    method NextProposal() returns (height: nat, parent: Hash)
      ensures height == S.NextProposalHeight(Snapshot()) && parent == S.NextProposalParent(Snapshot())
    {
      height := (if highestNotarized > finalizedHeight then highestNotarized else finalizedHeight) + 1;
      var tip := GetNotarizedAt(highestNotarized);
      parent := if tip.Some? then tip.value else finalizedHash;
    }
  }

  /** The largest element, or 0 for the empty set. */
  method MaxOf(s: set<nat>) returns (m: nat)
    ensures s == {} ==> m == 0
    ensures s != {} ==> m in s
    ensures forall e <- s :: e <= m
  {
    m := 0;
    var rest := s;
    while rest != {}
      invariant rest <= s
      invariant m == 0 || m in s
      invariant rest != s ==> m in s
      invariant forall e <- s :: e in rest || e <= m
      decreases |rest|
    {
      var e: nat :| e in rest;
      if rest == s || e > m {
        m := e;
      }
      rest := rest - {e};
    }
  }
}
