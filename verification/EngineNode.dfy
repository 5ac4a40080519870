/** The mutable consensus engine of gratia-consensus/src/lib.rs, each method proved to take the
    step of the same name in `Engine`. */
module EngineNode {
  import opened Bytes
  import opened Identifiers
  import opened Committee
  import E = Engine

  class ConsensusEngine {
    const nodeId: NodeId
    const crypto: E.Crypto
    var status: E.Status
    var committee: Option<ValidatorCommittee>
    var height: nat
    var tip: Hash
    var recent: seq<Hash>
    var pending: Option<E.PendingBlock>
    var seen: map<(nat, NodeId), Hash>

    function Snapshot(): E.State
      reads this
    {
      E.State(nodeId, status, committee, height, tip, recent, pending, seen)
    }

    /** A new engine, restored to a persisted tip. */
    constructor (nodeId: NodeId, crypto: E.Crypto, height: nat, tip: Hash)
      ensures this.crypto == crypto && Snapshot() == E.Start(nodeId, height, tip).state
    {
      this.nodeId, this.crypto := nodeId, crypto;
      status, committee, pending := E.Syncing, None, None;
      this.height, this.tip, recent, seen := height, tip, [], map[];
    }

    method AdvanceSlot() returns (produce: bool)
      modifies this`status
      ensures Snapshot() == E.AdvanceSlot(old(Snapshot()))
      ensures produce <==> E.IsOurTurn(old(Snapshot()))
    {
      if status.Syncing? || committee.None? {
        return false;
      }
      var c := committee.value;
      var nextHeight := height + 1;
      if |c.members| > 0 && c.startSlot <= nextHeight {
        var producer := c.members[(nextHeight - c.startSlot) % |c.members|];
        if producer.nodeId == nodeId {
          status := E.Producing;
          return true;
        }
      }
      return false;
    }

    method ProduceBlock(content: nat, fits: bool) returns (out: E.Outcome)
      modifies this`pending
      ensures (Snapshot(), out) == E.Produce(old(Snapshot()), content, fits)
    {
      if !status.Producing? || committee.None? || !fits {
        return E.Refused;
      }
      var header := E.Header(height + 1, tip, nodeId, content);
      pending := Some(E.PendingBlock(header, [], committee.value.finalityThreshold));
      return E.Done;
    }

    method CheckSignature(c: ValidatorCommittee, header: E.Header, sig: E.Signature) returns (ok: bool)
      ensures ok == E.SignatureOk(crypto, c, header, sig)
    {
      var i := 0;
      while i < |c.members|
        invariant 0 <= i <= |c.members|
        invariant forall j :: 0 <= j < i ==> c.members[j].nodeId != sig.validator
        invariant E.SigningKey(c.members, sig.validator) == E.SigningKey(c.members[i..], sig.validator)
      {
        if c.members[i].nodeId == sig.validator {
          var key := c.members[i].signingPubkey;
          if key != [] {
            return crypto.verify(header, sig, key);
          }
          return RealSigners(c.members) <= 1;
        }
        assert c.members[i..][1..] == c.members[i + 1..];
        i := i + 1;
      }
      return false;
    }

    method AddBlockSignature(sig: E.Signature) returns (out: E.Outcome)
      modifies this`pending
      ensures (Snapshot(), out) == E.AddSignature(crypto, old(Snapshot()), sig)
    {
      if pending.None? {
        return E.Refused;
      }
      if committee.Some? {
        var ok := CheckSignature(committee.value, pending.value.header, sig);
        if !ok {
          return E.Refused;
        }
      }
      var p := pending.value;
      var i := 0;
      while i < |p.signatures|
        invariant 0 <= i <= |p.signatures|
        invariant forall j :: 0 <= j < i ==> p.signatures[j].validator != sig.validator
      {
        if p.signatures[i].validator == sig.validator {
          return E.Refused;
        }
        i := i + 1;
      }
      p := p.(signatures := p.signatures + [sig]);
      pending := Some(p);
      return E.Signed(|p.signatures| >= p.finalityThreshold);
    }

    /** The tail shared by finalization and acceptance. */
    method ExtendTip(header: E.Header)
      modifies this
      ensures Snapshot() == E.Extend(crypto, old(Snapshot()), header)
    {
      var hash := crypto.hash(header);
      height := header.height;
      tip := hash;
      recent := recent + [hash];
      if |recent| > E.MAX_RECENT_BLOCKS {
        var drainCount := |recent| - E.MAX_RECENT_BLOCKS;
        recent := recent[drainCount..];
      }
      pending := None;
      status := E.Active;
    }

    method FinalizePendingBlock(force: bool) returns (out: E.Outcome)
      modifies this
      ensures (Snapshot(), out) == E.Finalize(crypto, old(Snapshot()), force)
    {
      if force && committee.Some? {
        var realMembers := RealSigners(committee.value.members);
        if realMembers > 1 {
          return E.Refused;
        }
      }
      if pending.None? {
        return E.Refused;
      }
      var p := pending.value;
      pending := None;
      if force {
        if p.signatures == [] || (p.finalityThreshold > 1 && |p.signatures| < p.finalityThreshold) {
          return E.Refused;
        }
      } else if |p.signatures| < p.finalityThreshold {
        return E.Refused;
      }
      ExtendTip(p.header);
      return E.Finalized(E.Block(p.header, p.signatures));
    }

    /** The producer and signature checks on an incoming block. */
    method ValidateBlock(c: ValidatorCommittee, b: E.Block, fastForward: bool) returns (ok: bool)
      ensures ok == E.BlockOk(crypto, c, b, fastForward)
    {
      if !E.ProducerOk(c, b.header.producer, fastForward) || |b.signatures| < 1 {
        return false;
      }
      var i := 0;
      while i < |b.signatures|
        invariant 0 <= i <= |b.signatures|
        invariant forall j :: 0 <= j < i ==> E.SignatureOk(crypto, c, b.header, b.signatures[j])
      {
        var good := CheckSignature(c, b.header, b.signatures[i]);
        if !good {
          return false;
        }
        i := i + 1;
      }
      return true;
    }

    method ProcessIncomingBlock(b: E.Block, transactionsOk: bool) returns (out: E.Outcome)
      modifies this
      ensures (Snapshot(), out) == E.Process(crypto, old(Snapshot()), b, transactionsOk)
    {
      var expected := height + 1;
      if b.header.height <= height {
        return E.Skipped;
      }
      if b.header.height > expected && b.header.height - height != 2 {
        return E.ForkDetected;
      }
      var fastForward := b.header.height > expected;
      if !fastForward && b.header.parent != tip {
        return E.ForkDetected;
      }
      var hash := crypto.hash(b.header);
      var key := (b.header.height, b.header.producer);
      if key in seen && seen[key] != hash {
        return E.Refused;
      }
      seen := seen[key := hash];
      if height > E.PROPOSAL_WINDOW {
        var cutoff := height - E.PROPOSAL_WINDOW;
        seen := map x | x in seen && x.0 > cutoff :: seen[x];
      }
      assert seen == E.Notice(crypto, old(Snapshot()), b);
      if committee.Some? {
        var ok := ValidateBlock(committee.value, b, fastForward);
        if !ok {
          return E.Refused;
        }
      }
      if !transactionsOk {
        return E.Refused;
      }
      ExtendTip(b.header);
      return E.Accepted;
    }

    method RollbackTo(height: nat, tip: Hash) returns (out: E.Outcome)
      modifies this
      ensures (Snapshot(), out) == E.Rollback(old(Snapshot()), height, tip)
    {
      if height > 0 && this.height > height && this.height - height > E.MAX_ROLLBACK_DEPTH {
        return E.Refused;
      }
      this.height := height;
      this.tip := tip;
      pending := None;
      recent := [];
      status := E.Active;
      return E.Done;
    }
  }
}
