/** What each operation of the consensus engine decides, in terms of keys, counts and heights. */
module EngineRules {
  import opened Bytes
  import opened Identifiers
  import opened Committee
  import opened Engine
  import opened Counting
  import W = CommitteeWeights

  /** Everything but the pending block is as it was. */
  predicate OnlyPending(s: State, t: State) { t == s.(pending := t.pending) }

  // --------------------------------------------------------------- signatures

  /** No signature of this validator is on the list. */
  predicate Unsigned(signatures: seq<Signature>, id: NodeId) {
    forall x <- signatures :: x.validator != id
  }

  /** A signature is added exactly if a block is pending, its validator has not signed it, and it is
      genuine to the committee; it then comes last, and completes the block once the stored threshold is
      reached. Everything else leaves the engine as it was. */
  lemma SignatureIsAdded(k: Crypto, s: State, sig: Signature, c: ValidatorCommittee)
    requires s.committee == Some(c) && OneSeatEach(c)
    ensures var (t, out) := AddSignature(k, s, sig);
            && (out.Signed? <==>
                  && s.pending.Some? && Unsigned(s.pending.value.signatures, sig.validator)
                  && Genuine(k, c, s.pending.value.header, sig))
            && (!out.Signed? ==> t == s)
            && (out.Signed? ==>
                  var p := s.pending.value;
                  && OnlyPending(s, t) && t.pending == Some(p.(signatures := p.signatures + [sig]))
                  && (out.final <==> |p.signatures| + 1 >= p.finalityThreshold))
  {
    if s.pending.Some? {
      OkIffGenuine(k, c, s.pending.value.header, sig);
      assert HasSigned(s.pending.value.signatures, sig.validator)
        <==> !Unsigned(s.pending.value.signatures, sig.validator);
    }
  }

  // -------------------------------------------------------------- finalization

  /** The chain ends in this block, nothing is pending, and the engine may produce again. */
  predicate EndsIn(k: Crypto, s: State, t: State, header: Header) {
    && t.height == header.height && t.tip == k.hash(header) && t.pending.None? && t.status.Active?
    && t.nodeId == s.nodeId && t.committee == s.committee
    && t.recent != [] && t.recent[|t.recent| - 1] == k.hash(header)
  }

  /** A pending block is finalized exactly if it has as many signatures as it needs, and by force only if
      it has one at all and no two members of the committee have keys. A block that fell short is
      dropped; a refused force leaves it. */
  lemma FinalizedIffSigned(k: Crypto, s: State, force: bool)
    ensures var (t, out) := Finalize(k, s, force);
            var blocked := force && s.committee.Some? && W.TwoKeys(s.committee.value.members);
            && (out.Finalized? <==>
                  && !blocked && s.pending.Some?
                  && |s.pending.value.signatures| >= s.pending.value.finalityThreshold
                  && (force ==> s.pending.value.signatures != []))
            && (out.Finalized? ==>
                  var p := s.pending.value;
                  out.block == Block(p.header, p.signatures) && EndsIn(k, s, t, p.header) && t.seen == s.seen)
            && (!out.Finalized? ==> out.Refused? && t == if blocked then s else s.(pending := None))
  {
    if s.committee.Some? {
      W.RealSignersMeans(s.committee.value.members);
    }
  }

  // ------------------------------------------------------------ incoming blocks

  /** The producer is a member, with a key of its own if heights are skipped, and all signatures, at
      least one, are genuine. */
  ghost predicate WellSigned(k: Crypto, c: ValidatorCommittee, b: Block, skips: bool) {
    && (exists i :: 0 <= i < |c.members| && c.members[i].nodeId == b.header.producer
                    && (skips ==> c.members[i].signingPubkey != []))
    && |b.signatures| >= 1
    && forall i :: 0 <= i < |b.signatures| ==> Genuine(k, c, b.header, b.signatures[i])
  }

  /** The engine remembers another block of this producer at this height. */
  ghost predicate SecondProposal(k: Crypto, s: State, b: Block) {
    exists x :: x in s.seen && x == (b.header.height, b.header.producer) && s.seen[x] != k.hash(b.header)
  }

  lemma WellSignedIffOk(k: Crypto, c: ValidatorCommittee, b: Block, skips: bool)
    requires OneSeatEach(c)
    ensures BlockOk(k, c, b, skips) <==> WellSigned(k, c, b, skips)
  {
    forall i | 0 <= i < |b.signatures|
      ensures SignatureOk(k, c, b.header, b.signatures[i]) <==> Genuine(k, c, b.header, b.signatures[i])
    {
      OkIffGenuine(k, c, b.header, b.signatures[i]);
    }
  }

  /** A block is accepted exactly if it is the child of the tip, or two heights above it, is not its
      producer's second proposal, is well signed under the committee, if there is one, and its
      transactions hold. An old block is skipped, and a gap or a foreign parent is a fork. */
  lemma AcceptedIff(k: Crypto, s: State, b: Block, transactionsOk: bool)
    requires s.committee.Some? ==> OneSeatEach(s.committee.value)
    ensures var (t, out) := Process(k, s, b, transactionsOk);
            var child := b.header.height == s.height + 1 && b.header.parent == s.tip;
            var skips := b.header.height == s.height + 2;
            && (out.Accepted? <==>
                  && (child || skips) && !SecondProposal(k, s, b) && transactionsOk
                  && (s.committee.Some? ==> WellSigned(k, s.committee.value, b, skips)))
            && (out.Skipped? <==> b.header.height <= s.height)
            && (out.ForkDetected? <==> b.header.height > s.height && !child && !skips)
            && (out.Accepted? ==> EndsIn(k, s, t, b.header))
            && (!out.Accepted? ==> t == s.(seen := t.seen))
            && (out.Skipped? || out.ForkDetected? || SecondProposal(k, s, b) ==> t == s)
  {
    assert SecondProposal(k, s, b) <==> Equivocates(k, s, b);
    if s.committee.Some? {
      WellSignedIffOk(k, s.committee.value, b, b.header.height == s.height + 2);
    }
  }

  /** What is remembered of proposals after a block was looked at: this one and the earlier ones, from a
      tip above 100 on those less than 100 heights below it. */
  lemma ProposalMemory(k: Crypto, s: State, b: Block, x: (nat, NodeId))
    ensures var seen, now := Notice(k, s, b), (b.header.height, b.header.producer);
            && (x in seen <==> (x == now || x in s.seen) && (s.height <= 100 || s.height < x.0 + 100))
            && (x in seen ==> seen[x] == if x == now then k.hash(b.header) else s.seen[x])
  {
  }

  // ------------------------------------------------------ rotation and rollback

  lemma RoundOf(n: nat, q: nat, i: nat)
    requires i < n
    ensures (q * n + i) % n == i
  {
    var d := (q * n + i) / n;
    DivBounds(q * n + i, n);
    OneMore(q, n);
    if d < q {
      MulMonotone(d + 1, q, n);
    } else if d > q {
      MulMonotone(q + 1, d, n);
    }
  }

  /** Producers take turns in seat order from the first slot of the epoch on, round after round. */
  lemma Rotation(c: ValidatorCommittee, round: nat, seat: nat)
    requires seat < |c.members|
    ensures ProducerFor(c, c.startSlot + round * |c.members| + seat) == Some(c.members[seat].nodeId)
  {
    RoundOf(|c.members|, round, seat);
  }

  /** Nobody produces before the epoch starts or in an empty committee. */
  lemma NoProducer(c: ValidatorCommittee, slot: nat)
    ensures ProducerFor(c, slot) == None <==> slot < c.startSlot || c.members == []
  {
  }

  /** The engine turns to producing exactly on its own turn at the next height, if it is not syncing. */
  lemma TurnMeans(s: State)
    ensures AdvanceSlot(s) == s.(status := AdvanceSlot(s).status)
    ensures AdvanceSlot(s).status != s.status <==>
        && !s.status.Syncing? && !s.status.Producing? && s.committee.Some?
        && ProducerFor(s.committee.value, s.height + 1) == Some(s.nodeId)
    ensures AdvanceSlot(s).status != s.status ==> AdvanceSlot(s).status.Producing?
  {
  }

  /** A block is produced exactly in the producing state under a committee, if it fits: on the tip, by
      this node, without signatures and with the committee's threshold. */
  lemma ProducedMeans(s: State, content: nat, fits: bool)
    ensures var (t, out) := Produce(s, content, fits);
            && (out.Done? <==> s.status.Producing? && s.committee.Some? && fits)
            && (!out.Done? ==> out.Refused? && t == s)
            && (out.Done? ==>
                  && OnlyPending(s, t) && t.pending.Some?
                  && t.pending.value.header == Header(s.height + 1, s.tip, s.nodeId, content)
                  && t.pending.value.signatures == []
                  && t.pending.value.finalityThreshold == s.committee.value.finalityThreshold)
  {
  }

  /** A rollback goes at most 128 blocks down, or to genesis; it then forgets the pending block and the
      recent hashes, and keeps the memory of proposals. */
  lemma RollbackMeans(s: State, height: nat, tip: Hash)
    ensures var (t, out) := Rollback(s, height, tip);
            && (out.Done? <==> height == 0 || s.height <= height + 128)
            && (!out.Done? ==> out.Refused? && t == s)
            && (out.Done? ==> t == State(s.nodeId, Active, s.committee, height, tip, [], None, s.seen))
  {
  }
}
