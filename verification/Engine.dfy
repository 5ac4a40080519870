/** The consensus engine (gratia-consensus/src/lib.rs, block_production.rs) as a transition
    system on values; `EngineNode.dfy` holds the class that refines it. Header hashing and
    signature verification are parameters; transaction checks are a flag of the event. */
module Engine {
  import opened Bytes
  import opened Identifiers
  import opened Committee
  import opened Counting
  import W = CommitteeWeights

  /** `content` stands for the fields that only enter the hash. */
  datatype Header = Header(height: nat, parent: Hash, producer: NodeId, content: nat)

  datatype Signature = Signature(validator: NodeId, bytes: seq<Byte>)

  datatype Block = Block(header: Header, signatures: seq<Signature>)

  datatype PendingBlock = PendingBlock(header: Header, signatures: seq<Signature>, finalityThreshold: nat)

  datatype Crypto = Crypto(hash: Header -> Hash, verify: (Header, Signature, seq<Byte>) -> bool)

  datatype Status = Syncing | Active | Producing | Stopped

  datatype State = State(
    nodeId: NodeId,
    status: Status,
    committee: Option<ValidatorCommittee>,
    height: nat,
    tip: Hash,
    recent: seq<Hash>,
    pending: Option<PendingBlock>,
    seen: map<(nat, NodeId), Hash>)

  const MAX_RECENT_BLOCKS := 128
  const MAX_ROLLBACK_DEPTH := 128
  const PROPOSAL_WINDOW := 100

  datatype Outcome = Done | Signed(final: bool) | Finalized(block: Block) | Accepted | Skipped | ForkDetected | Refused

  // ----------------------------------------------------------- committee use

  predicate IsMember(c: ValidatorCommittee, id: NodeId) {
    exists i :: 0 <= i < |c.members| && c.members[i].nodeId == id
  }

  /** The signing key of the first member with this id; empty when unknown. */
  function SigningKey(members: seq<Member>, id: NodeId): seq<Byte> {
    if members == [] then []
    else if members[0].nodeId == id then members[0].signingPubkey
    else SigningKey(members[1..], id)
  }

  /** A member's signature counts if it verifies, or if it has no key and there is at most one real signer. */
  predicate SignatureOk(k: Crypto, c: ValidatorCommittee, header: Header, sig: Signature) {
    && IsMember(c, sig.validator)
    && var key := SigningKey(c.members, sig.validator);
       if key != [] then k.verify(header, sig, key) else RealSigners(c.members) <= 1
  }

  /** Round robin over the members, starting with the epoch. */
  function ProducerFor(c: ValidatorCommittee, slot: nat): Option<NodeId> {
    if c.members == [] || slot < c.startSlot then None
    else Some(c.members[(slot - c.startSlot) % |c.members|].nodeId)
  }

  // ------------------------------------------------------------------- steps

  /** It is this node's turn to produce the next block. */
  predicate IsOurTurn(s: State) {
    !s.status.Syncing? && s.committee.Some? && ProducerFor(s.committee.value, s.height + 1) == Some(s.nodeId)
  }

  function AdvanceSlot(s: State): State {
    if IsOurTurn(s) then s.(status := Producing) else s
  }

  /** Starts a pending block on the tip; `fits` is the size check. */
  function Produce(s: State, content: nat, fits: bool): (State, Outcome) {
    if !s.status.Producing? || s.committee.None? || !fits then (s, Refused)
    else
      var header := Header(s.height + 1, s.tip, s.nodeId, content);
      (s.(pending := Some(PendingBlock(header, [], s.committee.value.finalityThreshold))), Done)
  }

  predicate HasSigned(signatures: seq<Signature>, id: NodeId) {
    exists i :: 0 <= i < |signatures| && signatures[i].validator == id
  }

  function AddSignature(k: Crypto, s: State, sig: Signature): (State, Outcome) {
    if s.pending.None? then (s, Refused)
    else
      var p := s.pending.value;
      if s.committee.Some? && !SignatureOk(k, s.committee.value, p.header, sig) then (s, Refused)
      else if HasSigned(p.signatures, sig.validator) then (s, Refused)
      else
        var p' := p.(signatures := p.signatures + [sig]);
        (s.(pending := Some(p')), Signed(|p'.signatures| >= p'.finalityThreshold))
  }

  /** Whether a pending block may be closed, by collected signatures or by force. */
  predicate CanFinalize(p: PendingBlock, force: bool) {
    if force then p.signatures != [] && (p.finalityThreshold > 1 ==> |p.signatures| >= p.finalityThreshold)
    else |p.signatures| >= p.finalityThreshold
  }

  function Remember(recent: seq<Hash>, hash: Hash): seq<Hash> {
    var longer := recent + [hash];
    if |longer| > MAX_RECENT_BLOCKS then longer[|longer| - MAX_RECENT_BLOCKS..] else longer
  }

  /** The tip moves to a block; nothing is pending afterwards. */
  function Extend(k: Crypto, s: State, header: Header): State {
    s.(height := header.height, tip := k.hash(header), recent := Remember(s.recent, k.hash(header)),
       pending := None, status := Active)
  }

  /** Finalizes the pending block; a failed attempt discards it. Force is refused while there are
      two or more real signers. */
  function Finalize(k: Crypto, s: State, force: bool): (State, Outcome) {
    if force && s.committee.Some? && RealSigners(s.committee.value.members) > 1 then (s, Refused)
    else if s.pending.None? then (s, Refused)
    else if !CanFinalize(s.pending.value, force) then (s.(pending := None), Refused)
    else
      var p := s.pending.value;
      (Extend(k, s, p.header), Finalized(Block(p.header, p.signatures)))
  }

  predicate ProducerOk(c: ValidatorCommittee, id: NodeId, fastForward: bool) {
    if fastForward
    then exists i :: 0 <= i < |c.members| && c.members[i].nodeId == id && c.members[i].signingPubkey != []
    else IsMember(c, id)
  }

  predicate BlockOk(k: Crypto, c: ValidatorCommittee, b: Block, fastForward: bool) {
    && ProducerOk(c, b.header.producer, fastForward)
    && b.signatures != []
    && forall i :: 0 <= i < |b.signatures| ==> SignatureOk(k, c, b.header, b.signatures[i])
  }

  /** The equivocation memory after a block was seen. */
  function Notice(k: Crypto, s: State, b: Block): map<(nat, NodeId), Hash> {
    var seen := s.seen[(b.header.height, b.header.producer) := k.hash(b.header)];
    if s.height > PROPOSAL_WINDOW then map x | x in seen && x.0 > s.height - PROPOSAL_WINDOW :: seen[x] else seen
  }

  predicate Equivocates(k: Crypto, s: State, b: Block) {
    var key := (b.header.height, b.header.producer);
    key in s.seen && s.seen[key] != k.hash(b.header)
  }

  /** A block at the next height must extend the tip; two ahead is taken as a fast-forward without a
      parent check; further ahead, or off the tip, is a fork. */
  function Process(k: Crypto, s: State, b: Block, transactionsOk: bool): (State, Outcome) {
    var fastForward := b.header.height == s.height + 2;
    if b.header.height <= s.height then (s, Skipped)
    else if b.header.height > s.height + 2 then (s, ForkDetected)
    else if !fastForward && b.header.parent != s.tip then (s, ForkDetected)
    else if Equivocates(k, s, b) then (s, Refused)
    else
      var s' := s.(seen := Notice(k, s, b));
      if s.committee.Some? && !BlockOk(k, s.committee.value, b, fastForward) then (s', Refused)
      else if !transactionsOk then (s', Refused)
      else (Extend(k, s', b.header), Accepted)
  }

  /** Deep rollbacks are refused, except to genesis. */
  function Rollback(s: State, height: nat, tip: Hash): (State, Outcome) {
    if height > 0 && s.height > height && s.height - height > MAX_ROLLBACK_DEPTH then (s, Refused)
    else (s.(height := height, tip := tip, pending := None, recent := [], status := Active), Done)
  }

  datatype Event =
    | EnterEpoch(committee: ValidatorCommittee, startup: bool)
    | Slot
    | ForceProducing
    | ProduceBlock(content: nat, fits: bool)
    | Sign(signature: Signature)
    | Close(force: bool)
    | Receive(block: Block, transactionsOk: bool)
    | RollBack(height: nat, tip: Hash)
    | Forget(atHeight: nat)
    | DropPending
    | Stop

  function Step(k: Crypto, s: State, e: Event): (State, Outcome) {
    match e
    case EnterEpoch(c, startup) => (s.(committee := Some(c), status := if startup then Active else s.status), Done)
    case Slot => (AdvanceSlot(s), Done)
    case ForceProducing => (s.(status := Producing), Done)
    case ProduceBlock(content, fits) => Produce(s, content, fits)
    case Sign(signature) => AddSignature(k, s, signature)
    case Close(force) => Finalize(k, s, force)
    case Receive(block, ok) => Process(k, s, block, ok)
    case RollBack(height, tip) => Rollback(s, height, tip)
    case Forget(height) => (s.(seen := map x | x in s.seen && x.0 != height :: s.seen[x]), Done)
    case DropPending => (s.(pending := None), Done)
    case Stop => (s.(status := Stopped, pending := None), Done)
  }

  // -------------------------------------------------------------------- runs

  /** An engine together with what it has appended since it started or last rolled back, the committee
      its pending block was produced under, and the committee in force when each of its signatures was
      added. */
  datatype History = History(
    state: State,
    baseHeight: nat,
    baseTip: Hash,
    log: seq<Header>,
    producedUnder: Option<ValidatorCommittee>,
    signedUnder: seq<ValidatorCommittee>)

  function Start(nodeId: NodeId, height: nat, tip: Hash): History {
    History(State(nodeId, Syncing, None, height, tip, [], None, map[]), height, tip, [], None, [])
  }

  function Next(k: Crypto, h: History, e: Event): History {
    var (s, out) := Step(k, h.state, e);
    var h' := h.(state := s, producedUnder := ProducedUnder(h, s, e, out), signedUnder := SignedUnder(h, s, e, out));
    if out.Finalized? then h'.(log := h.log + [out.block.header])
    else if out.Accepted? then h'.(log := h.log + [e.block.header])
    else if e.RollBack? && out.Done? then h'.(baseHeight := e.height, baseTip := e.tip, log := [])
    else h'
  }

  function ProducedUnder(h: History, s: State, e: Event, out: Outcome): Option<ValidatorCommittee> {
    if s.pending.None? then None
    else if e.ProduceBlock? && out.Done? then s.committee
    else h.producedUnder
  }

  function SignedUnder(h: History, s: State, e: Event, out: Outcome): seq<ValidatorCommittee> {
    if s.pending.None? || (e.ProduceBlock? && out.Done?) then []
    else if out.Signed? && s.committee.Some? then h.signedUnder + [s.committee.value]
    else h.signedUnder
  }

  function Run(k: Crypto, h: History, events: seq<Event>): History {
    if events == [] then h else Next(k, Run(k, h, events[..|events| - 1]), events[|events| - 1])
  }

  // -------------------------------------------------------------- chain linkage

  function HeightAt(h: History, n: nat): nat
    requires n <= |h.log|
  {
    if n == 0 then h.baseHeight else h.log[n - 1].height
  }

  function TipAt(k: Crypto, h: History, n: nat): Hash
    requires n <= |h.log|
  {
    if n == 0 then h.baseTip else k.hash(h.log[n - 1])
  }

  /** Entry n is the child of what precedes it, or an explicit jump of two heights. */
  ghost predicate LinkedAt(k: Crypto, h: History, n: nat)
    requires n < |h.log|
  {
    || (h.log[n].height == HeightAt(h, n) + 1 && h.log[n].parent == TipAt(k, h, n))
    || h.log[n].height == HeightAt(h, n) + 2
  }

  function Hashes(k: Crypto, log: seq<Header>): seq<Hash> {
    seq<Hash>(|log|, i requires 0 <= i < |log| => k.hash(log[i]))
  }

  function Last<T>(s: seq<T>, n: nat): seq<T> {
    if |s| <= n then s else s[|s| - n..]
  }

  ghost predicate ChainOk(k: Crypto, h: History) {
    && (h.state.pending.Some? ==>
          && h.state.pending.value.header.height == h.state.height + 1
          && h.state.pending.value.header.parent == h.state.tip)
    && h.state.height == HeightAt(h, |h.log|) && h.state.tip == TipAt(k, h, |h.log|)
    && (forall n :: 0 <= n < |h.log| ==> LinkedAt(k, h, n))
    && h.state.recent == Last(Hashes(k, h.log), 128)
  }

  lemma RememberIsSuffix(hashes: seq<Hash>, hash: Hash)
    ensures Remember(Last(hashes, MAX_RECENT_BLOCKS), hash) == Last(hashes + [hash], MAX_RECENT_BLOCKS)
  {
  }

  /** Appending one entry keeps all older links and adds one. */
  lemma AppendKeepsChain(k: Crypto, h: History, h': History, header: Header)
    requires ChainOk(k, h)
    requires h'.baseHeight == h.baseHeight && h'.baseTip == h.baseTip && h'.log == h.log + [header]
    requires h'.state.height == header.height && h'.state.tip == k.hash(header) && h'.state.pending.None?
    requires h'.state.recent == Remember(h.state.recent, k.hash(header))
    requires || (header.height == h.state.height + 1 && header.parent == h.state.tip)
             || header.height == h.state.height + 2
    ensures ChainOk(k, h')
  {
    var n := |h.log|;
    forall i | 0 <= i < |h'.log| ensures LinkedAt(k, h', i) {
      if i < n {
        assert LinkedAt(k, h, i);
      }
      assert HeightAt(h', i) == HeightAt(h, i) && TipAt(k, h', i) == TipAt(k, h, i);
    }
    assert Hashes(k, h'.log) == Hashes(k, h.log) + [k.hash(header)];
    RememberIsSuffix(Hashes(k, h.log), k.hash(header));
  }

  lemma NextKeepsChain(k: Crypto, h: History, e: Event)
    requires ChainOk(k, h)
    ensures ChainOk(k, Next(k, h, e))
  {
    var (s, out) := Step(k, h.state, e);
    var h' := Next(k, h, e);
    if out.Finalized? {
      AppendKeepsChain(k, h, h', out.block.header);
    } else if out.Accepted? {
      AppendKeepsChain(k, h, h', e.block.header);
    } else if e.RollBack? && out.Done? {
      assert Hashes(k, []) == [];
    } else {
      assert s.height == h.state.height && s.tip == h.state.tip && s.recent == h.state.recent;
      assert forall n :: 0 <= n < |h.log| ==> LinkedAt(k, h, n) == LinkedAt(k, h', n);
    }
  }

  /** In every run a pending block extends the tip; the log since the last rollback is hash-linked
      except for explicit jumps of two; and the recent hashes are its last 128 entries. */
  lemma {:induction false} ChainLinkage(k: Crypto, nodeId: NodeId, height: nat, tip: Hash, events: seq<Event>)
    ensures ChainOk(k, Run(k, Start(nodeId, height, tip), events))
  {
    if events == [] {
      assert Hashes(k, []) == [];
    } else {
      var before := events[..|events| - 1];
      ChainLinkage(k, nodeId, height, tip, before);
      NextKeepsChain(k, Run(k, Start(nodeId, height, tip), before), events[|events| - 1]);
    }
  }

  // ------------------------------------------------------ equivocation memory

  /** The engine remembers this block as its producer's only one at its height. */
  predicate Remembers(k: Crypto, s: State, header: Header) {
    (header.height, header.producer) in s.seen && s.seen[(header.height, header.producer)] == k.hash(header)
  }

  /** The event neither drops this height on purpose nor happens a window above it. */
  predicate KeepsMemory(s: State, e: Event, header: Header) {
    s.height < header.height + PROPOSAL_WINDOW && e != Forget(header.height)
  }

  lemma StepRemembers(k: Crypto, s: State, e: Event, header: Header)
    requires Remembers(k, s, header) && KeepsMemory(s, e, header)
    ensures Remembers(k, Step(k, s, e).0, header)
  {
    if e.Receive? && !Equivocates(k, s, e.block) {
      assert (header.height, header.producer) in Notice(k, s, e.block);
    }
  }

  /** The state after some events. */
  function After(k: Crypto, s: State, events: seq<Event>): State
    decreases |events|
  {
    if events == [] then s else After(k, Step(k, s, events[0]).0, events[1..])
  }

  /** None of the events makes the engine forget the block. */
  predicate Kept(k: Crypto, s: State, events: seq<Event>, header: Header)
    decreases |events|
  {
    events == [] || (KeepsMemory(s, events[0], header) && Kept(k, Step(k, s, events[0]).0, events[1..], header))
  }

  lemma {:induction false} RunRemembers(k: Crypto, s: State, events: seq<Event>, header: Header)
    requires Remembers(k, s, header) && Kept(k, s, events, header)
    ensures Remembers(k, After(k, s, events), header)
    decreases |events|
  {
    if events != [] {
      StepRemembers(k, s, events[0], header);
      RunRemembers(k, Step(k, s, events[0]).0, events[1..], header);
    }
  }

  /** From any state and over any events, rollbacks included: once a block was accepted, no other
      block of its producer at its height changes the engine, until the engine has reached a window
      above it or is told to forget that height. */
  lemma NoSecondBlock(k: Crypto, s: State, a: Block, aOk: bool, events: seq<Event>, b: Block, bOk: bool)
    requires Process(k, s, a, aOk).1.Accepted? && Kept(k, Process(k, s, a, aOk).0, events, a.header)
    requires b.header.height == a.header.height && b.header.producer == a.header.producer
    requires k.hash(b.header) != k.hash(a.header)
    ensures var t := After(k, Process(k, s, a, aOk).0, events);
            Process(k, t, b, bOk).0 == t && !Process(k, t, b, bOk).1.Accepted?
  {
    assert (a.header.height, a.header.producer) in Notice(k, s, a);
    RunRemembers(k, Process(k, s, a, aOk).0, events, a.header);
  }

  // ------------------------------------------------------------ certificates

  /** What selection guarantees of a committee's size and threshold. */
  predicate WellFormed(c: ValidatorCommittee) {
    var tier := TierFor(c.networkSize);
    && |c.members| <= tier.committeeSize
    && c.finalityThreshold == if RealSigners(c.members) <= 1 then 1 else tier.finalityThreshold
  }

  lemma SelectedIsWellFormed(o: Oracle, nodes: seq<EligibleNode>, seed: Digest, epoch: nat, slot: nat,
                             networkSize: nat, history: Option<seq<seq<NodeId>>>)
    requires Select(o, nodes, seed, epoch, slot, networkSize, history).Ok?
    ensures WellFormed(Select(o, nodes, seed, epoch, slot, networkSize, history).value)
  {
  }

  ghost predicate SignersDistinct(signatures: seq<Signature>) {
    forall i, j :: 0 <= i < j < |signatures| ==> signatures[i].validator != signatures[j].validator
  }

  /** The signature is by a member; it verifies under that member's key, or the member has no key and no
      two members have one. */
  ghost predicate Genuine(k: Crypto, c: ValidatorCommittee, header: Header, sig: Signature) {
    exists i :: 0 <= i < |c.members| && GenuineBy(k, c, header, sig, i)
  }

  ghost predicate GenuineBy(k: Crypto, c: ValidatorCommittee, header: Header, sig: Signature, i: nat)
    requires i < |c.members|
  {
    && c.members[i].nodeId == sig.validator
    && if c.members[i].signingPubkey != [] then k.verify(header, sig, c.members[i].signingPubkey)
       else !W.TwoKeys(c.members)
  }

  lemma {:induction false} KeyHolder(members: seq<Member>, id: NodeId) returns (i: nat)
    requires exists j :: 0 <= j < |members| && members[j].nodeId == id
    ensures i < |members| && members[i].nodeId == id && SigningKey(members, id) == members[i].signingPubkey
  {
    if members[0].nodeId == id {
      i := 0;
    } else {
      var j :| 0 <= j < |members| && members[j].nodeId == id;
      assert members[1..][j - 1].nodeId == id;
      i := KeyHolder(members[1..], id);
      i := i + 1;
    }
  }

  lemma OkIsGenuine(k: Crypto, c: ValidatorCommittee, header: Header, sig: Signature)
    requires SignatureOk(k, c, header, sig)
    ensures Genuine(k, c, header, sig)
  {
    var i := KeyHolder(c.members, sig.validator);
    W.RealSignersMeans(c.members);
    assert GenuineBy(k, c, header, sig, i);
  }

  ghost predicate OneSeatEach(c: ValidatorCommittee) {
    forall i, j :: 0 <= i < j < |c.members| ==> c.members[i].nodeId != c.members[j].nodeId
  }

  /** With one seat per id, the signature check accepts the genuine signatures and no others. */
  lemma OkIffGenuine(k: Crypto, c: ValidatorCommittee, header: Header, sig: Signature)
    requires OneSeatEach(c)
    ensures SignatureOk(k, c, header, sig) <==> Genuine(k, c, header, sig)
  {
    if SignatureOk(k, c, header, sig) {
      OkIsGenuine(k, c, header, sig);
    }
    if Genuine(k, c, header, sig) {
      var i :| 0 <= i < |c.members| && GenuineBy(k, c, header, sig, i);
      var j := KeyHolder(c.members, sig.validator);
      W.RealSignersMeans(c.members);
      assert i == j;
    }
  }

  /** Distinct signers, each genuine for the header to the committee at its place. */
  ghost predicate SignedBy(k: Crypto, under: seq<ValidatorCommittee>, header: Header, signatures: seq<Signature>) {
    && SignersDistinct(signatures) && |under| == |signatures|
    && forall i :: 0 <= i < |signatures| ==> Genuine(k, under[i], header, signatures[i])
  }

  ghost predicate PendingOk(k: Crypto, s: State, produced: Option<ValidatorCommittee>, under: seq<ValidatorCommittee>) {
    s.pending.Some? ==>
      && s.committee.Some? && produced.Some?
      && s.pending.value.finalityThreshold == produced.value.finalityThreshold
      && SignedBy(k, under, s.pending.value.header, s.pending.value.signatures)
  }

  ghost predicate SigningOk(k: Crypto, h: History) { PendingOk(k, h.state, h.producedUnder, h.signedUnder) }

  lemma SignKeepsPending(k: Crypto, s: State, produced: Option<ValidatorCommittee>, under: seq<ValidatorCommittee>,
                         sig: Signature)
    requires PendingOk(k, s, produced, under)
    ensures var (t, out) := AddSignature(k, s, sig);
            if out.Signed? then s.committee.Some? && PendingOk(k, t, produced, under + [s.committee.value]) else t == s
  {
    if AddSignature(k, s, sig).1.Signed? {
      var p := s.pending.value;
      OkIsGenuine(k, s.committee.value, p.header, sig);
      SignatureAdded(k, s.committee.value, under, p.header, p.signatures, sig);
    }
  }

  lemma NextKeepsSigning(k: Crypto, h: History, e: Event)
    requires SigningOk(k, h)
    ensures SigningOk(k, Next(k, h, e))
  {
    if e.Sign? {
      SignKeepsPending(k, h.state, h.producedUnder, h.signedUnder, e.signature);
    }
  }

  lemma SignatureAdded(k: Crypto, c: ValidatorCommittee, under: seq<ValidatorCommittee>, header: Header,
                       signatures: seq<Signature>, sig: Signature)
    requires SignedBy(k, under, header, signatures) && Genuine(k, c, header, sig)
    requires !HasSigned(signatures, sig.validator)
    ensures SignedBy(k, under + [c], header, signatures + [sig])
  {
    assert forall i :: 0 <= i < |signatures| ==> signatures[i].validator != sig.validator;
  }

  lemma {:induction false} RunKeepsSigning(k: Crypto, nodeId: NodeId, height: nat, tip: Hash, events: seq<Event>)
    ensures SigningOk(k, Run(k, Start(nodeId, height, tip), events))
  {
    if events != [] {
      var before := events[..|events| - 1];
      RunKeepsSigning(k, nodeId, height, tip, before);
      NextKeepsSigning(k, Run(k, Start(nodeId, height, tip), before), events[|events| - 1]);
    }
  }

  /** In every run, however committees change, every block returned by normal or forced finalization
      has distinct signers, as many as the committee it was produced under demands, each genuine to the
      committee in force when it signed. */
  lemma FinalizedIsSigned(k: Crypto, nodeId: NodeId, height: nat, tip: Hash, events: seq<Event>, force: bool)
    ensures var h := Run(k, Start(nodeId, height, tip), events);
            var (_, out) := Finalize(k, h.state, force);
            out.Finalized? ==>
              && SignedBy(k, h.signedUnder, out.block.header, out.block.signatures)
              && h.producedUnder.Some?
              && |out.block.signatures| >= h.producedUnder.value.finalityThreshold
              && (force ==> out.block.signatures != [])
  {
    RunKeepsSigning(k, nodeId, height, tip, events);
  }

  /** A block carries enough genuine signatures of distinct members of one committee. */
  ghost predicate Certificate(k: Crypto, c: ValidatorCommittee, b: Block) {
    && SignersDistinct(b.signatures) && |b.signatures| >= 1 && |b.signatures| >= c.finalityThreshold
    && forall i :: 0 <= i < |b.signatures| ==> Genuine(k, c, b.header, b.signatures[i])
  }

  lemma ThresholdPositive(c: ValidatorCommittee)
    requires WellFormed(c)
    ensures c.finalityThreshold >= 1
  {
    assert TierFor(c.networkSize) in SCALING_TIERS;
  }

  lemma OneCommitteeCertifies(k: Crypto, c: ValidatorCommittee, under: seq<ValidatorCommittee>, b: Block)
    requires WellFormed(c) && SignedBy(k, under, b.header, b.signatures) && |b.signatures| >= c.finalityThreshold
    requires forall i :: 0 <= i < |under| ==> under[i] == c
    ensures Certificate(k, c, b)
  {
    ThresholdPositive(c);
  }

  /** So it carries a certificate of the committee it was produced under if all signed under that one. */
  lemma FinalizedHasCertificate(k: Crypto, nodeId: NodeId, height: nat, tip: Hash, events: seq<Event>, force: bool,
                                c: ValidatorCommittee)
    requires WellFormed(c)
    requires var h := Run(k, Start(nodeId, height, tip), events);
             h.producedUnder == Some(c) && forall i :: 0 <= i < |h.signedUnder| ==> h.signedUnder[i] == c
    ensures var (_, out) := Finalize(k, Run(k, Start(nodeId, height, tip), events).state, force);
            out.Finalized? ==> Certificate(k, c, out.block)
  {
    FinalizedIsSigned(k, nodeId, height, tip, events, force);
    var h := Run(k, Start(nodeId, height, tip), events);
    var out := Finalize(k, h.state, force).1;
    if out.Finalized? {
      OneCommitteeCertifies(k, c, h.signedUnder, out.block);
    }
  }

  // ------------------------------------------------------------ intersection

  function Signers(signatures: seq<Signature>): set<NodeId> {
    set i | 0 <= i < |signatures| :: signatures[i].validator
  }

  function MemberIds(members: seq<Member>): set<NodeId> {
    set i | 0 <= i < |members| :: members[i].nodeId
  }

  lemma SignersCount(signatures: seq<Signature>)
    requires SignersDistinct(signatures)
    ensures |Signers(signatures)| == |signatures|
  {
    var ids := seq(|signatures|, i requires 0 <= i < |signatures| => signatures[i].validator);
    ElementsCount(ids);
    assert forall i :: 0 <= i < |signatures| ==> ids[i] == signatures[i].validator;
    assert Signers(signatures) == Elements(ids);
  }

  lemma MemberCount(members: seq<Member>)
    ensures |MemberIds(members)| <= |members|
  {
    var ids := seq(|members|, i requires 0 <= i < |members| => members[i].nodeId);
    ElementsCount(ids);
    assert forall i :: 0 <= i < |members| ==> ids[i] == members[i].nodeId;
    assert MemberIds(members) == Elements(ids);
  }

  /** With two or more real signers, at every tier, the signers of any two certificates of a committee
      of m members overlap in more than (m - 1) / 3 of them and in at least a third: two conflicting
      finalized blocks need that many members to have signed both. */
  lemma CertificatesOverlap(k: Crypto, c: ValidatorCommittee, a: Block, b: Block)
    requires WellFormed(c) && RealSigners(c.members) > 1 && Certificate(k, c, a) && Certificate(k, c, b)
    ensures var both := Signers(a.signatures) * Signers(b.signatures);
            && |both| > (|c.members| - 1) / 3
            && 3 * |both| >= |c.members|
            && both <= MemberIds(c.members)
  {
    var A, B := Signers(a.signatures), Signers(b.signatures);
    SignersCount(a.signatures);
    SignersCount(b.signatures);
    MemberCount(c.members);
    SignersAreMembers(k, c, a);
    SignersAreMembers(k, c, b);
    SubsetSize(A + B, MemberIds(c.members));
    assert |A + B| == |A| + |B| - |A * B|;
    assert TierFor(c.networkSize) in SCALING_TIERS;
  }

  lemma SignersAreMembers(k: Crypto, c: ValidatorCommittee, b: Block)
    requires Certificate(k, c, b)
    ensures Signers(b.signatures) <= MemberIds(c.members)
  {
    forall x | x in Signers(b.signatures) ensures x in MemberIds(c.members) {
      var i :| 0 <= i < |b.signatures| && b.signatures[i].validator == x;
      var j :| 0 <= j < |c.members| && GenuineBy(k, c, b.header, b.signatures[i], j);
    }
  }
}
