# Verification of the Gratia protocol core

Dafny models of the state machines that the Gratia chain agrees by, and proofs of
what they keep over every run.

- **Streamlet finality** (`Streamlet`, `StreamletNode`, `StreamletNetwork`, `StreamletChain`,
  `StreamletQuorum`, `StreamletStages`, `StreamletConflict`): proposals, votes, notarization,
  height-triple finality and pruning, for one node and for a network of honest and Byzantine
  validators; what makes finality agree, and the runs in which it does not.
- **Committee selection and rotation** (`Committee`, `CommitteeAgreement`, `CommitteeWeights`, `Cooldown`):
  the same committee from every ordering of the eligible nodes, weighted by presence scores, with
  cooldown over whole runs.
- **Consensus engine and fork choice** (`Engine`, `EngineNode`, `EngineRules`, `ForkChoice`): chain
  linkage, equivocation memory, verified finality certificates and convergence of forks.
- **Merkle root and inclusion check** (`Merkle`): the two loops agree, in both directions.
- **Mesh relay** (`Mesh`, `MeshNode`, `MeshNetwork`, `MeshRedelivery`): termination, a bound on
  transmissions, and what deduplication guarantees.
- **Emission** (`Emission`): the supply cap for every chain length and what a year pays, on 64-bit
  words.
- **Sync, governance, Lux feed, gossip deduplication** (`Sync`, `Governance`, `GovernanceNode`,
  `GovernanceLife`, `Feed`, `Dedup`).

Each component has a value-level model (datatypes, step functions, runs as sequences of events)
about which the theorems are stated, and, where the code updates objects in place, a class whose
methods carry the loops and mutations and are proved to compute exactly those steps. `Bytes` and
`Counting` hold shared vocabulary.

`dafny verify dfyconfig.toml` checks the whole project.

## Modelling decisions

- 32-byte hashes and node ids are natural numbers (the big-endian value), so that `<` is the byte
  order of the source; the Merkle model works on bytes.
- SHA-256, header hashes, message ids, proposal ids, signature verification and the VRF are
  function-valued parameters, and every theorem holds for all of them. The VRF is a partial
  function, since the selection code hands a zero output to a verifier that compares outputs.
- In the Streamlet network a block hash commits to its header, as the callers of `add_proposal`
  ensure by hashing it.
- Time, randomness of hash-map order and the network are parameters of events: ticks carry their
  time, evicted cache ids and equally preferred peers are arbitrary choices, packets may be lost and
  reordered.
- 64-bit arithmetic is modelled word by word in `Emission` and with saturation in `Governance`;
  elsewhere heights, epochs and counters are unbounded.

## Where the code differs from its comments or from what a caller may expect

- `streamlet.rs:13-15` and `249-252` claim that conflicting blocks cannot both be finalized, because
  two notarized blocks of one height need an equivocating third of the validators. The voting rule
  forbids a second vote per epoch, not per height, and neither it nor the finality check looks at
  parent links. `StreamletConflict.ConflictingFinality` builds, for every committee, a run of honest
  votes that finalizes two blocks of one height, and `StreamletConflict.OffChainFinality` one that
  finalizes a block off the chain of the starting block. A guard against second blocks of a height
  gives agreement per height only (`StreamletNetwork.HeightAgreement`,
  `StreamletNetwork.FinalityAgreement`); together with a check that the block extends a notarized one
  it gives the chain (`StreamletChain.ChainAgreement`), and both are needed
  (`StreamletConflict.ChainSafeIffGuarded`).
- Without either guard there is agreement per epoch, `StreamletNetwork.NetworkSafety`, if epochs never
  go back; `StreamletConflict.RevoteAfterPruning` shows that this is needed too.
- The memory of other validators' votes reaches back 100 epochs from the newest epoch anyone claimed,
  so one vote of a far epoch ends it (`Streamlet.FarVoteErasesMemory`).
- The inclusion check does not know the depth of the tree. `Merkle.Soundness` holds for proofs of
  full depth; shorter accepted proofs are exactly proofs of inner nodes, and longer ones exactly of
  values that climb to a leaf.
- Fork choice is order independent exactly under the condition of `ForkChoice.ConvergenceCondition`.
- A sync buffer without room for a planned range stalls the loop of requests and answers, until blocks
  returned earlier are applied or the node is reset, and repeated answers fill it
  (`Sync.SyncCompletesIffPlanFits`, `Sync.StallIsReachable`).
- A deduplication cache of capacity below four never evicts (`Dedup.OverflowIffBelowFour`).
- The governance quorum of 20 percent is rounded down (`Governance.QuorumRoundsDown`).
- A post stored twice is listed twice (`Feed.IndexOkIffDistinct`).

## Model

| member | source | states |
|---|---|---|
| `Streamlet.RunKeepsInv` | crates/gratia-consensus/src/streamlet.rs:142-332 | In every run from a finalized block, with any proposals and votes: the height index and the block map list each other exactly; each block holds one vote per validator, all for itself, and is notarized exactly when two thirds of the committee (rounded up, at least one) voted; no stored notarized block lies above the recorded highest height, which a stored block attains; the finalized block stays stored and notarized below it; and every counted vote of a recent epoch is still remembered, although finalization prunes all four maps. |
| `Streamlet.StepKeepsInv` | crates/gratia-consensus/src/streamlet.rs:142-230 | Each single step (proposal, own vote, remote vote) preserves that invariant from any state that has it. |
| `Streamlet.AddVoteKeepsInv` | crates/gratia-consensus/src/streamlet.rs:198-230 | The vote step preserves it through counting, notarization, finalization and pruning. |
| `Streamlet.ThresholdIsTwoThirds` | crates/gratia-consensus/src/streamlet.rs:76-78 | The threshold is the least number of votes that makes up two thirds of the committee: a number of votes reaches it exactly if three times that number is at least twice the size. |
| `Streamlet.NotarizesIffTwoThirds` | crates/gratia-consensus/src/streamlet.rs:69-83 | A vote notarizes its block exactly if it contradicts no remembered vote of its validator and epoch, the block is known and not yet notarized, its validator has not voted for it, and with it two thirds of the committee have voted. |
| `Streamlet.VoteIsCounted` | crates/gratia-consensus/src/streamlet.rs:198-230 | A vote that notarizes nothing is added to its own block, once per validator, and remembered; a contradicting one changes nothing; no other block, height or epoch is touched. |
| `Streamlet.ProposalIsListedLast` | crates/gratia-consensus/src/streamlet.rs:142-152 | A new proposal is stored without votes and comes last among the blocks of its height; a known hash changes nothing. |
| `Streamlet.FirstListedIsFound` | crates/gratia-consensus/src/streamlet.rs:284-295 | Of several notarized blocks of one height the lookup finds the one listed first. |
| `Streamlet.PruningForgetsVotes` | crates/gratia-consensus/src/streamlet.rs:327-331 | Pruning keeps a remembered vote exactly if no remembered vote is of an epoch more than 100 later. |
| `Streamlet.FinalityEvent` | crates/gratia-consensus/src/streamlet.rs:198-281 | In every run a vote either leaves the finalized block alone or raises the finalized height by at least two, to a stored notarized block strictly below the highest notarized height. |
| `Streamlet.FinalityAdvances` | crates/gratia-consensus/src/streamlet.rs:253-281 | The same for one finality check on any consistent state, together with the preservation of the height invariant. |
| `Streamlet.FirstTripleIsLowest` | crates/gratia-consensus/src/streamlet.rs:253-281 | The scan finds the lowest three consecutive notarized heights in its range, and reports none only when there is none. |
| `Streamlet.NotarizedAtIsStored` | crates/gratia-consensus/src/streamlet.rs:284-295 | Looking up a height returns a stored notarized block of that height, and fails only when none is stored. |
| `Streamlet.PruneKeepsUpperBlocks` | crates/gratia-consensus/src/streamlet.rs:298-310 | With an exact index, pruning keeps exactly the blocks at or above the given height. |
| `Streamlet.PruneKeepsWindow` | crates/gratia-consensus/src/streamlet.rs:312-331 | Pruning never moves the 100-epoch window: what is recent afterwards was recent before. |
| `Streamlet.ProposalExtendsNotarizedTip` | crates/gratia-consensus/src/streamlet.rs:336-347 | In every run the next proposal is one above the greatest height of a notarized block, and its parent is a stored notarized block of that height; only a node that notarized nothing above its starting block names the finalized hash instead. |
| `Streamlet.VoteTargets` | crates/gratia-consensus/src/streamlet.rs:160-188 | In every run a node may vote exactly for a stored block one above its finalized height or one above the highest stored notarized block, in an epoch it does not remember voting in. The parent link plays no part, contrary to rule 2 of the function's comment. |
| `Streamlet.OwnProposalIsVotable` | crates/gratia-consensus/src/streamlet.rs:160-188 | In every run the next proposal of a node passes that node's own voting rule in any epoch it has not voted in. |
| `Streamlet.NoRecentEquivocation` | crates/gratia-consensus/src/streamlet.rs:203-230 | In every run two counted votes of one validator for one recent epoch are for the same stored block, despite pruning. |
| `Streamlet.OneBlockPerRecentEpoch` | crates/gratia-consensus/src/streamlet.rs:69-83 | In every run of one node, at most one block is notarized by committee votes of a given epoch, whatever the voters do, as long as no remembered vote is more than 100 epochs later. |
| `Streamlet.FarVoteErasesMemory` | crates/gratia-consensus/src/streamlet.rs:298-332 | How long that lasts is up to any one voter: once a single vote of a far epoch was remembered, over any further events the next finality event erases the votes of all epochs more than 100 before it, and contradicting votes of those epochs are counted. |
| `Streamlet.NotarizedByOneEpoch` | crates/gratia-consensus/src/streamlet.rs:69-83 | A notarized block whose votes are all of one epoch has a quorum of distinct voters of that epoch. |
| `Streamlet.QuorumsOverlap` | crates/gratia-consensus/src/streamlet.rs:69-83 | Two notarization quorums of a committee share at least a third of it. |
| `StreamletNode.StreamletState.constructor` | crates/gratia-consensus/src/streamlet.rs:119-131 | A new node is the initial state at height 0. |
| `StreamletNode.StreamletState.Restore` | crates/gratia-consensus/src/streamlet.rs:134-138 | Restoring a fresh node gives the initial state at the restored block. |
| `StreamletNode.StreamletState.AddProposal` | crates/gratia-consensus/src/streamlet.rs:142-152 | The in-place update is the modelled step, and the flag says whether the hash was unknown. |
| `StreamletNode.StreamletState.ShouldVote` | crates/gratia-consensus/src/streamlet.rs:160-188 | The early-return form decides the modelled voting rule. |
| `StreamletNode.StreamletState.RecordVote` | crates/gratia-consensus/src/streamlet.rs:191-193 | The in-place update is the modelled step. |
| `StreamletNode.StreamletState.GetNotarizedAt` | crates/gratia-consensus/src/streamlet.rs:284-295 | The scan of one height returns the first stored notarized block of the list. |
| `StreamletNode.StreamletState.CountVote` | crates/gratia-consensus/src/streamlet.rs:69-83 | The scan for an earlier vote and the count give the modelled block, and the flag exactly if the validator is new, the block was not notarized, and two thirds have now voted. |
| `StreamletNode.StreamletState.FindTriple` | crates/gratia-consensus/src/streamlet.rs:253-281 | The scanning loop returns the lowest notarized triple. |
| `StreamletNode.StreamletState.PruneBelow` | crates/gratia-consensus/src/streamlet.rs:298-332 | Loops that delete height by height and hash by hash, and the two retained windows, amount to the modelled pruning of all four maps. |
| `StreamletNode.StreamletState.CheckFinality` | crates/gratia-consensus/src/streamlet.rs:253-281 | Finding the triple, setting the finalized block and pruning in place is the modelled finality step. |
| `StreamletNode.StreamletState.AddVote` | crates/gratia-consensus/src/streamlet.rs:198-245 | The whole vote handler, with its early rejection of equivocation, refines the modelled step and returns its two results. |
| `StreamletNode.StreamletState.NextProposal` | crates/gratia-consensus/src/streamlet.rs:336-347 | Height and parent of the next proposal are those of the model. |
| `StreamletNetwork.NetworkSafety` | crates/gratia-consensus/src/streamlet.rs:160-230 | In a network where honest validators vote only when the rule allows, record each vote and never go back in epochs, and fewer than a third of the committee is Byzantine: in no run do any two nodes, at any two moments, hold different blocks notarized by votes of one epoch, although the memory of own votes is pruned. |
| `StreamletNetwork.ApplyKeepsHonesty` | crates/gratia-consensus/src/streamlet.rs:160-193 | With epochs that never go back, no network step makes an honest validator sign two blocks in one epoch: pruning forgets only epochs behind the newest one voted in. |
| `StreamletNetwork.RunKeepsNetInv` | crates/gratia-consensus/src/streamlet.rs:160-332 | The network invariant (nodes consistent, held votes were signed by members, and with monotone epochs honest validators signed once per epoch and remember their newest vote) holds in every state of every run. |
| `StreamletNetwork.HeldVoteWasCast` | crates/gratia-consensus/src/streamlet.rs:198-230 | Every vote a node holds for a block was signed by a committee member for that block. |
| `StreamletNetwork.QuorumsShareHonest` | crates/gratia-consensus/src/streamlet.rs:69-83 | Below a third of Byzantine members, two quorums share an honest validator. |
| `StreamletNetwork.ConflictNeedsThird` | crates/gratia-consensus/src/streamlet.rs:13-15 | If any two nodes hold two different notarized blocks, at whatever heights and moments, at least a third of the committee signed both, however many members are Byzantine. |
| `StreamletNetwork.ConflictNeedsHonestRevote` | crates/gratia-consensus/src/streamlet.rs:13-15 | Below a third of Byzantine members one of them is honest; if epochs never go back, it signed the two in different epochs, and the rule of one vote per epoch did not stop it. |
| `StreamletNetwork.HeightAgreement` | crates/gratia-consensus/src/streamlet.rs:13-15 | If no honest validator votes for a second block of a height, a guard checkable before each vote, then below a third of Byzantine members the notarized blocks of one height agree across all nodes and all moments of every run, with or without monotone epochs. |
| `StreamletNetwork.FinalityAgreement` | crates/gratia-consensus/src/streamlet.rs:247-252 | Under the same guard any two nodes that have finalized up to the same height, at any two moments, have finalized the same block. It says nothing about blocks of different heights, for which see ChainAgreement. |
| `StreamletChain.ChainAgreement` | crates/gratia-consensus/src/streamlet.rs:11-15 | If honest validators vote for no second block of a height and only for blocks that extend a notarized one, then below a third of Byzantine members, in every run, whatever any two nodes have finalized at any two moments lies on one chain of parent links. |
| `StreamletChain.AncestorsAgree` | crates/gratia-consensus/src/streamlet.rs:11-15 | Under both guards a notarized block has every notarized block of a lower height as an ancestor, and the starting block at the end. |
| `StreamletChain.ParentIsNotarized` | crates/gratia-consensus/src/streamlet.rs:160-185 | If honest validators check parents, every notarized block extends the starting block or a block notarized somewhere one height below. |
| `StreamletConflict.ChainSafeIffGuarded` | crates/gratia-consensus/src/streamlet.rs:13-15 | The exact condition: where blocks can fork and can stray off the starting block, the finalized blocks of every run form one chain if and only if honest validators have both guards on their votes, which the code has not. This holds for every committee below a third of Byzantine members. |
| `StreamletConflict.ConflictingFinality` | crates/gratia-consensus/src/streamlet.rs:247-281 | Without the height guard the claim fails for every committee, with or without the parent check: for every tolerable configuration and any blocks at the next three heights, two of them at the second, some run in which no Byzantine validator votes at all ends with two nodes that have finalized different blocks at one height. |
| `StreamletConflict.OffChainFinality` | crates/gratia-consensus/src/streamlet.rs:160-185 | Without the parent check it fails for every committee, with or without the height guard: some run without Byzantine votes has one node finalize any block two above the start, whatever its parents are, while another still has the start. |
| `StreamletConflict.RevoteAfterPruning` | crates/gratia-consensus/src/streamlet.rs:312-331 | Without monotone epochs agreement per epoch fails for every committee: in some run without Byzantine votes an honest quorum signs two blocks in one epoch, because pruning made it forget the first votes, and two nodes end with different blocks notarized by votes of that epoch. The other two guards do not help. |
| `StreamletConflict.PruningForgets` | crates/gratia-consensus/src/streamlet.rs:312-325 | Pruning keeps an epoch voted in exactly when the node has not voted more than 100 epochs later. |
| `StreamletQuorum.FedQuorum` | crates/gratia-consensus/src/streamlet.rs:198-230 | A quorum of distinct votes of one epoch, delivered one by one to a node that has heard nothing of the block or the epoch, amounts to notarizing the block and one finality check. |
| `StreamletQuorum.TripleFinalizes` | crates/gratia-consensus/src/streamlet.rs:253-281 | Three notarized heights above the finalized one, with one block at the middle height, finalize that block. |
| `Merkle.ComputeRoot` | crates/gratia-core/src/crypto.rs:138-162 | The two nested loops, with duplication of an odd last node, compute the recursively defined root; the empty list gives the zero root. |
| `Merkle.RootIsTopNode` | crates/gratia-core/src/crypto.rs:138-162 | The root built level by level is the top of the tree defined from the top down: each inner node hashes its left child followed by its right child, a missing right child being the left one again, up to the first level with one node. |
| `Merkle.VerifyInclusion` | crates/gratia-consensus/src/sharded_consensus.rs:770-805 | The chunk loop accepts exactly the proofs whose length is a multiple of 33 and whose climb from the leaf ends at the expected root. |
| `Merkle.Completeness` | crates/gratia-core/src/crypto.rs:138-162 | For every nonempty list, every index and every hash function there is a proof with one 33-byte entry per level that the verifier accepts against the computed root. |
| `Merkle.ProofNamesItsIndex` | crates/gratia-core/src/crypto.rs:138-162 | That proof traces back to the index it was made for, odd levels included. |
| `Merkle.Soundness` | crates/gratia-consensus/src/sharded_consensus.rs:770-805 | Any accepted proof of full depth leads to a leaf equal to the claimed one, or the extractor returns two different inputs, one hashed by the verifier and one by the tree, with the same hash. No assumption on the hash function. |
| `Merkle.LongProofClimbsToLeaf` | crates/gratia-consensus/src/sharded_consensus.rs:770-805 | An accepted proof with extra entries before the last Depth ones climbs to a leaf by the extra entries, or exhibits a collision. |
| `Merkle.ClimbExtendsProof` | crates/gratia-consensus/src/sharded_consensus.rs:770-805 | Conversely every value that climbs to a leaf by some entries has such an accepted long proof. |
| `Merkle.LeafPreimageIsAccepted` | crates/gratia-consensus/src/sharded_consensus.rs:770-805 | So if a leaf is the hash of two values, both are accepted although neither need be a leaf: the witness for the long side. |
| `Merkle.RootBinds` | crates/gratia-core/src/crypto.rs:138-162 | Two lists of one length with the same root are equal, or building their trees hashed two different inputs to the same value. |
| `Merkle.RepeatedLastKeepsRoot` | crates/gratia-core/src/crypto.rs:138-162 | The length is essential: repeating the last entry of a list of odd length above one does not change its root. |
| `Merkle.ShortProofNamesInnerNode` | crates/gratia-consensus/src/sharded_consensus.rs:770-805 | An accepted proof that is d entries short of the depth is a proof for a node d levels up, or exhibits a collision. |
| `Merkle.InnerNodeHasShortProof` | crates/gratia-consensus/src/sharded_consensus.rs:770-805 | Conversely every node d levels up has such an accepted short proof. |
| `Committee.TierFor` | crates/gratia-consensus/src/committee.rs:73-137 | The chosen tier belongs to the table, its minimum is met by the network size, and no tier with a higher minimum is met. |
| `Committee.TierForNetworkSize` | crates/gratia-consensus/src/committee.rs:128-137 | The reverse scan of the table finds that tier. |
| `Committee.SelectCommittee` | crates/gratia-consensus/src/committee.rs:400-558 | The source's order of steps (filter, fallbacks, cooldown, candidates, sort, truncation, effective threshold) computes the modelled selection, including the error when nobody is eligible. Sorting itself is the specification's, as it is the library's in the source. |
| `Committee.BuildCandidates` | crates/gratia-consensus/src/committee.rs:455-512 | The loop over the pool collects one weighted entry per node whose ticket can be established, in order. |
| `CommitteeAgreement.Agreement` | crates/gratia-consensus/src/committee.rs:400-558 | Any two orderings of a list with distinct ids give the same members in the same order, the same threshold, or the same refusal, for every ticket oracle, seed, network size and cooldown history. |
| `CommitteeAgreement.AgreementFromList` | crates/gratia-consensus/src/committee.rs:378-394 | The same for the entry point that counts the network from the list itself. |
| `CommitteeAgreement.PoolPermuted` | crates/gratia-consensus/src/committee.rs:405-453 | Trust filter, both fallbacks and cooldown commute with reordering. |
| `CommitteeAgreement.CandidatesPermuted` | crates/gratia-consensus/src/committee.rs:455-512 | So does building the candidates. |
| `CommitteeAgreement.SortKeeps` | crates/gratia-consensus/src/committee.rs:514-522 | Sorting by selection value, then id, yields a sorted permutation. |
| `CommitteeAgreement.SortedIsUnique` | crates/gratia-consensus/src/committee.rs:514-522 | A list with distinct ids has only one sorted arrangement. |
| `CommitteeAgreement.LowestTicketsWin` | crates/gratia-consensus/src/committee.rs:514-526 | The committee is ordered by value, ties by lower id, is as large as tier and pool allow, drawn from the candidates without repetition, and no candidate left out precedes a member. |
| `CommitteeAgreement.MembersAreEligible` | crates/gratia-consensus/src/committee.rs:182-197 | Every member stems from a listed node with valid proof of life, stake and a score of at least 40, through every fallback; it has that node's id, keys and score, and its ticket is the node's verified proof or the hash of seed, epoch and id. |
| `CommitteeAgreement.ScoreMonotonicity` | crates/gratia-consensus/src/vrf.rs:310-324 | Raising the presence score of a selected node, all else equal, never costs it its seat, for every list with distinct ids, every score and every history. |
| `CommitteeAgreement.SelectionValueAntitone` | crates/gratia-consensus/src/vrf.rs:310-324 | For one ticket a higher score never gives a higher selection value, across the clamp at both ends. |
| `CommitteeWeights.TicketIsDivided` | crates/gratia-consensus/src/vrf.rs:310-324 | The value v of a ticket and the score s cut to 40..100 satisfy v * s <= raw < (v + 1) * s, where raw is the sum of the first eight bytes times powers of 256. |
| `CommitteeWeights.MembersAreWeighted` | crates/gratia-consensus/src/vrf.rs:310-324 | The same for every member of every selected committee, with its own ticket and its node's score. |
| `CommitteeWeights.HigherScoreIsLower` | crates/gratia-consensus/src/vrf.rs:300-324 | On every ticket of at least the product of two scores the higher score gives the strictly lower value. |
| `CommitteeWeights.HigherScoreIsSeatedFirst` | crates/gratia-consensus/src/committee.rs:455-526 | Of two pool nodes with such a ticket in common, the one with the lower score is never seated without the other. |
| `CommitteeWeights.PoolMeans` | crates/gratia-consensus/src/committee.rs:415-453 | Exactly these draw tickets: rested nodes with 30 days of proof of life, if enough nodes have them and enough of these rested; rested eligible nodes, if too few have them and enough of all rested; and otherwise every eligible node. |
| `CommitteeWeights.SelectedMeans` | crates/gratia-consensus/src/committee.rs:524-558 | Selection fails exactly if no node is eligible; a committee serves 900 slots and has the tier's threshold if two members have keys, and otherwise threshold one. |
| `CommitteeWeights.RealSignersMeans` | crates/gratia-consensus/src/committee.rs:524-549 | The count of members with keys exceeds one exactly if two members have keys. |
| `CommitteeAgreement.CandidatesRaise` | crates/gratia-consensus/src/committee.rs:455-512 | Raising one score changes only that node's candidate, and only for the better. |
| `CommitteeAgreement.PoolRaise` | crates/gratia-consensus/src/committee.rs:182-197 | Raising a score that is at least 40 changes no filter or fallback decision. |
| `Cooldown.CooldownTracker.RecordCommittee` | crates/gratia-consensus/src/committee.rs:333-345 | Recording puts the ids in front and keeps the newest twenty entries. |
| `Cooldown.CooldownTracker.IsInCooldown` | crates/gratia-consensus/src/committee.rs:348-362 | The scan answers whether the id served in one of the last rounds. |
| `Cooldown.HistoryIsPrefix` | crates/gratia-consensus/src/committee.rs:333-345 | In every run of selections the tracker equals the newest twenty committees of the full record. |
| `Cooldown.BoundedHistorySuffices` | crates/gratia-consensus/src/committee.rs:333-362 | For every tier and every run the twenty-entry history answers cooldown queries exactly as an unbounded one would. |
| `Cooldown.PoolHasRested` | crates/gratia-consensus/src/committee.rs:410-453 | With committee size times (cooldown rounds + 1) distinct 30-day nodes available, the cooldown filter never falls back. |
| `Cooldown.RoundAvoidsRecent` | crates/gratia-consensus/src/committee.rs:410-453 | The committee of such a round shares no member with the committees of the cooldown window. |
| `Cooldown.ConsecutiveCommitteesDisjoint` | crates/gratia-consensus/src/committee.rs:589-613 | Over runs of any length at one tier with that supply, any cooldown-rounds + 1 consecutive committees are pairwise disjoint, and no round fails. |
| `Cooldown.SupplyMeansSuccess` | crates/gratia-consensus/src/committee.rs:400-453 | With that supply selection never returns an error. |
| `Engine.ChainLinkage` | crates/gratia-consensus/src/lib.rs:348-392 | In every run of epochs, slots, production, signing, finalization, incoming blocks and rollbacks: a pending block is the child of the tip; every entry of the log since the last rollback is a hash-linked child or an explicit jump of two; the tip is its last entry; and the recent hashes are exactly its last 128 entries. |
| `Engine.NextKeepsChain` | crates/gratia-consensus/src/lib.rs:517-900 | Each single step preserves that. |
| `Engine.NoSecondBlock` | crates/gratia-consensus/src/lib.rs:625-647 | From any state and over any events, rollbacks included: after a block was accepted, another block of the same producer and height changes nothing, until the engine stands 100 heights above it or is told to forget that height. |
| `Engine.FinalizedIsSigned` | crates/gratia-consensus/src/lib.rs:411-551 | In every run, however committees are replaced while a block is pending, a block returned by normal or forced finalization has distinct signers, as many as the committee it was produced under demands, each genuine to the committee in force when it signed: by a member under whose key it verifies, or by a keyless member while no two members have keys. |
| `Engine.FinalizedHasCertificate` | crates/gratia-consensus/src/lib.rs:411-551 | So it carries at least max(1, threshold) genuine signatures by distinct members of the committee it was produced under, if all its signatures were added under that committee. |
| `Engine.RunKeepsSigning` | crates/gratia-consensus/src/block_production.rs:55-114 | In every run the signatures of a pending block are by distinct validators each genuine to the committee in force when it was added, and the threshold is that of the committee at production. |
| `Engine.OkIffGenuine` | crates/gratia-consensus/src/lib.rs:420-463 | With one seat per id, the check accepts a signature exactly if its validator is a member and it verifies under that member's key, or the member has no key and no two members have one; never one of a non-member. |
| `EngineRules.SignatureIsAdded` | crates/gratia-consensus/src/lib.rs:411-478 | A signature is added exactly if a block is pending, its validator has not signed it and it is genuine; the answer says whether the threshold is now met; any other signature changes nothing. |
| `EngineRules.FinalizedIffSigned` | crates/gratia-consensus/src/lib.rs:481-551 | A pending block is finalized exactly if its signatures reach its threshold, by force only with at least one of them and while no two members have keys; a block that falls short is dropped, and a refused force keeps it. |
| `EngineRules.AcceptedIff` | crates/gratia-consensus/src/lib.rs:568-847 | An incoming block is accepted exactly if it is the child of the tip or two above it, is not its producer's second proposal, is by a member (with a key if it skips a height), all its signatures, at least one, are genuine and its transactions hold; older blocks are skipped, and gaps and foreign parents are forks. |
| `EngineRules.WellSignedIffOk` | crates/gratia-consensus/src/lib.rs:649-764 | The validation of producer and signatures decides exactly that producer and signature condition. |
| `EngineRules.ProposalMemory` | crates/gratia-consensus/src/lib.rs:625-647 | After a block was looked at, exactly this and the earlier proposals are remembered, from a tip above 100 on those less than 100 heights below it. |
| `EngineRules.Rotation` | crates/gratia-consensus/src/committee.rs:276-293 | Producers take turns in seat order from the start slot of the epoch on, round after round. |
| `EngineRules.NoProducer` | crates/gratia-consensus/src/committee.rs:276-293 | There is no producer exactly before the start slot and in an empty committee. |
| `EngineRules.TurnMeans` | crates/gratia-consensus/src/lib.rs:269-334 | A slot changes nothing but the status, to producing, exactly if the engine is not syncing and the rotation names this node for the next height. |
| `EngineRules.ProducedMeans` | crates/gratia-consensus/src/lib.rs:348-392 | A block is produced exactly in the producing state under a committee if it fits: on the tip, by this node, unsigned, with the committee's threshold. |
| `EngineRules.RollbackMeans` | crates/gratia-consensus/src/lib.rs:855-900 | A rollback succeeds exactly if it goes to genesis or at most 128 heights down; it keeps committee and proposal memory. |
| `Engine.CertificatesOverlap` | crates/gratia-consensus/src/committee.rs:73-125 | For every tier with more than one real signer, the signers of any two certificates of an m-member committee share more than (m-1)/3 members and at least a third, so conflicting finalized blocks need that many double signers. |
| `Engine.SelectedIsWellFormed` | crates/gratia-consensus/src/committee.rs:524-549 | Every selected committee fits its tier and has the tier's threshold, or threshold one when at most one member can really sign. |
| `EngineNode.ConsensusEngine.constructor` | crates/gratia-consensus/src/lib.rs:132-157 | A new engine restored at startup is the start state of the runs. |
| `EngineNode.ConsensusEngine.AdvanceSlot` | crates/gratia-consensus/src/lib.rs:269-334 | The engine becomes producer, and says so, exactly when it is not syncing and the round robin names this node for the next height. |
| `EngineNode.ConsensusEngine.ProduceBlock` | crates/gratia-consensus/src/lib.rs:348-392 | Production refuses without state, committee or room, and otherwise leaves the modelled pending block. |
| `EngineNode.ConsensusEngine.AddBlockSignature` | crates/gratia-consensus/src/lib.rs:411-478 | A signature is refused for a non-member, a bad signature, a missing key among several real signers or a repeated signer; otherwise it is appended and the result says whether the threshold is met. |
| `EngineNode.ConsensusEngine.FinalizePendingBlock` | crates/gratia-consensus/src/lib.rs:481-551 | Normal and forced finalization in one, including that a failed attempt discards the pending block. |
| `EngineNode.ConsensusEngine.ValidateBlock` | crates/gratia-consensus/src/lib.rs:649-764 | The loop over the signatures decides the modelled producer and signature conditions. |
| `EngineNode.ConsensusEngine.ProcessIncomingBlock` | crates/gratia-consensus/src/lib.rs:568-847 | Skipping, fork report, equivocation memory, validation and adoption refine the modelled step. |
| `EngineNode.ConsensusEngine.RollbackTo` | crates/gratia-consensus/src/lib.rs:855-900 | Deep rollbacks are refused except to genesis; otherwise tip, pending block and recent hashes are reset. |
| `ForkChoice.SwappedViews` | crates/gratia-consensus/src/lib.rs:1028-1095 | Two nodes with swapped views never both switch; they both keep only on equal height, signatures and hash; and more information is asked for by both or neither, exactly when both blocks of one height are below the threshold. |
| `ForkChoice.FinalizedConverge` | crates/gratia-consensus/src/lib.rs:1028-1095 | Folding the choice over any ordering of finalized candidates with distinct hashes ends on the maximum by height, then signatures, then lower hash. |
| `ForkChoice.ConvergenceCondition` | crates/gratia-consensus/src/lib.rs:1028-1095 | For candidates with distinct hashes the winner is independent of the order exactly when there is a single tallest candidate or a finalized one among the tallest; it is then the best candidate. |
| `ForkChoice.BestExists` | crates/gratia-consensus/src/lib.rs:1028-1095 | A nonempty list with distinct hashes has a best candidate. |
| `ForkChoice.FirstWins` | crates/gratia-consensus/src/lib.rs:1028-1095 | With no finalized block among the tallest, the tallest block that comes first is never displaced: the failing side of the condition. |
| `Emission.AnnualEmission` | crates/gratia-core/src/emission.rs:58-70 | The loop over years computes the truncated three-quarter decay, without overflow of any 64-bit step for any 32-bit year. |
| `Emission.CumulativeEmission` | crates/gratia-core/src/emission.rs:125-131 | The sum over years is computed without overflow and is strictly below the mining supply. |
| `Emission.YearForHeight` | crates/gratia-core/src/emission.rs:97-106 | Year numbering with its clamp at the greatest 32-bit year, for every 64-bit height. |
| `Emission.DailyBudget` | crates/gratia-core/src/emission.rs:73-75 | The daily budget is a 365th of the annual emission, rounded down. |
| `Emission.BlockRewardLux` | crates/gratia-core/src/emission.rs:82-91 | The reward of every 64-bit height is computed without overflow. |
| `Emission.RewardMeans` | crates/gratia-core/src/emission.rs:73-91 | The reward r of a year and its daily budget d satisfy d * 365 <= annual < (d + 1) * 365 and r * 21600 <= d * 1000000 < (r + 1) * 21600: both are rounded down once, the second after the conversion to Lux. |
| `Emission.RewardIsUnique` | crates/gratia-core/src/emission.rs:73-91 | These bounds leave one reward. |
| `Emission.YearMeans` | crates/gratia-core/src/emission.rs:97-106 | A height is in year y, below the clamp, exactly if y - 1 but not y full years of 7884000 blocks precede it. |
| `Emission.AnnualShrinks` | crates/gratia-core/src/emission.rs:58-70 | Each year emits three quarters of the one before, rounded down: four times the year is at most three times the last, and four more than that exceeds it. |
| `Emission.YearPaysNearlyAll` | crates/gratia-core/src/emission.rs:82-91 | A full year of blocks pays the year's emission up to less than 372 coins. |
| `Emission.YearsPayNearlyAll` | crates/gratia-core/src/emission.rs:82-91 | After any number of full years the chain has paid their emission up to less than 372 coins a year. |
| `Emission.PerMinerRewardLux` | crates/gratia-core/src/emission.rs:113-122 | Miners times share never exceed the block reward and fall short of it by less than one Lux per miner; with no miners the full reward is returned. |
| `Emission.SupplyCap` | crates/gratia-core/src/emission.rs:58-106 | For every chain length the sum of all block rewards is strictly below the mining supply in Lux, including heights past the year clamp. |
| `Emission.CumulativeBelowSupply` | crates/gratia-core/src/emission.rs:125-131 | Cumulative annual emission is strictly below the supply for every year. |
| `Emission.RemainderCovers` | crates/gratia-core/src/emission.rs:58-70 | After every year, what is emitted plus four times the next year's emission fits into the supply; when emission ends, rounding has already lost something. |
| `Emission.AnnualReachesZero` | crates/gratia-core/src/emission.rs:58-70 | Annual emission reaches zero after finitely many years, before years stop counting. |
| `Emission.YearWithinEmission` | crates/gratia-core/src/emission.rs:73-91 | A full year of block rewards never exceeds that year's emission. |
| `Emission.BlocksWithinBudget` | crates/gratia-core/src/emission.rs:82-106 | Any number of blocks stays within the budgets of the years they reach into. |
| `MeshNetwork.TransmissionBound` | crates/gratia-network/src/mesh.rs:439-617 | In every run of a network whose nodes have at most P peers and time-to-live at most T, the transmissions that carry one id are at most P + P^2 + ... + P^(T+1) per broadcast of that id, however many other messages travel and whatever is lost, reordered or evicted from the seen caches. |
| `MeshNetwork.PickedTransmissions` | crates/gratia-network/src/mesh.rs:439-617 | The same for any choice of ids at once. |
| `MeshNetwork.TotalTransmissions` | crates/gratia-network/src/mesh.rs:439-617 | All broadcasts together cause at most that many transmissions each. |
| `MeshNetwork.RelayingDescends` | crates/gratia-network/src/mesh.rs:507-617 | Every relaying step strictly lowers a potential over queued and flying copies, and nothing but a broadcast raises it. |
| `MeshNetwork.RelayingTerminates` | crates/gratia-network/src/mesh.rs:507-617 | So b broadcasts are followed by at most b times a fixed number of relay steps, in every run. |
| `MeshNetwork.ApplyKeepsAccount` | crates/gratia-network/src/mesh.rs:439-752 | For any choice of ids, the account of transmissions made plus worth of copies grows only by the price of a broadcast of such an id; receiving, relaying, losing, evicting and changing peers never raise it. |
| `MeshNetwork.DrainCost` | crates/gratia-network/src/mesh.rs:586-617 | Draining a queue costs no more than the queue is worth. |
| `MeshNetwork.DeliveredAtMostOnce` | crates/gratia-network/src/mesh.rs:439-576 | As long as no seen cache overflows when an id is marked, no node of any run delivers one id twice, nor an id it broadcast itself. |
| `MeshRedelivery.RedeliveryNeedsEviction` | crates/gratia-network/src/mesh.rs:507-576 | In every run, overflowing or not: if a node delivers an id that it delivered or broadcast before, its cache overflowed in between and dropped that id. |
| `MeshRedelivery.RedeliveredAfterEviction` | crates/gratia-network/src/mesh.rs:731-752 | And that happens: for every cache size, in some run a node delivers one message twice, after as many broadcasts of its own as its cache holds. |
| `MeshNode.MeshTransport.Broadcast` | crates/gratia-network/src/mesh.rs:439-481 | Refusals, message creation, the seen mark and the queued copy, up to the arbitrary choice of evicted ids. |
| `MeshNode.MeshTransport.ReceiveMessage` | crates/gratia-network/src/mesh.rs:507-576 | A fresh authentic message is marked, delivered and queued with a smaller time-to-live; anything else changes nothing. |
| `MeshNode.MeshTransport.DrainRelayQueue` | crates/gratia-network/src/mesh.rs:586-617 | Each queued message goes to every peer but its source, bridges and closer peers first, and the queue is emptied. |
| `MeshNode.MeshTransport.EnforceSeenCacheLimit` | crates/gratia-network/src/mesh.rs:731-752 | When the limit is exceeded, arbitrary ids are dropped until half of it is left, otherwise none. |
| `MeshNode.MeshTransport.AddPeer` | crates/gratia-network/src/mesh.rs:622-665 | The peer table never exceeds its limit; the evicted peer is a stalest non-bridge. |
| `Mesh.DeliveredIff` | crates/gratia-network/src/mesh.rs:507-576 | A message is delivered, and queued with one hop less, exactly if its id is that of its source, payload and time, is new, the message is not too old or too large, and a hop is left; without a hop left it is only marked as seen, and otherwise nothing changes. |
| `Mesh.BroadcastIff` | crates/gratia-network/src/mesh.rs:439-500 | A message is queued exactly by an active node within the size limit, with the configured hop count and this node as its source. |
| `Mesh.RelayMeans` | crates/gratia-network/src/mesh.rs:586-617 | A relayed message goes to every peer but its source, to each once, peers with internet first and then by signal, an unknown signal counting as the weakest. |
| `Mesh.AddPeerMeans` | crates/gratia-network/src/mesh.rs:622-665 | A new peer is listed unless it is this node or the table is full of peers with internet; it replaces at most the evicted one, everything else stays, and no peer with internet is dropped. |
| `Mesh.EvictedMeans` | crates/gratia-network/src/mesh.rs:632-647 | The evicted peer has no internet, and every peer seen longer ago has. |
| `Mesh.CacheMeans` | crates/gratia-network/src/mesh.rs:731-752 | A cache over its limit keeps half the limit, rounded down, of its ids; any other keeps all. |
| `Mesh.AddPeerBounded` | crates/gratia-network/src/mesh.rs:622-665 | Adding a peer keeps the table within the limit for any choice among the stalest. |
| `Sync.RunKeepsInv` | crates/gratia-consensus/src/sync.rs:183-381 | In every run the sync target never exceeds the best known height, and the buffer never exceeds 200 blocks and holds no applied block. |
| `Sync.SyncCompletesIffPlanFits` | crates/gratia-consensus/src/sync.rs:183-381 | With the network height fixed and a peer serving each requested range, the request/process/apply loop reaches state Synced less than five blocks behind if and only if every planned range fits beside the buffered blocks that are not below it. The plan is computed from three heights before the loop starts. |
| `Sync.SyncCompletes` | crates/gratia-consensus/src/sync.rs:183-381 | In that case the rounds ask for exactly the planned ranges, which are of at most 50 blocks and tile the gap without overlap. |
| `Sync.RoundAdvancesIffFits` | crates/gratia-consensus/src/sync.rs:183-322 | A node that is behind asks for the next planned range and advances to its end exactly when the range fits into the buffer; otherwise only the session fields change. |
| `Sync.RoundKeepsFit` | crates/gratia-consensus/src/sync.rs:183-381 | Whether the plan fits does not change from round to round. |
| `Sync.FullBufferStalls` | crates/gratia-consensus/src/sync.rs:296-303 | A node whose next range does not fit stays at its height for any number of rounds. |
| `Sync.StallIsReachable` | crates/gratia-consensus/src/sync.rs:225-322 | Such a state is reached from a fresh node at any height by taking one full answer four times before applying it, and the node then never catches up by asking. |
| `Sync.RoomSuffices` | crates/gratia-consensus/src/sync.rs:296-303 | Room for one batch of 50 makes every plan fit. |
| `Sync.AnswerAccepted` | crates/gratia-consensus/src/sync.rs:225-322 | A served slice of a chain passes every check and is buffered exactly when it fits. |
| `Sync.SyncProtocol.CreateSyncRequest` | crates/gratia-consensus/src/sync.rs:183-218 | The in-place update and the returned range are the modelled ones. |
| `Sync.SyncProtocol.ProcessSyncResponse` | crates/gratia-consensus/src/sync.rs:225-322 | The two window loops accept exactly contiguous, hash-linked responses from the next height, with the errors in the source's order. |
| `Sync.SyncProtocol.OnBlock` | crates/gratia-consensus/src/sync.rs:328-345 | The in-place update is the modelled one. |
| `Sync.SyncProtocol.MarkBlocksApplied` | crates/gratia-consensus/src/sync.rs:350-381 | The in-place update is the modelled one, including the start of a new session. |
| `Sync.AnswerTakenIff` | crates/gratia-consensus/src/sync.rs:225-322 | A nonempty answer is taken exactly if it starts one above the applied height, each block is the child of the one before by height and parent hash, and the buffer stays within 200 blocks; any other changes nothing. |
| `Sync.AnswerFault` | crates/gratia-consensus/src/sync.rs:225-300 | The error named is the first fault in the order start, heights, parents, room. |
| `Sync.EmptyAnswer` | crates/gratia-consensus/src/sync.rs:225-245 | An empty answer ends a session whose target is reached and leaves the node waiting otherwise. |
| `Sync.AskMeans` | crates/gratia-consensus/src/sync.rs:183-218 | A node asks exactly while it is five or more behind: from its next height, for at most 50, up to its target, which is the best known height once the old one is reached. |
| `Sync.GossipMeans` | crates/gratia-consensus/src/sync.rs:328-345 | Hearing of a height sets the best known one to the greater of the two and wakes a resting node exactly if it is then five behind. |
| `Sync.AppliedMeans` | crates/gratia-consensus/src/sync.rs:350-381 | Applying drops the buffered blocks up to the new height, and continues the session, opens a new one or rests, by the distance to target and network. |
| `Governance.RunKeepsInv` | crates/gratia-governance/src/proposals.rs:44-315 | In every run of submissions with fresh ids, cancellations, votes and ticks: status is the mapped phase; each tally is the number of recorded votes of its kind, cast by distinct voters, who are exactly the voted set; approved and executed proposals pass and rejected ones do not. |
| `Governance.PhasesWereEarned` | crates/gratia-governance/src/proposals.rs:125-315 | In every run a proposal was submitted by a proposer with enough history, its deadlines lie the configured periods apart, and it reached its phase by ticks past its discussion, voting and implementation deadlines, in that order, at different ticks and after its submission. |
| `Governance.Frozen` | crates/gratia-governance/src/voting.rs:66-123 | Once voting has ended or the proposal was cancelled, its tally never changes again, over any continuation of the run. |
| `Governance.StepOnProposal` | crates/gratia-governance/src/proposals.rs:182-315 | No step changes the terms of an existing proposal; only a vote in the voting phase changes its tally; its phase changes only by the proposer's cancellation during discussion or by a tick past its deadline. |
| `Governance.TickMeans` | crates/gratia-governance/src/proposals.rs:246-315 | A tick moves every proposal whose deadline has come and no other: discussion to voting, voting to approved if the tally passes and otherwise to rejected, approved to executed; only phase and status change. |
| `GovernanceLife.LifeOfProposal` | crates/gratia-governance/src/proposals.rs:125-315 | From any state of any run: a proposal that is submitted, ticked past its discussion, voted for by any number of distinct voters and ticked past voting and implementation ends executed exactly if the voters are at least one, at least a fifth of the eligible (rounded down) and at most all, and otherwise rejected. |
| `GovernanceLife.YesVotesCount` | crates/gratia-governance/src/voting.rs:66-123 | In the voting phase each of any number of new voters adds one yes vote and nothing else. |
| `GovernanceLife.CastMeans` | crates/gratia-governance/src/voting.rs:66-123 | A vote is taken exactly from a voter with proof of life who has not voted on the proposal while its status is voting; one tally, the voted set and the records grow by it. |
| `GovernanceLife.SubmitMeans` | crates/gratia-governance/src/proposals.rs:125-178 | A proposal is accepted exactly from a proposer with enough history; it opens in discussion without votes, with the configured periods end to end, and changes no other proposal. |
| `GovernanceLife.CancelMeans` | crates/gratia-governance/src/proposals.rs:182-213 | Cancelling succeeds exactly for the proposer during discussion and changes nothing else. |
| `GovernanceLife.OnlyCancelCancels` | crates/gratia-governance/src/proposals.rs:182-315 | No other event ever cancels a proposal. |
| `GovernanceLife.StatusMeans` | crates/gratia-governance/src/proposals.rs:44-80 | Which phases each status stands for. |
| `Governance.TickAddsPassage` | crates/gratia-governance/src/proposals.rs:246-315 | A phase that ends by the clock adds its tick to the ones the earlier phases presuppose, in order. |
| `Governance.PassedMeansMajority` | crates/gratia-core/src/types.rs:675-708 | With fewer than 2^64 - 1 eligible voters the saturating test is exact: there are eligible voters, at least a fifth of them rounded down and at most all voted, and yes outnumbers no. |
| `Governance.QuorumRoundsDown` | crates/gratia-core/src/types.rs:675-692 | Quorum is met exactly when one more vote would exceed a true fifth; it is met without a true 20 percent exactly when the votes fall short of it by less than one, as with one vote of nine. |
| `Governance.PassedAtTheLimit` | crates/gratia-core/src/types.rs:675-708 | With 2^64 - 1 eligible voters the test fails a true majority exactly when yes and no together fill the range. |
| `GovernanceNode.ProposalStore.SubmitProposal` | crates/gratia-governance/src/proposals.rs:125-178 | Submission refuses short histories and otherwise stores the modelled proposal in discussion. |
| `GovernanceNode.ProposalStore.CancelProposal` | crates/gratia-governance/src/proposals.rs:182-213 | Only the proposer can cancel, only during discussion, and nothing else changes. |
| `GovernanceNode.ProposalStore.AdvanceProposal` | crates/gratia-governance/src/proposals.rs:246-315 | One proposal takes at most one phase step. |
| `GovernanceNode.ProposalStore.AdvanceAll` | crates/gratia-governance/src/proposals.rs:220-243 | Visiting the proposals one by one in any order equals one simultaneous step of all of them. |
| `GovernanceNode.VotingManager.CastVote` | crates/gratia-governance/src/voting.rs:66-123 | A vote is refused without proof of life, outside the voting phase or from a voter who already voted; otherwise voted set, records and tally change together. |
| `Feed.FeedIsStableSort` | crates/gratia-lux/src/store.rs:216-230 | For every sequence of posts with distinct hashes the index lists exactly the stored posts, each once, and in the order of a stable newest-first sort of the arrivals. |
| `Feed.RecentIsPrefix` | crates/gratia-lux/src/store.rs:602-607 | The recent posts are the first k of that stable arrangement, for every k. |
| `Feed.ArrangementIsUnique` | crates/gratia-lux/src/store.rs:216-230 | There is only one stable newest-first arrangement. |
| `Feed.IndexOkIffDistinct` | crates/gratia-lux/src/store.rs:519-542 | After any sequence of posts the index is exact if and only if no hash arrived twice. |
| `Feed.RepeatedHashIsListedTwice` | crates/gratia-lux/src/store.rs:519-542 | One step of that: storing on an exact index keeps it exact if and only if the hash was not already stored. |
| `Feed.RecentAreNewest` | crates/gratia-lux/src/store.rs:602-607 | On an exact index the recent posts are as many as asked for or all, each once, newest first, and no post left out is newer than one of them. |
| `Feed.LuxStore.PartitionPoint` | crates/gratia-lux/src/store.rs:216-225 | The binary search returns the first older entry whenever the index is in order, and a valid position in any case. |
| `Feed.LuxStore.StoreReceivedPost` | crates/gratia-lux/src/store.rs:519-542 | Every call stores the post and lists its hash once more; on an exact index it is the sorted insertion. |
| `Feed.LuxStore.GetRecentPosts` | crates/gratia-lux/src/store.rs:602-607 | The take and filter loop returns the newest posts: on an exact index as many as asked for or all, each once, newest first, none left out being newer. |
| `Dedup.RunKeepsCache` | crates/gratia-network/src/gossip.rs:519-551 | For capacity at least four, in every run: set and queue hold the same ids without repetition, the size never exceeds the capacity, and the queue is the end of the accepted history, all of it or at least max - max/4 + 1 ids. |
| `Dedup.ReacceptanceGap` | crates/gratia-network/src/gossip.rs:530-551 | Between two acceptances of one id at least max - max/4 + 1 different other ids were accepted, in every run. |
| `Dedup.AcceptedAreSpaced` | crates/gratia-network/src/gossip.rs:530-551 | Every accepted id differs from each of the window of distinct ids accepted just before it. |
| `Dedup.CapacityNeedsFour` | crates/gratia-network/src/gossip.rs:537-544 | A full cache stays within its capacity on a new id if and only if the capacity is at least four. |
| `Dedup.OverflowIffBelowFour` | crates/gratia-network/src/gossip.rs:537-544 | Some run outgrows the capacity if and only if the capacity is below four. |
| `Dedup.SmallCacheKeepsAll` | crates/gratia-network/src/gossip.rs:537-544 | Below capacity four nothing is ever evicted, in every run: the cache holds every id it accepted, each accepted once, so it outgrows its capacity. |
| `Dedup.DeduplicationCache.CheckAndInsert` | crates/gratia-network/src/gossip.rs:530-551 | The eviction loop and the insertion refine the modelled step, and the flag says whether the id was new. |
| `Dedup.AcceptedIff` | crates/gratia-network/src/gossip.rs:530-551 | An id is accepted exactly if it is not remembered, and is then the newest one remembered. |
| `Dedup.FirstOfferIsAccepted` | crates/gratia-network/src/gossip.rs:530-551 | An id that was never offered before is accepted, in every run and at every capacity. |

## Left out

- Ed25519, SHA-256, the ECVRF, Bulletproofs and Bincode or JSON encodings: uninterpreted or absent.
- libp2p swarm, event loops, FFI, explorer, app code, persistence and logging.
- Transaction checks, size limits and header field checks: flags of the events that perform them.
- Mempool, polling, jury moderation, discovery cache, emergency proposals, profiles, likes, follows and bans: easier versions of properties stated here.
- Shard committees, the Lux fee curve and geographic sharding: floating point over reused selection.
- `derive_epoch_seed` and `verify_committee_membership`: the seed is a parameter of selection.
- `clear_pending` of the Streamlet state ends a run; `restore` and `restore_state` appear only as initial states.
- Timestamps of blocks, slot counters, `established_at` and the syncing-slot countdown of `advance_slot`: they influence no modelled decision but the status, whose change the model takes as an event.
- Overflow of `epoch + 100` in pruning near the greatest 64-bit epoch: epochs are unbounded here.
- StreamletNetwork.NetworkSafety: takes from the network, not from the node, that delivered votes are by committee members and that honest validators vote in nondecreasing epochs, because the node checks neither.
- StreamletNetwork.HeightAgreement: takes the guard on votes from the honest validators, because the node does not have it.
- StreamletChain.ChainAgreement: takes both guards on votes from the honest validators, because the node has neither.
- Engine.FinalizedHasCertificate: speaks of one committee; what holds when it is replaced is Engine.FinalizedIsSigned.
- MeshNetwork.DeliveredAtMostOnce: holds while the seen caches do not overflow, because an evicted id is accepted again, as MeshRedelivery.RedeliveredAfterEviction shows.
- MeshNode.MeshTransport.AddPeer: names the evicted peer by a ghost result; which of several equally stale peers goes is arbitrary, as in the hash map.
- Feed.LuxStore.StoreReceivedPost: on an index that already repeats a hash, only the contents and the position range are stated, because the library's partition point is unspecified on unsorted data.
- Titles, descriptions and payloads of proposals, and the accessors of the governance stores.
- Transport kind, `stop`, stale-peer timing and beacon payloads of the mesh: peer changes appear as arbitrary events.
