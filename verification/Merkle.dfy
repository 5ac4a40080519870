/** The Merkle root of a list of hashes and the inclusion check for it
    (gratia-core/src/crypto.rs, gratia-consensus/src/sharded_consensus.rs). */
module Merkle {
  import opened Bytes

  /** Bytes of one proof entry: a position flag and a sibling hash. */
  const ENTRY_SIZE := 33

  // ---------------------------------------------------------------- the tree

  /** The node hashed to the right of `level[2j]`; an odd last node is its own sibling. */
  function RightOf(level: seq<Digest>, j: nat): Digest
    requires 2 * j < |level|
  {
    if 2 * j + 1 < |level| then level[2 * j + 1] else level[2 * j]
  }

  /** What is hashed to obtain the j-th parent of a level. */
  function ParentInput(level: seq<Digest>, j: nat): seq<Byte>
    requires 2 * j < |level|
  {
    level[2 * j] + RightOf(level, j)
  }

  function Parents(sha: Sha256, level: seq<Digest>): seq<Digest> {
    seq<Digest>((|level| + 1) / 2, j requires 0 <= j < (|level| + 1) / 2 => sha(ParentInput(level, j)))
  }

  /** The root of the tree over `level`; the empty list has the zero root. */
  function Root(sha: Sha256, level: seq<Digest>): Digest
    decreases |level|
  {
    if |level| == 0 then ZeroDigest()
    else if |level| == 1 then level[0]
    else Root(sha, Parents(sha, level))
  }

  /** Number of levels above `n` leaves. */
  function Depth(n: nat): nat {
    if n <= 1 then 0 else 1 + Depth((n + 1) / 2)
  }

  /** The level `d` steps above the leaves. */
  function LevelAbove(sha: Sha256, leaves: seq<Digest>, d: nat): seq<Digest>
    decreases d
  {
    if d == 0 then leaves else LevelAbove(sha, Parents(sha, leaves), d - 1)
  }

  // -------------------------------------------- the same tree, from the top down

  /** Number of nodes d levels above n leaves. */
  function Width(n: nat, d: nat): nat
    decreases d
  {
    if d == 0 then n else (Width(n, d - 1) + 1) / 2
  }

  /** The node at place j of level d: a leaf, or the hash of its left child followed by its right child,
      where a missing right child is the left one again. */
  function TreeNode(sha: Sha256, leaves: seq<Digest>, d: nat, j: nat): Digest
    requires j < Width(|leaves|, d)
    decreases d
  {
    if d == 0 then leaves[j]
    else
      var left := TreeNode(sha, leaves, d - 1, 2 * j);
      var right := if 2 * j + 1 < Width(|leaves|, d - 1) then TreeNode(sha, leaves, d - 1, 2 * j + 1) else left;
      sha(left + right)
  }

  lemma {:induction false} LevelStep(sha: Sha256, leaves: seq<Digest>, d: nat)
    ensures LevelAbove(sha, leaves, d + 1) == Parents(sha, LevelAbove(sha, leaves, d))
    decreases d
  {
    if d > 0 {
      LevelStep(sha, Parents(sha, leaves), d - 1);
    }
  }

  /** Each level is made of these nodes. */
  lemma {:induction false} LevelsAreNodes(sha: Sha256, leaves: seq<Digest>, d: nat)
    ensures |LevelAbove(sha, leaves, d)| == Width(|leaves|, d)
    ensures forall j :: 0 <= j < Width(|leaves|, d) ==> LevelAbove(sha, leaves, d)[j] == TreeNode(sha, leaves, d, j)
    decreases d
  {
    if d > 0 {
      LevelsAreNodes(sha, leaves, d - 1);
      LevelStep(sha, leaves, d - 1);
      var level := LevelAbove(sha, leaves, d - 1);
      forall j | 0 <= j < Width(|leaves|, d) ensures Parents(sha, level)[j] == TreeNode(sha, leaves, d, j) {
        NodeAbove(sha, leaves, level, d, j);
      }
    }
  }

  lemma NodeAbove(sha: Sha256, leaves: seq<Digest>, level: seq<Digest>, d: nat, j: nat)
    requires d > 0 && |level| == Width(|leaves|, d - 1) && j < Width(|leaves|, d)
    requires forall i :: 0 <= i < |level| ==> level[i] == TreeNode(sha, leaves, d - 1, i)
    ensures Parents(sha, level)[j] == TreeNode(sha, leaves, d, j)
  {
    assert level[2 * j] == TreeNode(sha, leaves, d - 1, 2 * j);
    assert 2 * j + 1 < |level| ==> level[2 * j + 1] == TreeNode(sha, leaves, d - 1, 2 * j + 1);
    assert ParentInput(level, j) == level[2 * j] + RightOf(level, j);
  }

  /** The root is the top node, at the first level that has only one. */
  lemma RootIsTopNode(sha: Sha256, leaves: seq<Digest>)
    requires leaves != []
    ensures Width(|leaves|, Depth(|leaves|)) == 1
    ensures Root(sha, leaves) == TreeNode(sha, leaves, Depth(|leaves|), 0)
    ensures forall d :: 0 <= d < Depth(|leaves|) ==> Width(|leaves|, d) > 1
  {
    LevelKeepsRoot(sha, leaves, Depth(|leaves|));
    LevelsAreNodes(sha, leaves, Depth(|leaves|));
    DepthIsZero(|LevelAbove(sha, leaves, Depth(|leaves|))|);
    forall d | 0 <= d < Depth(|leaves|) ensures Width(|leaves|, d) > 1 {
      LevelKeepsRoot(sha, leaves, d);
      LevelsAreNodes(sha, leaves, d);
    }
  }

  lemma DepthIsZero(n: nat)
    requires Depth(n) == 0
    ensures n <= 1
  {
  }

  method ComputeRoot(sha: Sha256, hashes: seq<Digest>) returns (root: Digest)
    ensures root == Root(sha, hashes)
  {
    if |hashes| == 0 {
      return ZeroDigest();
    }
    if |hashes| == 1 {
      return hashes[0];
    }
    var current := hashes;
    while |current| > 1
      invariant |current| >= 1
      invariant Root(sha, current) == Root(sha, hashes)
      decreases |current|
    {
      var next: seq<Digest> := [];
      var i := 0;
      while i < |current|
        invariant 0 <= i <= |current| + 1
        invariant i % 2 == 0
        invariant |next| == i / 2 <= (|current| + 1) / 2
        invariant next == Parents(sha, current)[..i / 2]
      {
        var chunk: seq<Byte> := current[i];
        chunk := chunk + (if i + 1 < |current| then current[i + 1] else current[i]);
        assert chunk == ParentInput(current, i / 2);
        next := next + [sha(chunk)];
        i := i + 2;
      }
      assert next == Parents(sha, current);
      current := next;
    }
    root := current[0];
  }

  // --------------------------------------------------------------- the check

  /** What the verifier hashes for one entry: a nonzero flag puts the sibling on the right. */
  function EntryInput(current: Digest, entry: seq<Byte>): seq<Byte>
    requires |entry| == ENTRY_SIZE
  {
    if entry[0] != 0 then current + entry[1..] else entry[1..] + current
  }

  /** The value reached from `leaf` through all entries of a proof. */
  function Climb(sha: Sha256, leaf: Digest, proof: seq<Byte>): Digest
    decreases |proof|
  {
    if |proof| < ENTRY_SIZE then leaf
    else Climb(sha, sha(EntryInput(leaf, proof[..ENTRY_SIZE])), proof[ENTRY_SIZE..])
  }

  predicate Accepts(sha: Sha256, leaf: Digest, proof: seq<Byte>, root: Digest) {
    |proof| % ENTRY_SIZE == 0 && Climb(sha, leaf, proof) == root
  }

  method VerifyInclusion(sha: Sha256, leaf: Digest, proof: seq<Byte>, expectedRoot: Digest) returns (ok: bool)
    ensures ok == Accepts(sha, leaf, proof, expectedRoot)
  {
    if |proof| % ENTRY_SIZE != 0 {
      return false;
    }
    if |proof| == 0 {
      return leaf == expectedRoot;
    }
    var current := leaf;
    var i := 0;
    while i < |proof|
      invariant 0 <= i <= |proof| && i % ENTRY_SIZE == 0
      invariant Climb(sha, current, proof[i..]) == Climb(sha, leaf, proof)
    {
      assert i + ENTRY_SIZE <= |proof|;
      var entry := proof[i..i + ENTRY_SIZE];
      assert entry == proof[i..][..ENTRY_SIZE] && proof[i + ENTRY_SIZE..] == proof[i..][ENTRY_SIZE..];
      current := sha(EntryInput(current, entry));
      i := i + ENTRY_SIZE;
    }
    ok := current == expectedRoot;
  }

  // ------------------------------------------------------------ completeness

  /** The entry that takes node i of a level to its parent. */
  function EntryFor(level: seq<Digest>, i: nat): (e: seq<Byte>)
    requires i < |level|
    ensures |e| == ENTRY_SIZE
  {
    if i % 2 == 0 then [1] + RightOf(level, i / 2) else [0] + level[i - 1]
  }

  lemma EntryLeadsToParent(level: seq<Digest>, i: nat)
    requires i < |level|
    ensures EntryInput(level[i], EntryFor(level, i)) == ParentInput(level, i / 2)
  {
    var j := i / 2;
    if i % 2 == 0 {
      assert i == 2 * j;
      assert EntryFor(level, i)[1..] == RightOf(level, j);
    } else {
      assert i == 2 * j + 1;
      assert EntryFor(level, i)[1..] == level[i - 1];
    }
  }

  function ProofFor(sha: Sha256, leaves: seq<Digest>, i: nat): seq<Byte>
    requires i < |leaves|
    decreases |leaves|
  {
    if |leaves| == 1 then [] else EntryFor(leaves, i) + ProofFor(sha, Parents(sha, leaves), i / 2)
  }

  /** The proof for a leaf has one entry per level of the tree. */
  lemma {:induction false} ProofLength(sha: Sha256, leaves: seq<Digest>, i: nat)
    requires i < |leaves|
    ensures |ProofFor(sha, leaves, i)| == ENTRY_SIZE * Depth(|leaves|)
    decreases |leaves|
  {
    if |leaves| > 1 {
      ProofLength(sha, Parents(sha, leaves), i / 2);
    }
  }

  /** One step of the climb with the entry made for node i reaches the parent of node i. */
  lemma ClimbStep(sha: Sha256, level: seq<Digest>, i: nat, rest: seq<Byte>)
    requires i < |level|
    ensures var proof := EntryFor(level, i) + rest;
            && proof[..ENTRY_SIZE] == EntryFor(level, i) && proof[ENTRY_SIZE..] == rest
            && Climb(sha, level[i], proof) == Climb(sha, Parents(sha, level)[i / 2], rest)
  {
    EntryLeadsToParent(level, i);
    var proof := EntryFor(level, i) + rest;
    assert proof[..ENTRY_SIZE] == EntryFor(level, i) && proof[ENTRY_SIZE..] == rest;
  }

  lemma {:induction false} ClimbsToRoot(sha: Sha256, leaves: seq<Digest>, i: nat)
    requires i < |leaves|
    ensures Climb(sha, leaves[i], ProofFor(sha, leaves, i)) == Root(sha, leaves)
    decreases |leaves|
  {
    if |leaves| > 1 {
      var up := Parents(sha, leaves);
      ClimbsToRoot(sha, up, i / 2);
      ClimbStep(sha, leaves, i, ProofFor(sha, up, i / 2));
    }
  }

  /** Every leaf of every nonempty list has an accepted proof with one entry per level. */
  lemma Completeness(sha: Sha256, leaves: seq<Digest>, i: nat)
    requires i < |leaves|
    ensures |ProofFor(sha, leaves, i)| == ENTRY_SIZE * Depth(|leaves|)
    ensures Accepts(sha, leaves[i], ProofFor(sha, leaves, i), Root(sha, leaves))
  {
    ProofLength(sha, leaves, i);
    ClimbsToRoot(sha, leaves, i);
  }

  lemma TraceStep(sha: Sha256, leaves: seq<Digest>, i: nat, rest: seq<Byte>)
    requires i < |leaves| && |leaves| > 1 && |rest| == ENTRY_SIZE * Depth(|Parents(sha, leaves)|)
    requires Trace(sha, Parents(sha, leaves), Parents(sha, leaves)[i / 2], rest) == At(i / 2)
    ensures var proof := EntryFor(leaves, i) + rest;
            |proof| == ENTRY_SIZE * Depth(|leaves|) && Trace(sha, leaves, leaves[i], proof) == At(i)
  {
    var proof := EntryFor(leaves, i) + rest;
    assert proof[..ENTRY_SIZE] == EntryFor(leaves, i) && proof[ENTRY_SIZE..] == rest;
    EntryLeadsToParent(leaves, i);
    assert i == 2 * (i / 2) || i == 2 * (i / 2) + 1;
  }

  /** That proof leads back to the index it was made for. */
  lemma {:induction false} ProofNamesItsIndex(sha: Sha256, leaves: seq<Digest>, i: nat)
    requires i < |leaves|
    ensures |ProofFor(sha, leaves, i)| == ENTRY_SIZE * Depth(|leaves|)
    ensures Trace(sha, leaves, leaves[i], ProofFor(sha, leaves, i)) == At(i)
    decreases |leaves|
  {
    ProofLength(sha, leaves, i);
    if |leaves| > 1 {
      ProofNamesItsIndex(sha, Parents(sha, leaves), i / 2);
      TraceStep(sha, leaves, i, ProofFor(sha, Parents(sha, leaves), i / 2));
    }
  }

  // --------------------------------------------------------------- soundness

  /** Where an accepted proof leads: to a leaf, or to two inputs of the hash. */
  datatype Outcome = At(index: nat) | Collision(x: seq<Byte>, y: seq<Byte>)

  /** Extracts that outcome by comparing the two computations level by level. */
  function Trace(sha: Sha256, leaves: seq<Digest>, leaf: Digest, proof: seq<Byte>): (o: Outcome)
    requires leaves != [] && |proof| == ENTRY_SIZE * Depth(|leaves|)
    ensures o.At? ==> o.index < |leaves|
    decreases |leaves|
  {
    if |leaves| == 1 then At(0)
    else
      var e := proof[..ENTRY_SIZE];
      match Trace(sha, Parents(sha, leaves), sha(EntryInput(leaf, e)), proof[ENTRY_SIZE..])
      case Collision(x, y) => Collision(x, y)
      case At(j) =>
        if EntryInput(leaf, e) != ParentInput(leaves, j) then Collision(EntryInput(leaf, e), ParentInput(leaves, j))
        else if e[0] != 0 || 2 * j + 1 == |leaves| then At(2 * j)
        else At(2 * j + 1)
  }

  /** All inputs the verifier hashes. */
  function VerifierInputs(sha: Sha256, leaf: Digest, proof: seq<Byte>): set<seq<Byte>>
    decreases |proof|
  {
    if |proof| < ENTRY_SIZE then {}
    else
      var x := EntryInput(leaf, proof[..ENTRY_SIZE]);
      {x} + VerifierInputs(sha, sha(x), proof[ENTRY_SIZE..])
  }

  /** All inputs hashed to build the tree. */
  function TreeInputs(sha: Sha256, leaves: seq<Digest>): set<seq<Byte>>
    decreases |leaves|
  {
    if |leaves| <= 1 then {}
    else LevelInputs(leaves, (|leaves| + 1) / 2) + TreeInputs(sha, Parents(sha, leaves))
  }

  /** The inputs of the first `n` parents of a level. */
  function LevelInputs(level: seq<Digest>, n: nat): (s: set<seq<Byte>>)
    requires n <= (|level| + 1) / 2
    ensures forall j :: 0 <= j < n ==> ParentInput(level, j) in s
  {
    if n == 0 then {} else LevelInputs(level, n - 1) + {ParentInput(level, n - 1)}
  }

  /** An accepted proof of full depth is for the leaf it traces to, or the verifier and
      the tree have hashed two different inputs to the same value. */
  lemma {:induction false} Soundness(sha: Sha256, leaves: seq<Digest>, leaf: Digest, proof: seq<Byte>)
    requires leaves != [] && |proof| == ENTRY_SIZE * Depth(|leaves|)
    requires Accepts(sha, leaf, proof, Root(sha, leaves))
    ensures match Trace(sha, leaves, leaf, proof)
            case At(i) => leaves[i] == leaf
            case Collision(x, y) =>
              && x != y && sha(x) == sha(y)
              && x in VerifierInputs(sha, leaf, proof) && y in TreeInputs(sha, leaves)
    decreases |leaves|
  {
    if |leaves| > 1 {
      var up, e, rest := Parents(sha, leaves), proof[..ENTRY_SIZE], proof[ENTRY_SIZE..];
      var c := sha(EntryInput(leaf, e));
      Soundness(sha, up, c, rest);
      match Trace(sha, up, c, rest)
      case Collision(x, y) =>
      case At(j) =>
        var x, y := EntryInput(leaf, e), ParentInput(leaves, j);
        assert sha(x) == sha(y);
        if x == y {
          SplitPair(x, leaf, e[1..], e[1..], leaf, leaves[2 * j], RightOf(leaves, j), e[0] != 0);
        }
    }
  }

  /** Concatenations of 32-byte values are equal only component by component. */
  lemma SplitPair(x: seq<Byte>, a: seq<Byte>, b: seq<Byte>, c: seq<Byte>, d: seq<Byte>,
                  left: seq<Byte>, right: seq<Byte>, first: bool)
    requires |a| == |c| == |left| == 32
    requires x == left + right && x == if first then a + b else c + d
    ensures if first then a == left && b == right else c == left && d == right
  {
    assert (left + right)[..32] == left && (left + right)[32..] == right;
    assert (a + b)[..32] == a && (a + b)[32..] == b;
    assert (c + d)[..32] == c && (c + d)[32..] == d;
  }

  // -------------------------------------------------------- the depth matters

  ghost predicate Collides(sha: Sha256, xs: set<seq<Byte>>, ys: set<seq<Byte>>) {
    exists x, y :: x in xs && y in ys && x != y && sha(x) == sha(y)
  }

  /** All levels share the root, and each is one shallower than the one below. */
  lemma {:induction false} LevelKeepsRoot(sha: Sha256, leaves: seq<Digest>, d: nat)
    requires leaves != [] && d <= Depth(|leaves|)
    ensures LevelAbove(sha, leaves, d) != []
    ensures Root(sha, LevelAbove(sha, leaves, d)) == Root(sha, leaves)
    ensures Depth(|LevelAbove(sha, leaves, d)|) == Depth(|leaves|) - d
    decreases d
  {
    if d > 0 {
      LevelKeepsRoot(sha, Parents(sha, leaves), d - 1);
    }
  }

  /** `Soundness` without the extractor. */
  lemma InLeavesOrCollides(sha: Sha256, leaves: seq<Digest>, leaf: Digest, proof: seq<Byte>)
    requires leaves != [] && |proof| == ENTRY_SIZE * Depth(|leaves|)
    requires Accepts(sha, leaf, proof, Root(sha, leaves))
    ensures leaf in leaves || Collides(sha, VerifierInputs(sha, leaf, proof), TreeInputs(sha, leaves))
  {
    Soundness(sha, leaves, leaf, proof);
  }

  /** The check takes no depth argument: a proof `d` entries short of full depth vouches only
      for a node of the level d steps up (or a collision), never for more. */
  lemma ShortProofNamesInnerNode(sha: Sha256, leaves: seq<Digest>, node: Digest, proof: seq<Byte>, d: nat)
    requires leaves != [] && d <= Depth(|leaves|)
    requires |proof| == ENTRY_SIZE * (Depth(|leaves|) - d)
    requires Accepts(sha, node, proof, Root(sha, leaves))
    ensures node in LevelAbove(sha, leaves, d)
         || Collides(sha, VerifierInputs(sha, node, proof), TreeInputs(sha, LevelAbove(sha, leaves, d)))
  {
    LevelKeepsRoot(sha, leaves, d);
    InLeavesOrCollides(sha, LevelAbove(sha, leaves, d), node, proof);
  }

  /** Conversely every inner node has such a short proof, so full depth is exactly what
      ties an accepted proof to the leaves. */
  lemma InnerNodeHasShortProof(sha: Sha256, leaves: seq<Digest>, d: nat, i: nat)
    requires leaves != [] && d <= Depth(|leaves|) && i < |LevelAbove(sha, leaves, d)|
    ensures var proof := ProofFor(sha, LevelAbove(sha, leaves, d), i);
            && |proof| == ENTRY_SIZE * (Depth(|leaves|) - d)
            && Accepts(sha, LevelAbove(sha, leaves, d)[i], proof, Root(sha, leaves))
  {
    LevelKeepsRoot(sha, leaves, d);
    Completeness(sha, LevelAbove(sha, leaves, d), i);
  }

  // ------------------------------------------------------------ longer proofs

  /** Climbing is done entry by entry, and so is the verifier's hashing. */
  lemma {:induction false} ClimbConcat(sha: Sha256, leaf: Digest, head: seq<Byte>, rest: seq<Byte>)
    requires |head| % ENTRY_SIZE == 0
    ensures Climb(sha, leaf, head + rest) == Climb(sha, Climb(sha, leaf, head), rest)
    ensures VerifierInputs(sha, Climb(sha, leaf, head), rest) <= VerifierInputs(sha, leaf, head + rest)
    decreases |head|
  {
    if head == [] {
      assert head + rest == rest;
    } else {
      var e, tail := head[..ENTRY_SIZE], head[ENTRY_SIZE..];
      ClimbConcat(sha, sha(EntryInput(leaf, e)), tail, rest);
      assert (head + rest)[..ENTRY_SIZE] == e && (head + rest)[ENTRY_SIZE..] == tail + rest;
    }
  }

  /** Leading entries only move the value to which the rest of the proof applies. */
  lemma AcceptsConcat(sha: Sha256, value: Digest, extra: seq<Byte>, rest: seq<Byte>, root: Digest)
    requires |extra| % ENTRY_SIZE == 0
    ensures Accepts(sha, value, extra + rest, root) <==> Accepts(sha, Climb(sha, value, extra), rest, root)
  {
    ClimbConcat(sha, value, extra, rest);
    WholeEntries(|extra|, |rest|);
  }

  lemma WholeEntries(m: nat, n: nat)
    requires m % ENTRY_SIZE == 0
    ensures (m + n) % ENTRY_SIZE == 0 <==> n % ENTRY_SIZE == 0
  {
  }

  lemma DepthIsWhole(d: nat)
    ensures (ENTRY_SIZE * d) % ENTRY_SIZE == 0
  {
  }

  /** An accepted proof with extra entries before the last `Depth` ones climbs to a leaf by the extra
      entries, or the verifier and the tree have hashed two different inputs to the same value. */
  lemma LongProofClimbsToLeaf(sha: Sha256, leaves: seq<Digest>, value: Digest, extra: seq<Byte>, rest: seq<Byte>)
    requires leaves != [] && |rest| == ENTRY_SIZE * Depth(|leaves|)
    requires Accepts(sha, value, extra + rest, Root(sha, leaves))
    ensures Climb(sha, value, extra) in leaves
         || Collides(sha, VerifierInputs(sha, value, extra + rest), TreeInputs(sha, leaves))
  {
    assert |extra| % ENTRY_SIZE == 0 by {
      DepthIsWhole(Depth(|leaves|));
      WholeEntries(|rest|, |extra|);
    }
    AcceptsConcat(sha, value, extra, rest, Root(sha, leaves));
    InLeavesOrCollides(sha, leaves, Climb(sha, value, extra), rest);
    ClimbConcat(sha, value, extra, rest);
  }

  /** Conversely, whatever climbs to a leaf by some entries has such a proof. */
  lemma ClimbExtendsProof(sha: Sha256, leaves: seq<Digest>, i: nat, value: Digest, extra: seq<Byte>)
    requires i < |leaves| && |extra| % ENTRY_SIZE == 0 && Climb(sha, value, extra) == leaves[i]
    ensures Accepts(sha, value, extra + ProofFor(sha, leaves, i), Root(sha, leaves))
  {
    Completeness(sha, leaves, i);
    AcceptsConcat(sha, value, extra, ProofFor(sha, leaves, i), Root(sha, leaves));
  }

  /** So a leaf that is itself the hash of two values lets the verifier accept either of them. */
  lemma LeafPreimageIsAccepted(sha: Sha256, leaves: seq<Digest>, i: nat, a: Digest, b: Digest)
    requires i < |leaves| && leaves[i] == sha(a + b)
    ensures Accepts(sha, a, [1] + b + ProofFor(sha, leaves, i), Root(sha, leaves))
    ensures Accepts(sha, b, [0] + a + ProofFor(sha, leaves, i), Root(sha, leaves))
  {
    var right, left: seq<Byte> := [1] + b, [0] + a;
    assert right[..ENTRY_SIZE] == right && right[ENTRY_SIZE..] == [] && right[1..] == b;
    assert left[..ENTRY_SIZE] == left && left[ENTRY_SIZE..] == [] && left[1..] == a;
    ClimbExtendsProof(sha, leaves, i, a, right);
    ClimbExtendsProof(sha, leaves, i, b, left);
  }

  // ------------------------------------------------------------------- binding

  lemma SameInput(a: seq<Digest>, b: seq<Digest>, i: nat)
    requires |a| == |b| && i < |a| && ParentInput(a, i / 2) == ParentInput(b, i / 2)
    ensures a[i] == b[i]
  {
    var j := i / 2;
    SplitPair(ParentInput(a, j), b[2 * j], RightOf(b, j), b[2 * j], RightOf(b, j), a[2 * j], RightOf(a, j), true);
    assert i == 2 * j || i == 2 * j + 1;
  }

  lemma SameParents(sha: Sha256, a: seq<Digest>, b: seq<Digest>)
    requires |a| == |b| && Parents(sha, a) == Parents(sha, b)
    ensures a == b || Collides(sha, LevelInputs(a, (|a| + 1) / 2), LevelInputs(b, (|b| + 1) / 2))
  {
    if i :| 0 <= i < |a| && ParentInput(a, i / 2) != ParentInput(b, i / 2) {
      assert Parents(sha, a)[i / 2] == Parents(sha, b)[i / 2];
    } else {
      forall i | 0 <= i < |a| ensures a[i] == b[i] {
        SameInput(a, b, i);
      }
    }
  }

  /** The root binds the list: two lists of one length with the same root are equal, or building
      their trees hashed two different inputs to the same value. */
  lemma {:induction false} RootBinds(sha: Sha256, a: seq<Digest>, b: seq<Digest>)
    requires |a| == |b| && Root(sha, a) == Root(sha, b)
    ensures a == b || Collides(sha, TreeInputs(sha, a), TreeInputs(sha, b))
    decreases |a|
  {
    if |a| > 1 {
      RootBinds(sha, Parents(sha, a), Parents(sha, b));
      if Parents(sha, a) == Parents(sha, b) {
        SameParents(sha, a, b);
      }
    }
  }

  /** The length is essential: repeating the last entry of a list of odd length does not change its root. */
  lemma RepeatedLastKeepsRoot(sha: Sha256, leaves: seq<Digest>)
    requires |leaves| % 2 == 1 && |leaves| > 1
    ensures Root(sha, leaves + [leaves[|leaves| - 1]]) == Root(sha, leaves)
  {
    var longer := leaves + [leaves[|leaves| - 1]];
    assert (|longer| + 1) / 2 == (|leaves| + 1) / 2;
    forall j | 0 <= j < (|leaves| + 1) / 2 ensures ParentInput(longer, j) == ParentInput(leaves, j) {
      assert longer[2 * j] == leaves[2 * j] && RightOf(longer, j) == RightOf(leaves, j);
    }
    assert Parents(sha, longer) == Parents(sha, leaves);
  }
}
