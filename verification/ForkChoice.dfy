/** Fork choice between competing blocks (`ForkResolver` in gratia-consensus/src/lib.rs). */
module ForkChoice {
  import opened Identifiers

  /** A block as the rule sees it: its height, its hash and how many valid signatures it has. */
  datatype Candidate = Candidate(height: nat, hash: Hash, signatures: nat)

  datatype Choice = KeepOurs | SwitchToTheirs | NeedMoreInfo

  function Resolve(ours: Candidate, theirs: Candidate, threshold: nat): Choice {
    if ours.height != theirs.height then
      if theirs.height > ours.height then SwitchToTheirs else KeepOurs
    else if theirs.signatures > ours.signatures && theirs.signatures >= threshold then SwitchToTheirs
    else if ours.signatures > theirs.signatures && ours.signatures >= threshold then KeepOurs
    else if ours.signatures == theirs.signatures && ours.signatures >= threshold then
      if theirs.hash < ours.hash then SwitchToTheirs else KeepOurs
    else NeedMoreInfo
  }

  /** The block a node ends on after meeting the candidates in this order. */
  function Winner(s: seq<Candidate>, threshold: nat): Candidate
    requires s != []
  {
    var last := s[|s| - 1];
    if |s| == 1 then last
    else
      var w := Winner(s[..|s| - 1], threshold);
      if Resolve(w, last, threshold) == SwitchToTheirs then last else w
  }

  /** Higher, then better signed, then lower hash. */
  predicate Better(a: Candidate, b: Candidate) {
    || a.height > b.height
    || (a.height == b.height && a.signatures > b.signatures)
    || (a.height == b.height && a.signatures == b.signatures && a.hash < b.hash)
  }

  ghost predicate Best(s: seq<Candidate>, w: Candidate) {
    w in s && forall x <- s :: x == w || Better(w, x)
  }

  /** A hash names one block. */
  ghost predicate DistinctHashes(s: seq<Candidate>) {
    forall a, b :: a in s && b in s && a.hash == b.hash ==> a == b
  }

  /** Two nodes comparing the same two blocks from opposite sides never both switch; they both keep
      their own only if the blocks are the same; and they lack information together, exactly when
      neither block of the one height has reached the threshold. */
  lemma SwappedViews(a: Candidate, b: Candidate, threshold: nat)
    ensures !(Resolve(a, b, threshold) == SwitchToTheirs && Resolve(b, a, threshold) == SwitchToTheirs)
    ensures Resolve(a, b, threshold) == KeepOurs && Resolve(b, a, threshold) == KeepOurs ==>
              a.height == b.height && a.signatures == b.signatures && a.hash == b.hash
    ensures Resolve(a, b, threshold) == NeedMoreInfo <==> Resolve(b, a, threshold) == NeedMoreInfo
    ensures Resolve(a, b, threshold) == NeedMoreInfo <==>
              a.height == b.height && a.signatures < threshold && b.signatures < threshold
  {
  }

  // ------------------------------------------------------------- convergence

  lemma {:induction false} BestExists(s: seq<Candidate>) returns (w: Candidate)
    requires s != [] && DistinctHashes(s)
    ensures Best(s, w)
  {
    var last := s[|s| - 1];
    w := last;
    if |s| > 1 {
      var front := s[..|s| - 1];
      assert forall x <- front :: x in s;
      var v := BestExists(front);
      w := if v == last || Better(v, last) then v else last;
      assert forall x <- s :: x in front || x == last;
    }
  }

  /** A candidate that everyone prefers wins every ordering it occurs in. */
  lemma {:induction false} PreferredWins(s: seq<Candidate>, w: Candidate, threshold: nat)
    requires w in s
    requires forall x <- s :: x != w ==>
        Resolve(w, x, threshold) != SwitchToTheirs && Resolve(x, w, threshold) == SwitchToTheirs
    ensures Winner(s, threshold) == w
  {
    if |s| > 1 {
      var front := s[..|s| - 1];
      if w in front {
        PreferredWins(front, w, threshold);
      } else {
        WinnerIsCandidate(front, threshold);
        assert Winner(front, threshold) in s;
      }
    }
  }

  lemma {:induction false} WinnerIsCandidate(s: seq<Candidate>, threshold: nat)
    requires s != []
    ensures Winner(s, threshold) in s
  {
    if |s| > 1 {
      WinnerIsCandidate(s[..|s| - 1], threshold);
    }
  }

  /** Among finalized candidates every ordering ends on the best one. */
  lemma FinalizedConverge(s: seq<Candidate>, threshold: nat)
    requires s != [] && DistinctHashes(s) && forall x <- s :: x.signatures >= threshold
    ensures Best(s, Winner(s, threshold))
  {
    var w := BestExists(s);
    PreferredWins(s, w, threshold);
  }

  /** The candidates are settled when the greatest height holds a single block or a finalized one. */
  ghost predicate Settled(s: seq<Candidate>, threshold: nat) {
    forall a, b :: a in s && b in s && a != b && Tallest(s, a) && Tallest(s, b) ==>
      exists c :: c in s && Tallest(s, c) && c.signatures >= threshold
  }

  ghost predicate Tallest(s: seq<Candidate>, a: Candidate) {
    forall x <- s :: x.height <= a.height
  }

  ghost predicate OrderIrrelevant(s: seq<Candidate>, threshold: nat)
    requires s != []
  {
    forall t: seq<Candidate> :: t != [] && multiset(t) == multiset(s) ==> Winner(t, threshold) == Winner(s, threshold)
  }

  /** Nodes converge whatever order the blocks arrive in if and only if the candidates are settled;
      the common winner is then the best candidate. */
  lemma ConvergenceCondition(s: seq<Candidate>, threshold: nat)
    requires s != [] && DistinctHashes(s)
    ensures OrderIrrelevant(s, threshold) <==> Settled(s, threshold)
    ensures Settled(s, threshold) ==> Best(s, Winner(s, threshold))
  {
    if Settled(s, threshold) {
      var w := BestExists(s);
      PreferredWins(s, w, threshold);
      forall t: seq<Candidate> | t != [] && multiset(t) == multiset(s) ensures Winner(t, threshold) == w {
        SameElements(s, t);
        PreferredWins(t, w, threshold);
      }
    } else {
      var a, b :| a in s && b in s && a != b && Tallest(s, a) && Tallest(s, b)
                  && forall c :: c in s && Tallest(s, c) ==> c.signatures < threshold;
      var t := MoveToFront(s, a);
      var u := MoveToFront(s, b);
      SameElements(s, t);
      SameElements(s, u);
      FirstWins(t, threshold);
      FirstWins(u, threshold);
    }
  }

  /** With no finalized block at the greatest height, a tallest block that comes first is never displaced. */
  lemma {:induction false} FirstWins(s: seq<Candidate>, threshold: nat)
    requires s != [] && Tallest(s, s[0])
    requires forall x <- s :: x.height == s[0].height ==> x.signatures < threshold
    ensures Winner(s, threshold) == s[0]
  {
    if |s| > 1 {
      var front := s[..|s| - 1];
      assert forall x <- front :: x in s;
      FirstWins(front, threshold);
    }
  }

  lemma SameElements(s: seq<Candidate>, t: seq<Candidate>)
    requires multiset(s) == multiset(t)
    ensures forall x :: x in s <==> x in t
  {
    forall x ensures x in s <==> x in t {
      assert x in s <==> x in multiset(s);
      assert x in t <==> x in multiset(t);
    }
  }

  lemma MoveToFront(s: seq<Candidate>, a: Candidate) returns (t: seq<Candidate>)
    requires a in s
    ensures t != [] && t[0] == a && multiset(t) == multiset(s)
  {
    var i :| 0 <= i < |s| && s[i] == a;
    t := [a] + s[..i] + s[i + 1..];
    assert s == s[..i] + [a] + s[i + 1..];
  }
}
