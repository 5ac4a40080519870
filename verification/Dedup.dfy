/** The gossip deduplication cache (gratia-network/src/gossip.rs). */
module Dedup {
  import opened Bytes
  import opened Counting

  datatype MessageId = MessageId(bytes: seq<Byte>)

  datatype State = State(maxEntries: nat, seen: set<MessageId>, order: seq<MessageId>)

  /** A full cache forgets its oldest quarter. */
  function Evict(s: State): State {
    if |s.seen| < s.maxEntries then s
    else
      var k := Min(s.maxEntries / 4, |s.order|);
      s.(order := s.order[k..], seen := s.seen - Elements(s.order[..k]))
  }

  function Insert(s: State, id: MessageId): (State, bool) {
    if id in s.seen then (s, false)
    else
      var e := Evict(s);
      (e.(seen := e.seen + {id}, order := e.order + [id]), true)
  }

  class DeduplicationCache {
    const maxEntries: nat
    var seenSet: set<MessageId>
    var seenOrder: seq<MessageId>

    function Snapshot(): State
      reads this
    {
      State(maxEntries, seenSet, seenOrder)
    }

    constructor (maxEntries: nat)
      ensures Snapshot() == State(maxEntries, {}, [])
    {
      this.maxEntries := maxEntries;
      seenSet, seenOrder := {}, [];
    }

    method CheckAndInsert(id: MessageId) returns (isNew: bool)
      modifies this
      ensures (Snapshot(), isNew) == Insert(old(Snapshot()), id)
    {
      if id in seenSet {
        return false;
      }
      if |seenSet| >= maxEntries {
        var toEvict := maxEntries / 4;
        var i := 0;
        while i < toEvict
          invariant 0 <= i <= toEvict
          invariant seenOrder == old(seenOrder)[Min(i, |old(seenOrder)|)..]
          invariant seenSet == old(seenSet) - Elements(old(seenOrder)[..Min(i, |old(seenOrder)|)])
        {
          if seenOrder != [] {
            var oldest := seenOrder[0];
            seenOrder := seenOrder[1..];
            seenSet := seenSet - {oldest};
            ghost var before := old(seenOrder);
            assert before[i] == oldest && Elements(before[..i + 1]) == Elements(before[..i]) + {oldest};
          }
          i := i + 1;
        }
      }
      seenSet := seenSet + {id};
      seenOrder := seenOrder + [id];
      return true;
    }
  }

  // -------------------------------------------------------------------- runs

  /** The cache and every id it ever accepted as new, oldest first. */
  datatype History = History(cache: State, accepted: seq<MessageId>)

  function Offer(h: History, id: MessageId): History {
    var (s, isNew) := Insert(h.cache, id);
    History(s, if isNew then h.accepted + [id] else h.accepted)
  }

  function Run(maxEntries: nat, offers: seq<MessageId>): History {
    if offers == [] then History(State(maxEntries, {}, []), [])
    else Offer(Run(maxEntries, offers[..|offers| - 1]), offers[|offers| - 1])
  }

  /** Set and queue hold the same ids, none twice. */
  ghost predicate Consistent(s: State) {
    s.seen == Elements(s.order) && Distinct(s.order)
  }

  /** How many of the latest accepted ids are remembered at least. */
  function Window(maxEntries: nat): nat { maxEntries - maxEntries / 4 + 1 }

  ghost predicate IsSuffix(q: seq<MessageId>, s: seq<MessageId>) {
    |q| <= |s| && q == s[|s| - |q|..]
  }

  /** The queue is the end of the accepted sequence: all of it, or at least a window. */
  ghost predicate IsRecentHistory(h: History) {
    && IsSuffix(h.cache.order, h.accepted)
    && (|h.cache.order| == |h.accepted| || |h.cache.order| >= Window(h.cache.maxEntries))
  }

  lemma EvictKeeps(s: State)
    requires Consistent(s)
    ensures Consistent(Evict(s)) && |s.seen| == |s.order|
    ensures |Evict(s).order| == if |s.order| < s.maxEntries then |s.order| else |s.order| - s.maxEntries / 4
  {
    ElementsCount(s.order);
  }

  lemma AppendKeeps(e: State, id: MessageId)
    requires Consistent(e) && id !in e.seen
    ensures Consistent(e.(seen := e.seen + {id}, order := e.order + [id]))
  {
    var longer := e.order + [id];
    assert forall i :: 0 <= i < |e.order| ==> longer[i] == e.order[i] && e.order[i] in Elements(e.order);
    assert longer[|e.order|] == id;
    assert Elements(longer) == Elements(e.order) + {id};
  }

  lemma OfferKeepsConsistency(h: History, id: MessageId)
    requires Consistent(h.cache)
    ensures Consistent(Offer(h, id).cache)
  {
    EvictKeeps(h.cache);
    if id !in h.cache.seen {
      AppendKeeps(Evict(h.cache), id);
    }
  }

  lemma OfferKeepsHistory(h: History, id: MessageId)
    requires h.cache.maxEntries >= 4 && Consistent(h.cache) && IsRecentHistory(h)
    requires |h.cache.order| <= h.cache.maxEntries
    ensures var h' := Offer(h, id);
            IsRecentHistory(h') && |h'.cache.order| <= h'.cache.maxEntries == h.cache.maxEntries
  {
    var e := Evict(h.cache);
    EvictKeeps(h.cache);
    if id !in h.cache.seen {
      SuffixAppend(e.order, h.accepted, id);
      assert |e.order| == |h.cache.order| || |e.order| == h.cache.maxEntries - h.cache.maxEntries / 4;
    }
  }

  lemma SuffixAppend(q: seq<MessageId>, s: seq<MessageId>, id: MessageId)
    requires IsSuffix(q, s)
    ensures IsSuffix(q + [id], s + [id])
  {
  }

  /** In every run with capacity at least four, set and queue agree, the size never exceeds the
      capacity, and the queue is the most recent part of what was accepted. */
  lemma {:induction false} RunKeepsCache(maxEntries: nat, offers: seq<MessageId>)
    requires maxEntries >= 4
    ensures var h := Run(maxEntries, offers);
            && Consistent(h.cache) && IsRecentHistory(h)
            && |h.cache.seen| == |h.cache.order| <= maxEntries == h.cache.maxEntries
  {
    if offers != [] {
      RunKeepsCache(maxEntries, offers[..|offers| - 1]);
      OfferKeepsConsistency(Run(maxEntries, offers[..|offers| - 1]), offers[|offers| - 1]);
      OfferKeepsHistory(Run(maxEntries, offers[..|offers| - 1]), offers[|offers| - 1]);
    }
    ElementsCount(Run(maxEntries, offers).cache.order);
  }

  /** Before position j of the accepted sequence there are `Window` distinct ids other than the one at
      j, unless fewer were accepted at all, in which case the one at j is new. */
  ghost predicate WindowAt(accepted: seq<MessageId>, j: nat, maxEntries: nat)
    requires j < |accepted|
  {
    var w := Min(j, Window(maxEntries));
    accepted[j] !in accepted[j - w..j] && Distinct(accepted[j - w..j])
  }

  ghost predicate Spaced(accepted: seq<MessageId>, maxEntries: nat) {
    forall j :: 0 <= j < |accepted| ==> WindowAt(accepted, j, maxEntries)
  }

  lemma AcceptKeepsSpacing(h: History, id: MessageId)
    requires Consistent(h.cache) && IsRecentHistory(h) && id !in h.cache.seen && Spaced(h.accepted, h.cache.maxEntries)
    ensures Spaced(h.accepted + [id], h.cache.maxEntries)
  {
    var longer, n := h.accepted + [id], |h.accepted|;
    forall j | 0 <= j < |longer| ensures WindowAt(longer, j, h.cache.maxEntries) {
      var w := Min(j, Window(h.cache.maxEntries));
      assert longer[j - w..j] == h.accepted[j - w..j];
      assert j < n ==> WindowAt(h.accepted, j, h.cache.maxEntries);
      assert j == n ==> h.accepted[j - w..j] == h.accepted[j - w..];
    }
  }

  /** Every accepted id differs from each of the window of distinct ids accepted just before it. */
  lemma {:induction false} AcceptedAreSpaced(maxEntries: nat, offers: seq<MessageId>)
    requires maxEntries >= 4
    ensures Spaced(Run(maxEntries, offers).accepted, maxEntries)
  {
    if offers != [] {
      var before, id := offers[..|offers| - 1], offers[|offers| - 1];
      AcceptedAreSpaced(maxEntries, before);
      RunKeepsCache(maxEntries, before);
      var h := Run(maxEntries, before);
      if id !in h.cache.seen {
        AcceptKeepsSpacing(h, id);
      }
    }
  }

  /** So between two acceptances of the same id at least max - max/4 + 1 different other ids were accepted. */
  lemma ReacceptanceGap(maxEntries: nat, offers: seq<MessageId>, i: nat, j: nat)
    requires maxEntries >= 4
    requires var accepted := Run(maxEntries, offers).accepted; i < j < |accepted| && accepted[i] == accepted[j]
    ensures var accepted := Run(maxEntries, offers).accepted;
            && j - i - 1 >= Window(maxEntries)
            && Distinct(accepted[j - Window(maxEntries)..j]) && accepted[j] !in accepted[j - Window(maxEntries)..j]
  {
    AcceptedAreSpaced(maxEntries, offers);
    var accepted := Run(maxEntries, offers).accepted;
    assert WindowAt(accepted, j, maxEntries);
    var w := Min(j, Window(maxEntries));
    assert forall k :: j - w <= k < j ==> accepted[k] == accepted[j - w..j][k - (j - w)];
  }

  /** A full cache stays within its capacity after a new id exactly when the capacity is at least
      four; below that nothing is evicted. */
  lemma CapacityNeedsFour(s: State, id: MessageId)
    requires Consistent(s) && |s.order| == s.maxEntries && id !in s.seen
    ensures |Insert(s, id).0.order| <= s.maxEntries <==> s.maxEntries >= 4
  {
    EvictKeeps(s);
  }

  /** With a capacity below four nothing is ever evicted: the cache holds every id it ever accepted,
      and accepts none twice. */
  lemma {:induction false} SmallCacheKeepsAll(maxEntries: nat, offers: seq<MessageId>)
    requires maxEntries < 4
    ensures var h := Run(maxEntries, offers);
            h.cache.order == h.accepted && Consistent(h.cache) && h.cache.maxEntries == maxEntries
  {
    if offers != [] {
      var before, id := offers[..|offers| - 1], offers[|offers| - 1];
      SmallCacheKeepsAll(maxEntries, before);
      var s := Run(maxEntries, before).cache;
      OfferKeepsConsistency(Run(maxEntries, before), id);
    }
  }

  /** What never was offered before is always accepted. */
  lemma FirstOfferIsAccepted(maxEntries: nat, offers: seq<MessageId>, id: MessageId)
    requires id !in offers
    ensures Run(maxEntries, offers + [id]).accepted == Run(maxEntries, offers).accepted + [id]
  {
    RememberedWereOffered(maxEntries, offers);
    assert (offers + [id])[..|offers|] == offers;
  }

  lemma {:induction false} RememberedWereOffered(maxEntries: nat, offers: seq<MessageId>)
    ensures forall x <- Run(maxEntries, offers).cache.seen :: x in offers
  {
    if offers != [] {
      RememberedWereOffered(maxEntries, offers[..|offers| - 1]);
    }
  }

  /** Ids that all differ are all accepted, whatever the capacity. */
  lemma {:induction false} DistinctAreAccepted(maxEntries: nat, offers: seq<MessageId>)
    requires Distinct(offers)
    ensures Run(maxEntries, offers).accepted == offers
  {
    if offers != [] {
      var before, id := offers[..|offers| - 1], offers[|offers| - 1];
      DistinctPrefix(offers);
      DistinctAreAccepted(maxEntries, before);
      FirstOfferIsAccepted(maxEntries, before, id);
      assert offers == before + [id];
    }
  }

  function Numbered(n: nat): seq<MessageId> {
    seq(n, i requires 0 <= i < n => MessageId(seq(i, j => 0)))
  }

  lemma NumberedDiffer(n: nat)
    ensures Distinct(Numbered(n))
  {
    forall i, j | 0 <= i < j < n ensures Numbered(n)[i] != Numbered(n)[j] {
      assert |Numbered(n)[i].bytes| == i && |Numbered(n)[j].bytes| == j;
    }
  }

  ghost predicate Overflows(maxEntries: nat, offers: seq<MessageId>) {
    |Run(maxEntries, offers).cache.order| > maxEntries
  }

  /** Some run outgrows the capacity if and only if the capacity is below four. */
  lemma OverflowIffBelowFour(maxEntries: nat)
    ensures (exists offers :: Overflows(maxEntries, offers)) <==> maxEntries < 4
  {
    if maxEntries < 4 {
      var offers := Numbered(maxEntries + 1);
      NumberedDiffer(maxEntries + 1);
      DistinctAreAccepted(maxEntries, offers);
      SmallCacheKeepsAll(maxEntries, offers);
      assert Overflows(maxEntries, offers);
    } else {
      forall offers ensures !Overflows(maxEntries, offers) {
        RunKeepsCache(maxEntries, offers);
      }
    }
  }

  /** An id is accepted exactly if it is not remembered, and then remembered as the newest. */
  lemma AcceptedIff(h: History, id: MessageId)
    requires Consistent(h.cache)
    ensures var t := Offer(h, id);
            && (id in h.cache.order <==> t == h)
            && (id !in h.cache.order ==>
                  && t.accepted == h.accepted + [id]
                  && t.cache.order != [] && t.cache.order[|t.cache.order| - 1] == id && id in t.cache.seen)
  {
    assert id in h.cache.order <==> id in Elements(h.cache.order);
  }
}
