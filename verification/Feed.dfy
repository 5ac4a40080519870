/** The time index of the Lux post store (gratia-lux/src/store.rs). */
module Feed {
  import opened Identifiers
  import opened Counting

  datatype Post = Post(hash: Hash, timestamp: int, content: nat)

  datatype State = State(posts: map<Hash, Post>, index: seq<Hash>)

  predicate NotOlder(posts: map<Hash, Post>, h: Hash, timestamp: int) {
    h in posts && posts[h].timestamp >= timestamp
  }

  /** Where a post of this time goes: after every leading entry that is not older. */
  function Position(posts: map<Hash, Post>, index: seq<Hash>, timestamp: int): (p: nat)
    ensures p <= |index|
    ensures forall i :: 0 <= i < p ==> NotOlder(posts, index[i], timestamp)
    ensures p < |index| ==> !NotOlder(posts, index[p], timestamp)
  {
    if index == [] || !NotOlder(posts, index[0], timestamp) then 0 else 1 + Position(posts, index[1..], timestamp)
  }

  function Store(s: State, post: Post): State {
    var p := Position(s.posts, s.index, post.timestamp);
    State(s.posts[post.hash := post], InsertAt(s.index, p, post.hash))
  }

  /** The posts named by a list of hashes, unknown hashes skipped. */
  function Lookup(posts: map<Hash, Post>, hashes: seq<Hash>): seq<Post> {
    if hashes == [] then []
    else if hashes[0] in posts then [posts[hashes[0]]] + Lookup(posts, hashes[1..])
    else Lookup(posts, hashes[1..])
  }

  function Recent(s: State, limit: nat): seq<Post> {
    Lookup(s.posts, s.index[..Min(limit, |s.index|)])
  }

  function Run(arrivals: seq<Post>): State {
    if arrivals == [] then State(map[], []) else Store(Run(arrivals[..|arrivals| - 1]), arrivals[|arrivals| - 1])
  }

  // ------------------------------------------------- the reference: a stable sort

  ghost predicate DistinctHashes(s: seq<Post>) {
    forall i, j :: 0 <= i < j < |s| ==> s[i].hash != s[j].hash
  }

  ghost predicate ArrivedBefore(arrivals: seq<Post>, a: Post, b: Post) {
    exists i, j :: 0 <= i < j < |arrivals| && arrivals[i] == a && arrivals[j] == b
  }

  ghost predicate Arrived(arrivals: seq<Post>, h: Hash) {
    exists i :: 0 <= i < |arrivals| && arrivals[i].hash == h
  }

  /** Newer first; equal times in order of arrival. */
  ghost predicate Precedes(arrivals: seq<Post>, a: Post, b: Post) {
    a.timestamp > b.timestamp || (a.timestamp == b.timestamp && ArrivedBefore(arrivals, a, b))
  }

  ghost predicate Ordered(arrivals: seq<Post>, feed: seq<Post>) {
    forall i, j :: 0 <= i < j < |feed| ==> Precedes(arrivals, feed[i], feed[j])
  }

  /** The stable newest-first arrangement of the arrivals. */
  ghost predicate StableNewestFirst(arrivals: seq<Post>, feed: seq<Post>) {
    multiset(feed) == multiset(arrivals) && Ordered(arrivals, feed)
  }

  /** There is only one such arrangement. */
  lemma {:induction false} ArrangementIsUnique(arrivals: seq<Post>, a: seq<Post>, b: seq<Post>)
    requires DistinctHashes(arrivals) && multiset(a) == multiset(b) && Ordered(arrivals, a) && Ordered(arrivals, b)
    ensures a == b
    decreases |a|
  {
    assert |multiset(a)| == |multiset(b)|;
    if a != [] {
      HeadsAgree(arrivals, a, b);
      TailOf(arrivals, a);
      TailOf(arrivals, b);
      ArrangementIsUnique(arrivals, a[1..], b[1..]);
      assert a == [a[0]] + a[1..] && b == [b[0]] + b[1..];
    }
  }

  lemma TailOf(arrivals: seq<Post>, a: seq<Post>)
    requires a != [] && Ordered(arrivals, a)
    ensures Ordered(arrivals, a[1..]) && multiset(a[1..]) == multiset(a) - multiset{a[0]}
  {
    assert a == [a[0]] + a[1..];
  }

  lemma HeadsAgree(arrivals: seq<Post>, a: seq<Post>, b: seq<Post>)
    requires DistinctHashes(arrivals) && multiset(a) == multiset(b) && a != [] && b != []
    requires Ordered(arrivals, a) && Ordered(arrivals, b)
    ensures a[0] == b[0]
  {
    assert a[0] in multiset(b) && b[0] in multiset(a);
    var i :| 0 <= i < |a| && a[i] == b[0];
    var j :| 0 <= j < |b| && b[j] == a[0];
    assert i == 0 || j == 0;
  }

  // ---------------------------------------------------------------- the index

  function Time(posts: map<Hash, Post>, h: Hash): int {
    if h in posts then posts[h].timestamp else 0
  }

  ghost predicate Lists(posts: map<Hash, Post>, index: seq<Hash>) {
    forall h :: h in index <==> h in posts
  }

  ghost predicate Keyed(posts: map<Hash, Post>) {
    forall h <- posts :: posts[h].hash == h
  }

  ghost predicate NewestFirst(posts: map<Hash, Post>, index: seq<Hash>) {
    forall i, j :: 0 <= i < j < |index| ==> Time(posts, index[i]) >= Time(posts, index[j])
  }

  /** The index lists exactly the stored posts, each once, newest first. */
  ghost predicate IndexOk(s: State) {
    Lists(s.posts, s.index) && Keyed(s.posts) && Distinct(s.index) && NewestFirst(s.posts, s.index)
  }

  /** In a sorted index everything from the insertion point on is older. */
  lemma PositionSplits(posts: map<Hash, Post>, index: seq<Hash>, timestamp: int)
    requires Lists(posts, index) && NewestFirst(posts, index)
    ensures var p := Position(posts, index, timestamp);
            forall i :: 0 <= i < |index| ==> (i < p <==> Time(posts, index[i]) >= timestamp)
  {
    var p := Position(posts, index, timestamp);
    forall i | 0 <= i < |index| ensures i < p <==> Time(posts, index[i]) >= timestamp {
      assert index[i] in posts;
      if p <= i {
        assert index[p] in posts;
        assert Time(posts, index[p]) >= Time(posts, index[i]);
      }
    }
  }

  function InsertAt(index: seq<Hash>, p: nat, h: Hash): seq<Hash>
    requires p <= |index|
  {
    index[..p] + [h] + index[p..]
  }

  lemma InsertKeepsDistinct(index: seq<Hash>, p: nat, h: Hash)
    requires p <= |index| && Distinct(index)
    ensures Distinct(InsertAt(index, p, h)) <==> h !in index
  {
    var r := InsertAt(index, p, h);
    if h in index {
      var i :| 0 <= i < |index| && index[i] == h;
      assert r[p] == h && r[if i < p then i else i + 1] == h;
    }
  }

  lemma TimeAfterInsert(posts: map<Hash, Post>, index: seq<Hash>, p: nat, post: Post, i: nat)
    requires Lists(posts, index) && p <= |index| && post.hash !in posts && i <= |index|
    ensures Time(posts[post.hash := post], InsertAt(index, p, post.hash)[i])
         == if i < p then Time(posts, index[i]) else if i == p then post.timestamp else Time(posts, index[i - 1])
  {
    var r := InsertAt(index, p, post.hash);
    if i != p {
      assert r[i] == index[if i < p then i else i - 1] && r[i] in posts;
    }
  }

  lemma InsertKeepsOrder(posts: map<Hash, Post>, index: seq<Hash>, post: Post)
    requires Lists(posts, index) && NewestFirst(posts, index) && post.hash !in posts
    ensures NewestFirst(posts[post.hash := post], InsertAt(index, Position(posts, index, post.timestamp), post.hash))
  {
    var p := Position(posts, index, post.timestamp);
    var posts', r := posts[post.hash := post], InsertAt(index, p, post.hash);
    PositionSplits(posts, index, post.timestamp);
    forall i, j | 0 <= i < j < |r| ensures Time(posts', r[i]) >= Time(posts', r[j]) {
      TimeAfterInsert(posts, index, p, post, i);
      TimeAfterInsert(posts, index, p, post, j);
    }
  }

  /** A stored hash that comes again is listed twice: new hashes are exactly what keeps the index exact. */
  lemma RepeatedHashIsListedTwice(s: State, post: Post)
    requires IndexOk(s)
    ensures IndexOk(Store(s, post)) <==> post.hash !in s.posts
  {
    var p := Position(s.posts, s.index, post.timestamp);
    InsertKeepsDistinct(s.index, p, post.hash);
    if post.hash !in s.posts {
      InsertKeepsOrder(s.posts, s.index, post);
    }
  }

  /** All stored posts in index order. */
  function Listing(s: State): seq<Post> { Lookup(s.posts, s.index) }

  lemma {:induction false} LookupAll(posts: map<Hash, Post>, hashes: seq<Hash>)
    requires forall h <- hashes :: h in posts
    ensures |Lookup(posts, hashes)| == |hashes|
    ensures forall i :: 0 <= i < |hashes| ==> Lookup(posts, hashes)[i] == posts[hashes[i]]
  {
    if hashes != [] {
      LookupAll(posts, hashes[1..]);
    }
  }

  lemma {:induction false} LookupConcat(posts: map<Hash, Post>, a: seq<Hash>, b: seq<Hash>)
    ensures Lookup(posts, a + b) == Lookup(posts, a) + Lookup(posts, b)
  {
    if a == [] {
      assert a + b == b;
    } else {
      LookupConcat(posts, a[1..], b);
      assert (a + b)[1..] == a[1..] + b;
    }
  }

  lemma {:induction false} LookupIgnores(posts: map<Hash, Post>, post: Post, hashes: seq<Hash>)
    requires post.hash !in hashes
    ensures Lookup(posts[post.hash := post], hashes) == Lookup(posts, hashes)
  {
    if hashes != [] {
      LookupIgnores(posts, post, hashes[1..]);
    }
  }

  lemma LookupInserted(posts: map<Hash, Post>, post: Post, front: seq<Hash>, back: seq<Hash>)
    requires post.hash !in front && post.hash !in back
    ensures Lookup(posts[post.hash := post], front + [post.hash] + back)
         == Lookup(posts, front) + [post] + Lookup(posts, back)
  {
    var posts' := posts[post.hash := post];
    LookupConcat(posts', front + [post.hash], back);
    LookupConcat(posts', front, [post.hash]);
    LookupIgnores(posts, post, front);
    LookupIgnores(posts, post, back);
  }

  lemma LookupSplit(posts: map<Hash, Post>, hashes: seq<Hash>, p: nat)
    requires p <= |hashes| && forall h <- hashes :: h in posts
    ensures |Lookup(posts, hashes)| == |hashes|
    ensures Lookup(posts, hashes[..p]) == Lookup(posts, hashes)[..p]
    ensures Lookup(posts, hashes[p..]) == Lookup(posts, hashes)[p..]
  {
    LookupAll(posts, hashes);
    LookupAll(posts, hashes[..p]);
    LookupConcat(posts, hashes[..p], hashes[p..]);
    assert hashes == hashes[..p] + hashes[p..];
  }

  /** Storing inserts the post into the listing and changes nothing else of it. */
  lemma ListingAfterStore(s: State, post: Post)
    requires Lists(s.posts, s.index) && post.hash !in s.posts
    ensures var p := Position(s.posts, s.index, post.timestamp);
            && |Listing(s)| == |s.index|
            && Listing(Store(s, post)) == Listing(s)[..p] + [post] + Listing(s)[p..]
  {
    var p := Position(s.posts, s.index, post.timestamp);
    assert post.hash !in s.index;
    LookupSplit(s.posts, s.index, p);
    LookupInserted(s.posts, post, s.index[..p], s.index[p..]);
  }

  lemma ArrivedBeforeExtends(arrivals: seq<Post>, post: Post, a: Post, b: Post)
    requires Precedes(arrivals, a, b)
    ensures Precedes(arrivals + [post], a, b)
  {
    if a.timestamp == b.timestamp {
      var i, j :| 0 <= i < j < |arrivals| && arrivals[i] == a && arrivals[j] == b;
      assert (arrivals + [post])[i] == a && (arrivals + [post])[j] == b;
    }
  }

  /** Inserting the newest arrival after everything not older keeps the arrangement stable. */
  lemma InsertKeepsStable(arrivals: seq<Post>, feed: seq<Post>, post: Post, p: nat)
    requires StableNewestFirst(arrivals, feed) && p <= |feed|
    requires forall i :: 0 <= i < |feed| ==> (i < p <==> feed[i].timestamp >= post.timestamp)
    ensures StableNewestFirst(arrivals + [post], feed[..p] + [post] + feed[p..])
  {
    var longer, r := arrivals + [post], feed[..p] + [post] + feed[p..];
    assert feed == feed[..p] + feed[p..];
    forall i, j | 0 <= i < j < |r| ensures Precedes(longer, r[i], r[j]) {
      if i == p {
        assert r[j] == feed[j - 1];
      } else if j == p {
        assert r[i] == feed[i] && feed[i] in multiset(feed);
        assert feed[i] in arrivals;
        var k :| 0 <= k < |arrivals| && arrivals[k] == feed[i];
        assert longer[k] == feed[i] && longer[|arrivals|] == post;
      } else {
        var x, y := if i < p then i else i - 1, if j < p then j else j - 1;
        assert r[i] == feed[x] && r[j] == feed[y];
        ArrivedBeforeExtends(arrivals, post, feed[x], feed[y]);
      }
    }
  }

  /** After any sequence of new posts the index is exact and lists them as a stable sort by time does. */
  lemma {:induction false} FeedIsStableSort(arrivals: seq<Post>)
    requires DistinctHashes(arrivals)
    ensures IndexOk(Run(arrivals)) && StableNewestFirst(arrivals, Listing(Run(arrivals)))
    ensures forall h :: h in Run(arrivals).posts <==> Arrived(arrivals, h)
  {
    if arrivals != [] {
      var n := |arrivals| - 1;
      var before, post := arrivals[..n], arrivals[n];
      var s := Run(before);
      FeedIsStableSort(before);
      assert arrivals == before + [post];
      assert post.hash !in s.posts;
      RepeatedHashIsListedTwice(s, post);
      ListingAfterStore(s, post);
      LookupAll(s.posts, s.index);
      PositionSplits(s.posts, s.index, post.timestamp);
      InsertKeepsStable(before, Listing(s), post, Position(s.posts, s.index, post.timestamp));
      forall h ensures h in Run(arrivals).posts <==> Arrived(arrivals, h) {
        KnownHashes(before, post, h);
      }
    }
  }

  lemma KnownHashes(before: seq<Post>, post: Post, h: Hash)
    ensures Arrived(before + [post], h) <==> h == post.hash || Arrived(before, h)
  {
    if h == post.hash {
      assert (before + [post])[|before|].hash == h;
    } else if Arrived(before, h) {
      var i :| 0 <= i < |before| && before[i].hash == h;
      assert (before + [post])[i].hash == h;
    }
  }

  /** The recent posts are the first ones of the stable newest-first arrangement of all posts. */
  lemma RecentIsPrefix(arrivals: seq<Post>, sorted: seq<Post>, limit: nat)
    requires DistinctHashes(arrivals) && StableNewestFirst(arrivals, sorted)
    ensures Recent(Run(arrivals), limit) == sorted[..Min(limit, |sorted|)]
  {
    var s := Run(arrivals);
    FeedIsStableSort(arrivals);
    ArrangementIsUnique(arrivals, Listing(s), sorted);
    LookupSplit(s.posts, s.index, Min(limit, |s.index|));
  }

  /** On an exact index the recent posts are as many as asked for, or all; newest first; and no post
      left out is newer than one of them. */
  ghost predicate NewestOf(s: State, recent: seq<Post>, limit: nat) {
    && |recent| == Min(limit, |s.posts|)
    && (forall i :: 0 <= i < |recent| ==> recent[i].hash in s.posts && s.posts[recent[i].hash] == recent[i])
    && (forall i, j :: 0 <= i < j < |recent| ==>
          recent[i].hash != recent[j].hash && recent[i].timestamp >= recent[j].timestamp)
    && (forall h, i :: h in s.posts && 0 <= i < |recent| && LeftOut(h, recent) ==>
          recent[i].timestamp >= s.posts[h].timestamp)
  }

  ghost predicate LeftOut(h: Hash, recent: seq<Post>) {
    forall i :: 0 <= i < |recent| ==> recent[i].hash != h
  }

  lemma IndexSize(s: State)
    requires Lists(s.posts, s.index) && Distinct(s.index)
    ensures |s.index| == |s.posts|
  {
    ElementsCount(s.index);
    assert Elements(s.index) == s.posts.Keys;
  }

  lemma RecentAt(s: State, limit: nat)
    requires IndexOk(s)
    ensures |Recent(s, limit)| == Min(limit, |s.index|)
    ensures forall i :: 0 <= i < |Recent(s, limit)| ==>
              && s.index[i] in s.posts && Recent(s, limit)[i] == s.posts[s.index[i]]
              && Recent(s, limit)[i].hash == s.index[i]
  {
    LookupAll(s.posts, s.index[..Min(limit, |s.index|)]);
    assert forall i :: 0 <= i < |s.index| ==> s.index[i] in s.posts;
  }

  lemma LeftOutIsLater(s: State, limit: nat, h: Hash) returns (k: nat)
    requires IndexOk(s) && h in s.posts && LeftOut(h, Recent(s, limit))
    ensures |Recent(s, limit)| <= k < |s.index| && s.index[k] == h
  {
    RecentAt(s, limit);
    k :| 0 <= k < |s.index| && s.index[k] == h;
  }

  lemma RecentAreNewest(s: State, limit: nat)
    requires IndexOk(s)
    ensures NewestOf(s, Recent(s, limit), limit)
  {
    IndexSize(s);
    RecentAt(s, limit);
    var recent := Recent(s, limit);
    forall i, j | 0 <= i < j < |recent|
      ensures recent[i].hash != recent[j].hash && recent[i].timestamp >= recent[j].timestamp
    {
      assert Time(s.posts, s.index[i]) >= Time(s.posts, s.index[j]);
    }
    forall h, i | h in s.posts && 0 <= i < |recent| && LeftOut(h, recent)
      ensures recent[i].timestamp >= s.posts[h].timestamp
    {
      var k := LeftOutIsLater(s, limit, h);
      assert Time(s.posts, s.index[i]) >= Time(s.posts, s.index[k]);
    }
  }

  // ---------------------------------------------------- which runs stay exact

  function Hashes(arrivals: seq<Post>): seq<Hash> {
    seq(|arrivals|, i requires 0 <= i < |arrivals| => arrivals[i].hash)
  }

  /** Every arrival is listed, whether its hash is new or not. */
  lemma {:induction false} RunListsAll(arrivals: seq<Post>)
    ensures |Run(arrivals).index| == |arrivals| && Run(arrivals).posts.Keys == Elements(Hashes(arrivals))
  {
    if arrivals != [] {
      var n := |arrivals| - 1;
      RunListsAll(arrivals[..n]);
      assert Hashes(arrivals)[..n] == Hashes(arrivals[..n]);
      ElementsPrefix(Hashes(arrivals));
    }
  }

  /** The index is exact after a run if and only if no hash arrived twice. */
  lemma IndexOkIffDistinct(arrivals: seq<Post>)
    ensures IndexOk(Run(arrivals)) <==> DistinctHashes(arrivals)
  {
    if DistinctHashes(arrivals) {
      FeedIsStableSort(arrivals);
    }
    if IndexOk(Run(arrivals)) {
      RunListsAll(arrivals);
      IndexSize(Run(arrivals));
      ElementsCount(Hashes(arrivals));
      assert forall i :: 0 <= i < |arrivals| ==> Hashes(arrivals)[i] == arrivals[i].hash;
    }
  }

  // ------------------------------------------------------------------- class

  class LuxStore {
    var posts: map<Hash, Post>
    var timeSorted: seq<Hash>

    function Snapshot(): State
      reads this
    {
      State(posts, timeSorted)
    }

    constructor ()
      ensures Snapshot() == Run([])
    {
      posts, timeSorted := map[], [];
    }

    /** Binary search for the first older entry; it finds it whenever the index is in order. */
    method PartitionPoint(timestamp: int) returns (p: nat)
      ensures p <= |timeSorted|
      ensures Lists(posts, timeSorted) && NewestFirst(posts, timeSorted) ==> p == Position(posts, timeSorted, timestamp)
    {
      ghost var goal := Position(posts, timeSorted, timestamp);
      ghost var inOrder := Lists(posts, timeSorted) && NewestFirst(posts, timeSorted);
      if inOrder {
        PositionSplits(posts, timeSorted, timestamp);
      }
      var hi := |timeSorted|;
      p := 0;
      while p < hi
        invariant p <= hi <= |timeSorted|
        invariant inOrder ==> p <= goal <= hi
        decreases hi - p
      {
        var mid := p + (hi - p) / 2;
        assert inOrder ==> timeSorted[mid] in posts;
        if NotOlder(posts, timeSorted[mid], timestamp) {
          p := mid + 1;
        } else {
          hi := mid;
        }
      }
    }

    /** Every call lists the hash once more; on an exact index it is the insertion of `Store`. */
    method StoreReceivedPost(post: Post)
      modifies this
      ensures posts == old(posts)[post.hash := post]
      ensures multiset(timeSorted) == multiset(old(timeSorted)) + multiset{post.hash}
      ensures old(IndexOk(Snapshot())) ==> Snapshot() == Store(old(Snapshot()), post)
      ensures old(IndexOk(Snapshot())) ==> (IndexOk(Snapshot()) <==> post.hash !in old(posts))
    {
      var p := PartitionPoint(post.timestamp);
      assert timeSorted == timeSorted[..p] + timeSorted[p..];
      if IndexOk(Snapshot()) {
        RepeatedHashIsListedTwice(Snapshot(), post);
      }
      posts := posts[post.hash := post];
      timeSorted := timeSorted[..p] + [post.hash] + timeSorted[p..];
    }

    /** The newest posts: exactly so on an exact index; otherwise the posts of the first entries. */
    method GetRecentPosts(limit: nat) returns (recent: seq<Post>)
      ensures recent == Recent(Snapshot(), limit)
      ensures IndexOk(Snapshot()) ==> NewestOf(Snapshot(), recent, limit)
    {
      recent := [];
      var i := 0;
      while i < limit && i < |timeSorted|
        invariant 0 <= i <= Min(limit, |timeSorted|)
        invariant recent == Lookup(posts, timeSorted[..i])
      {
        var h := timeSorted[i];
        LookupConcat(posts, timeSorted[..i], [h]);
        assert timeSorted[..i + 1] == timeSorted[..i] + [h];
        if h in posts {
          recent := recent + [posts[h]];
        }
        i := i + 1;
      }
      if IndexOk(Snapshot()) {
        RecentAreNewest(Snapshot(), limit);
      }
    }
  }
}
