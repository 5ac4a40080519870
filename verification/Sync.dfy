/** Catching up with the network (gratia-consensus/src/sync.rs). */
module Sync {
  import opened Identifiers
  import opened Counting

  /** `content` stands for the fields that only enter the hash. */
  datatype Block = Block(height: nat, parent: Hash, content: nat)

  type HashOf = Block -> Hash

  datatype Mode = Idle | Requesting | Downloading(targetHeight: nat, current: nat) | Applying | Synced

  datatype Request = Request(fromHeight: nat, toHeight: nat)

  datatype State = State(mode: Mode, ourHeight: nat, networkHeight: nat, target: nat, buffer: seq<Block>)

  datatype Response = Blocks(blocks: seq<Block>) | UnexpectedHeight | NonContiguous | InvalidBlock | BufferFull

  const SYNC_BATCH_SIZE := 50
  const SYNC_THRESHOLD := 5
  const MAX_BUFFER_SIZE := 200

  // ------------------------------------------------------------------- steps

  predicate NeedsSync(ours: nat, network: nat) {
    network > ours && network - ours >= SYNC_THRESHOLD
  }

  function CreateRequest(s: State): (State, Option<Request>) {
    if !NeedsSync(s.ourHeight, s.networkHeight) then (s.(mode := Synced), None)
    else
      var target := if s.target <= s.ourHeight then s.networkHeight else s.target;
      (s.(mode := Requesting, target := target),
       Some(Request(s.ourHeight + 1, Min(s.ourHeight + SYNC_BATCH_SIZE, target))))
  }

  predicate Contiguous(blocks: seq<Block>) {
    forall i :: 0 <= i < |blocks| - 1 ==> blocks[i + 1].height == blocks[i].height + 1
  }

  predicate Linked(hash: HashOf, blocks: seq<Block>) {
    forall i :: 0 <= i < |blocks| - 1 ==> blocks[i + 1].parent == hash(blocks[i])
  }

  function ProcessResponse(hash: HashOf, s: State, blocks: seq<Block>): (State, Response) {
    if blocks == [] then (s.(mode := if s.ourHeight >= s.target then Synced else Idle), Blocks([]))
    else if blocks[0].height != s.ourHeight + 1 then (s, UnexpectedHeight)
    else if !Contiguous(blocks) then (s, NonContiguous)
    else if !Linked(hash, blocks) then (s, InvalidBlock)
    else if |s.buffer| + |blocks| > MAX_BUFFER_SIZE then (s, BufferFull)
    else
      (s.(buffer := s.buffer + blocks, mode := Downloading(s.target, blocks[|blocks| - 1].height)), Blocks(blocks))
  }

  function OnBlockReceived(s: State, height: nat): State {
    var s' := s.(networkHeight := if height > s.networkHeight then height else s.networkHeight);
    if (s.mode.Idle? || s.mode.Synced?) && NeedsSync(s'.ourHeight, s'.networkHeight) then s'.(mode := Idle) else s'
  }

  /** The buffered blocks above a height. */
  function Above(buffer: seq<Block>, height: nat): (r: seq<Block>)
    ensures |r| <= |buffer|
  {
    if buffer == [] then []
    else
      var rest := Above(buffer[..|buffer| - 1], height);
      if buffer[|buffer| - 1].height > height then rest + [buffer[|buffer| - 1]] else rest
  }

  function MarkApplied(s: State, height: nat): State {
    var s' := s.(ourHeight := height, buffer := Above(s.buffer, height));
    if height >= s.target then
      if NeedsSync(height, s.networkHeight) then s'.(target := s.networkHeight, mode := Idle) else s'.(mode := Synced)
    else s'.(mode := Downloading(s.target, height))
  }

  function Fresh(height: nat): State { State(Idle, height, 0, 0, []) }

  // -------------------------------------------------------------------- runs

  datatype Event = Ask | Answer(blocks: seq<Block>) | Gossip(height: nat) | Applied(height: nat) | Reset(height: nat)

  function Step(hash: HashOf, s: State, e: Event): State {
    match e
    case Ask => CreateRequest(s).0
    case Answer(blocks) => ProcessResponse(hash, s, blocks).0
    case Gossip(height) => OnBlockReceived(s, height)
    case Applied(height) => MarkApplied(s, height)
    case Reset(height) => Fresh(height)
  }

  function Run(hash: HashOf, s: State, events: seq<Event>): State {
    if events == [] then s else Step(hash, Run(hash, s, events[..|events| - 1]), events[|events| - 1])
  }

  /** The target never exceeds the best known height, the buffer is bounded and holds no applied block. */
  ghost predicate Inv(s: State) {
    && s.target <= s.networkHeight && |s.buffer| <= MAX_BUFFER_SIZE
    && forall x <- s.buffer :: x.height > s.ourHeight
  }

  lemma {:induction false} AboveOnly(buffer: seq<Block>, height: nat)
    ensures forall x <- Above(buffer, height) :: x in buffer && x.height > height
  {
    if buffer != [] {
      AboveOnly(buffer[..|buffer| - 1], height);
    }
  }

  lemma {:induction false} ContiguousRises(blocks: seq<Block>, i: nat)
    requires Contiguous(blocks) && i < |blocks|
    ensures blocks[i].height == blocks[0].height + i
  {
    if i > 0 {
      ContiguousRises(blocks, i - 1);
      assert blocks[(i - 1) + 1].height == blocks[i - 1].height + 1;
    }
  }

  lemma StepKeepsInv(hash: HashOf, s: State, e: Event)
    requires Inv(s)
    ensures Inv(Step(hash, s, e))
  {
    match e
    case Answer(blocks) =>
      if blocks != [] && Contiguous(blocks) {
        forall i | 0 <= i < |blocks| ensures blocks[i].height == blocks[0].height + i {
          ContiguousRises(blocks, i);
        }
      }
    case Applied(height) => AboveOnly(s.buffer, height);
    case _ =>
  }

  /** In every run the target never exceeds the best known height, and the buffer stays bounded and
      ahead of the applied height. */
  lemma {:induction false} RunKeepsInv(hash: HashOf, height: nat, events: seq<Event>)
    ensures Inv(Run(hash, Fresh(height), events))
  {
    if events != [] {
      RunKeepsInv(hash, height, events[..|events| - 1]);
      StepKeepsInv(hash, Run(hash, Fresh(height), events[..|events| - 1]), events[|events| - 1]);
    }
  }

  /** A nonempty answer is taken exactly if it starts one above the applied height, each block is one
      above its predecessor and names its hash as parent, and the buffer stays within 200 blocks; the
      blocks are then buffered in order. Any other nonempty answer changes nothing. */
  lemma AnswerTakenIff(hash: HashOf, s: State, blocks: seq<Block>)
    requires blocks != []
    ensures var (t, r) := ProcessResponse(hash, s, blocks);
            && (r.Blocks? <==>
                  && blocks[0].height == s.ourHeight + 1
                  && (forall i :: 0 < i < |blocks| ==> IsChild(hash, blocks[i - 1], blocks[i]))
                  && |s.buffer| + |blocks| <= 200)
            && (!r.Blocks? ==> t == s)
            && (r.Blocks? ==>
                  && r.blocks == blocks
                  && t == s.(buffer := s.buffer + blocks,
                             mode := Downloading(s.target, s.ourHeight + |blocks|)))
  {
    if forall i :: 0 < i < |blocks| ==> IsChild(hash, blocks[i - 1], blocks[i]) {
      forall i | 0 <= i < |blocks| - 1
        ensures blocks[i + 1].height == blocks[i].height + 1 && blocks[i + 1].parent == hash(blocks[i])
      {
        assert IsChild(hash, blocks[(i + 1) - 1], blocks[i + 1]);
      }
    }
    if Contiguous(blocks) {
      ContiguousRises(blocks, |blocks| - 1);
    }
  }

  /** The second block is the child of the first. */
  predicate IsChild(hash: HashOf, a: Block, b: Block) {
    b.height == a.height + 1 && b.parent == hash(a)
  }

  /** What is wrong with an answer is named by its first fault. */
  lemma AnswerFault(hash: HashOf, s: State, blocks: seq<Block>)
    requires blocks != []
    ensures var r := ProcessResponse(hash, s, blocks).1;
            && (r.UnexpectedHeight? <==> blocks[0].height != s.ourHeight + 1)
            && (r.NonContiguous? <==>
                  && blocks[0].height == s.ourHeight + 1
                  && exists i :: 0 < i < |blocks| && blocks[i].height != blocks[i - 1].height + 1)
            && (r.InvalidBlock? ==> exists i :: 0 < i < |blocks| && blocks[i].parent != hash(blocks[i - 1]))
            && (r.BufferFull? ==> |s.buffer| + |blocks| > 200
                                  && forall i :: 0 < i < |blocks| ==> blocks[i].parent == hash(blocks[i - 1]))
  {
    if i :| 0 <= i < |blocks| - 1 && blocks[i + 1].height != blocks[i].height + 1 {
      assert blocks[i + 1].height != blocks[(i + 1) - 1].height + 1;
    }
    if i :| 0 <= i < |blocks| - 1 && blocks[i + 1].parent != hash(blocks[i]) {
      assert blocks[i + 1].parent != hash(blocks[(i + 1) - 1]);
    }
    if i :| 0 < i < |blocks| && blocks[i].height != blocks[i - 1].height + 1 {
      assert blocks[(i - 1) + 1].height != blocks[i - 1].height + 1;
    }
    if i :| 0 < i < |blocks| && blocks[i].parent != hash(blocks[i - 1]) {
      assert blocks[(i - 1) + 1].parent != hash(blocks[i - 1]);
    }
  }

  /** An empty answer ends a session whose target is reached and leaves a node waiting otherwise. */
  lemma EmptyAnswer(hash: HashOf, s: State)
    ensures var (t, r) := ProcessResponse(hash, s, []);
            && r == Blocks([]) && t == s.(mode := t.mode)
            && (t.mode == Synced || t.mode == Idle) && (t.mode == Synced <==> s.target <= s.ourHeight)
  {
  }

  /** A node asks exactly while it is five blocks or more behind: for the next heights, at most 50, up to
      its target; a reached target is replaced by the best known height. */
  lemma AskMeans(s: State)
    ensures var (t, r) := CreateRequest(s);
            && (r.Some? <==> s.networkHeight >= s.ourHeight + 5)
            && (r.None? ==> t == s.(mode := Synced))
            && (r.Some? ==>
                  && t.target == (if s.target > s.ourHeight then s.target else s.networkHeight)
                  && t == s.(mode := Requesting, target := t.target)
                  && r.value.fromHeight == s.ourHeight + 1
                  && r.value.toHeight <= s.ourHeight + 50 && r.value.toHeight <= t.target
                  && (r.value.toHeight == s.ourHeight + 50 || r.value.toHeight == t.target))
  {
  }

  /** Hearing of a height only ever raises the best known one, and wakes a node that rests. */
  lemma GossipMeans(s: State, height: nat)
    ensures var t := OnBlockReceived(s, height);
            && t == s.(networkHeight := t.networkHeight, mode := t.mode)
            && t.networkHeight >= s.networkHeight && t.networkHeight >= height
            && (t.networkHeight == s.networkHeight || t.networkHeight == height)
            && t.mode == if (s.mode.Idle? || s.mode.Synced?) && t.networkHeight >= s.ourHeight + 5 then Idle else s.mode
  {
  }

  /** Applying blocks sets the height, drops what is buffered up to it, and goes on with the session, with
      a new one if the node is still five behind, or rests. */
  lemma AppliedMeans(s: State, height: nat)
    ensures var t := MarkApplied(s, height);
            && t.ourHeight == height && t.networkHeight == s.networkHeight
            && (height < s.target ==> t.mode == Downloading(s.target, height) && t.target == s.target)
            && (height >= s.target && s.networkHeight >= height + 5 ==> t.mode == Idle && t.target == s.networkHeight)
            && (height >= s.target && s.networkHeight < height + 5 ==> t.mode == Synced && t.target == s.target)
            && (forall x :: x in t.buffer <==> x in s.buffer && x.height > height)
  {
    AboveMember(s.buffer, height);
  }

  lemma {:induction false} AboveMember(buffer: seq<Block>, height: nat)
    ensures forall x :: x in Above(buffer, height) <==> x in buffer && x.height > height
  {
    if buffer != [] {
      AboveMember(buffer[..|buffer| - 1], height);
    }
  }

  // ---------------------------------------------------------------- progress

  /** `chain[h]` is the block of height h, each linked to the one before. */
  ghost predicate IsChain(hash: HashOf, chain: seq<Block>) {
    Linked(hash, chain) && forall h :: 0 <= h < |chain| ==> chain[h].height == h
  }

  /** One round: a request, a peer that serves exactly the requested range, and the application of
      the blocks if they were taken. */
  function Round(hash: HashOf, s: State, chain: seq<Block>): (r: (State, Option<Request>))
    requires s.networkHeight < |chain| && s.target <= s.networkHeight
    ensures r.1.Some? ==> r.1.value.fromHeight == s.ourHeight + 1 <= r.1.value.toHeight <= s.networkHeight
    ensures r.1.Some? ==> r.1.value.toHeight < r.1.value.fromHeight + SYNC_BATCH_SIZE
  {
    var (s1, request) := CreateRequest(s);
    if request.None? then (s1, None)
    else
      var range := request.value;
      var (s2, response) := ProcessResponse(hash, s1, chain[range.fromHeight..range.toHeight + 1]);
      (if response.Blocks? then MarkApplied(s2, range.toHeight) else s2, request)
  }

  function Rounds(hash: HashOf, s: State, chain: seq<Block>, n: nat): State
    requires s.networkHeight < |chain| && s.target <= s.networkHeight
    decreases n
  {
    if n == 0 then s
    else
      var s' := Round(hash, s, chain).0;
      assert s'.target <= s'.networkHeight == s.networkHeight;
      Rounds(hash, s', chain, n - 1)
  }

  // -------------------------------------------------------------------- the plan

  function SessionTarget(ours: nat, target: nat, network: nat): nat {
    if target <= ours then network else target
  }

  function NextRange(ours: nat, target: nat, network: nat): Request {
    Request(ours + 1, Min(ours + SYNC_BATCH_SIZE, SessionTarget(ours, target, network)))
  }

  /** The ranges a node will ask for if every answer is taken; they depend on three heights only. */
  function Plan(ours: nat, target: nat, network: nat): (plan: seq<Request>)
    requires target <= network
    ensures Tiles(ours, PlanEnd(ours, plan), plan) && !NeedsSync(PlanEnd(ours, plan), network)
    decreases network - ours
  {
    if !NeedsSync(ours, network) then []
    else
      var r := NextRange(ours, target, network);
      var rest := Plan(r.toHeight, SessionTarget(ours, target, network), network);
      assert ([r] + rest)[1..] == rest;
      [r] + rest
  }

  function PlanEnd(ours: nat, plan: seq<Request>): nat {
    if plan == [] then ours else plan[|plan| - 1].toHeight
  }

  /** The requests split the heights after `start` up to `end` into consecutive ranges of 1 to 50. */
  ghost predicate Tiles(start: nat, end: nat, requests: seq<Request>)
    decreases |requests|
  {
    if requests == [] then start == end
    else
      && requests[0].fromHeight == start + 1 <= requests[0].toHeight < start + 1 + SYNC_BATCH_SIZE
      && Tiles(requests[0].toHeight, end, requests[1..])
  }

  /** A range fits beside the buffered blocks that are not below it. */
  predicate Fits(buffer: seq<Block>, r: Request)
    requires r.fromHeight > 0
  {
    |Above(buffer, r.fromHeight - 1)| + (r.toHeight + 1 - r.fromHeight) <= MAX_BUFFER_SIZE
  }

  ghost predicate AllFit(buffer: seq<Block>, plan: seq<Request>) {
    forall r <- plan :: r.fromHeight > 0 && Fits(buffer, r)
  }

  ghost predicate PlanFits(s: State)
    requires s.target <= s.networkHeight
  {
    AllFit(s.buffer, Plan(s.ourHeight, s.target, s.networkHeight))
  }

  // -------------------------------------------------------- what is left buffered

  lemma {:induction false} AboveAll(buffer: seq<Block>, height: nat)
    requires forall x <- buffer :: x.height > height
    ensures Above(buffer, height) == buffer
  {
    if buffer != [] {
      AboveAll(buffer[..|buffer| - 1], height);
    }
  }

  lemma {:induction false} AboveTwice(buffer: seq<Block>, low: nat, high: nat)
    requires low <= high
    ensures Above(Above(buffer, low), high) == Above(buffer, high)
  {
    if buffer != [] {
      var n := |buffer| - 1;
      AboveTwice(buffer[..n], low, high);
      var rest := Above(buffer[..n], low);
      assert (rest + [buffer[n]])[..|rest|] == rest;
    }
  }

  /** Served blocks leave the buffer when they are applied. */
  lemma {:induction false} ServedAreDrained(buffer: seq<Block>, blocks: seq<Block>, height: nat)
    requires forall x <- blocks :: x.height <= height
    ensures Above(buffer + blocks, height) == Above(buffer, height)
  {
    if blocks == [] {
      assert buffer + blocks == buffer;
    } else {
      var n := |blocks| - 1;
      assert (buffer + blocks)[..|buffer + blocks| - 1] == buffer + blocks[..n];
      ServedAreDrained(buffer, blocks[..n], height);
    }
  }

  // ------------------------------------------------------------------- one round

  /** The requested slice of the chain passes every check, and is buffered exactly when it fits. */
  lemma AnswerAccepted(hash: HashOf, s: State, chain: seq<Block>, r: Request)
    requires IsChain(hash, chain) && Inv(s) && r.fromHeight == s.ourHeight + 1 <= r.toHeight < |chain|
    ensures var blocks := chain[r.fromHeight..r.toHeight + 1];
            ProcessResponse(hash, s, blocks) ==
              if Fits(s.buffer, r)
              then (s.(buffer := s.buffer + blocks, mode := Downloading(s.target, r.toHeight)), Blocks(blocks))
              else (s, BufferFull)
  {
    AboveAll(s.buffer, s.ourHeight);
  }

  /** A session that has reached its target while the network moved on continues to the network height. */
  function AppliedTarget(height: nat, target: nat, network: nat): nat {
    if height >= target && NeedsSync(height, network) then network else target
  }

  lemma AppliedServed(s: State, blocks: seq<Block>, height: nat, mode: Mode)
    requires forall x <- blocks :: x.height <= height
    ensures var s' := MarkApplied(s.(buffer := s.buffer + blocks, mode := mode), height);
            && s'.ourHeight == height && s'.networkHeight == s.networkHeight && s'.buffer == Above(s.buffer, height)
            && s'.target == AppliedTarget(height, s.target, s.networkHeight)
  {
    ServedAreDrained(s.buffer, blocks, height);
  }

  lemma RoundIs(hash: HashOf, s: State, chain: seq<Block>)
    requires s.networkHeight < |chain| && Inv(s) && IsChain(hash, chain) && NeedsSync(s.ourHeight, s.networkHeight)
    ensures var r, s1 := NextRange(s.ourHeight, s.target, s.networkHeight), CreateRequest(s).0;
            var blocks := chain[r.fromHeight..r.toHeight + 1];
            && Round(hash, s, chain).1 == Some(r) && s1.buffer == s.buffer
            && Round(hash, s, chain).0 ==
                 if Fits(s.buffer, r)
                 then MarkApplied(s1.(buffer := s1.buffer + blocks, mode := Downloading(s1.target, r.toHeight)),
                                  r.toHeight)
                 else s1
  {
    AnswerAccepted(hash, CreateRequest(s).0, chain, NextRange(s.ourHeight, s.target, s.networkHeight));
  }

  /** A node that is behind asks for the next range of the plan. It advances to the end of that range
      exactly when the range fits; otherwise only the session fields change. */
  lemma RoundAdvancesIffFits(hash: HashOf, s: State, chain: seq<Block>)
    requires s.networkHeight < |chain| && Inv(s) && IsChain(hash, chain) && NeedsSync(s.ourHeight, s.networkHeight)
    ensures var r := NextRange(s.ourHeight, s.target, s.networkHeight);
            var session := SessionTarget(s.ourHeight, s.target, s.networkHeight);
            var (s', request) := Round(hash, s, chain);
            && request == Some(r) && s'.networkHeight == s.networkHeight
            && (Fits(s.buffer, r) ==>
                  && s'.ourHeight == r.toHeight > s.ourHeight && s'.buffer == Above(s.buffer, r.toHeight)
                  && s'.target == AppliedTarget(r.toHeight, session, s.networkHeight))
            && (!Fits(s.buffer, r) ==> s' == s.(mode := Requesting, target := session))
  {
    var r, s1 := NextRange(s.ourHeight, s.target, s.networkHeight), CreateRequest(s).0;
    RoundIs(hash, s, chain);
    AppliedServed(s1, chain[r.fromHeight..r.toHeight + 1], r.toHeight, Downloading(s1.target, r.toHeight));
  }

  lemma RoundKeepsInv(hash: HashOf, s: State, chain: seq<Block>)
    requires s.networkHeight < |chain| && Inv(s) && IsChain(hash, chain)
    ensures Inv(Round(hash, s, chain).0) && Round(hash, s, chain).0.networkHeight == s.networkHeight
  {
    if NeedsSync(s.ourHeight, s.networkHeight) {
      RoundAdvancesIffFits(hash, s, chain);
      AboveOnly(s.buffer, NextRange(s.ourHeight, s.target, s.networkHeight).toHeight);
    }
  }

  /** The plan after a round is the rest of the plan, or all of it if the range did not fit. */
  lemma RoundFollowsPlan(hash: HashOf, s: State, chain: seq<Block>)
    requires s.networkHeight < |chain| && Inv(s) && IsChain(hash, chain) && NeedsSync(s.ourHeight, s.networkHeight)
    ensures var plan, s' := Plan(s.ourHeight, s.target, s.networkHeight), Round(hash, s, chain).0;
            && s'.target <= s'.networkHeight && plan != [] && Round(hash, s, chain).1 == Some(plan[0])
            && Plan(s'.ourHeight, s'.target, s'.networkHeight) == if Fits(s.buffer, plan[0]) then plan[1..] else plan
  {
    var r := NextRange(s.ourHeight, s.target, s.networkHeight);
    var session := SessionTarget(s.ourHeight, s.target, s.networkHeight);
    RoundAdvancesIffFits(hash, s, chain);
  }

  lemma {:induction false} TilesAbove(start: nat, end: nat, requests: seq<Request>)
    requires Tiles(start, end, requests)
    ensures forall r <- requests :: start < r.fromHeight <= r.toHeight < r.fromHeight + SYNC_BATCH_SIZE
    decreases |requests|
  {
    if requests != [] {
      TilesAbove(requests[0].toHeight, end, requests[1..]);
      assert requests == [requests[0]] + requests[1..];
    }
  }

  lemma DrainingKeepsFit(buffer: seq<Block>, height: nat, plan: seq<Request>)
    requires forall r <- plan :: r.fromHeight > height
    ensures AllFit(Above(buffer, height), plan) <==> AllFit(buffer, plan)
  {
    forall r | r in plan ensures Fits(Above(buffer, height), r) <==> Fits(buffer, r) {
      DrainedFits(buffer, height, r);
    }
  }

  lemma DrainedCount(buffer: seq<Block>, low: nat, high: nat)
    requires low <= high
    ensures |Above(Above(buffer, low), high)| == |Above(buffer, high)|
  {
    AboveTwice(buffer, low, high);
  }

  lemma DrainedFits(buffer: seq<Block>, height: nat, r: Request)
    requires r.fromHeight > height
    ensures Fits(Above(buffer, height), r) <==> Fits(buffer, r)
  {
    var h: nat := r.fromHeight - 1;
    DrainedCount(buffer, height, h);
  }

  /** Whether the plan fits does not change from round to round. */
  lemma RoundKeepsFit(hash: HashOf, s: State, chain: seq<Block>)
    requires s.networkHeight < |chain| && Inv(s) && IsChain(hash, chain) && NeedsSync(s.ourHeight, s.networkHeight)
    ensures PlanFits(Round(hash, s, chain).0) <==> PlanFits(s)
  {
    var plan, s' := Plan(s.ourHeight, s.target, s.networkHeight), Round(hash, s, chain).0;
    RoundAdvancesIffFits(hash, s, chain);
    RoundFollowsPlan(hash, s, chain);
    if Fits(s.buffer, plan[0]) {
      TilesAbove(plan[0].toHeight, PlanEnd(s.ourHeight, plan), plan[1..]);
      DrainingKeepsFit(s.buffer, plan[0].toHeight, plan[1..]);
      assert plan == [plan[0]] + plan[1..];
    }
  }

  // ------------------------------------------------------------------- all rounds

  predicate CaughtUp(s: State) {
    s.mode == Synced && s.networkHeight < s.ourHeight + SYNC_THRESHOLD
  }

  predicate CaughtUpAfter(hash: HashOf, s: State, chain: seq<Block>, n: nat)
    requires s.networkHeight < |chain| && s.target <= s.networkHeight
  {
    CaughtUp(Rounds(hash, s, chain, n))
  }

  /** The requests of the first n rounds. */
  function Asked(hash: HashOf, s: State, chain: seq<Block>, n: nat): seq<Request>
    requires s.networkHeight < |chain| && s.target <= s.networkHeight
    decreases n
  {
    if n == 0 then []
    else
      var (s', request) := Round(hash, s, chain);
      assert s'.target <= s'.networkHeight == s.networkHeight;
      (if request.Some? then [request.value] else []) + Asked(hash, s', chain, n - 1)
  }

  /** The first n rounds follow the whole plan and end caught up. */
  ghost predicate Follows(hash: HashOf, s: State, chain: seq<Block>, plan: seq<Request>, n: nat)
    requires s.networkHeight < |chain| && s.target <= s.networkHeight
  {
    && CaughtUp(Rounds(hash, s, chain, n)) && Asked(hash, s, chain, n) == plan
    && Tiles(s.ourHeight, Rounds(hash, s, chain, n).ourHeight, plan)
  }

  /** If the plan fits, the rounds ask for exactly the planned ranges, which tile the gap without
      overlap, and end in state Synced less than five blocks behind. */
  lemma {:induction false} SyncCompletes(hash: HashOf, s: State, chain: seq<Block>)
    requires s.networkHeight < |chain| && Inv(s) && IsChain(hash, chain) && PlanFits(s)
    ensures var plan := Plan(s.ourHeight, s.target, s.networkHeight); Follows(hash, s, chain, plan, |plan| + 1)
    decreases s.networkHeight - s.ourHeight
  {
    if NeedsSync(s.ourHeight, s.networkHeight) {
      var plan, s' := Plan(s.ourHeight, s.target, s.networkHeight), Round(hash, s, chain).0;
      RoundFollowsPlan(hash, s, chain);
      RoundAdvancesIffFits(hash, s, chain);
      RoundKeepsInv(hash, s, chain);
      RoundKeepsFit(hash, s, chain);
      SyncCompletes(hash, s', chain);
      assert plan == [plan[0]] + plan[1..];
    }
  }

  lemma {:induction false} NeverCaughtUp(hash: HashOf, s: State, chain: seq<Block>, n: nat)
    requires s.networkHeight < |chain| && Inv(s) && IsChain(hash, chain) && !PlanFits(s)
    ensures !CaughtUp(Rounds(hash, s, chain, n))
    decreases n
  {
    if n > 0 {
      RoundKeepsInv(hash, s, chain);
      RoundKeepsFit(hash, s, chain);
      NeverCaughtUp(hash, Round(hash, s, chain).0, chain, n - 1);
    }
  }

  /** With the network height fixed and a peer that serves each requested range, syncing completes if
      and only if every planned range fits beside what the buffer then still holds. */
  lemma SyncCompletesIffPlanFits(hash: HashOf, s: State, chain: seq<Block>)
    requires s.networkHeight < |chain| && Inv(s) && IsChain(hash, chain)
    ensures (exists n: nat :: CaughtUpAfter(hash, s, chain, n)) <==> PlanFits(s)
  {
    if PlanFits(s) {
      SyncCompletes(hash, s, chain);
      assert CaughtUpAfter(hash, s, chain, |Plan(s.ourHeight, s.target, s.networkHeight)| + 1);
    } else {
      forall n: nat ensures !CaughtUpAfter(hash, s, chain, n) {
        NeverCaughtUp(hash, s, chain, n);
      }
    }
  }

  /** Room for one batch is always enough. */
  lemma RoomSuffices(s: State)
    requires s.target <= s.networkHeight && |s.buffer| + SYNC_BATCH_SIZE <= MAX_BUFFER_SIZE
    ensures PlanFits(s)
  {
    var plan := Plan(s.ourHeight, s.target, s.networkHeight);
    TilesAbove(s.ourHeight, PlanEnd(s.ourHeight, plan), plan);
  }

  ghost predicate Stalled(s: State) {
    && Inv(s) && NeedsSync(s.ourHeight, s.networkHeight)
    && !Fits(s.buffer, NextRange(s.ourHeight, s.target, s.networkHeight))
  }

  lemma StaysStalled(hash: HashOf, s: State, chain: seq<Block>)
    requires s.networkHeight < |chain| && IsChain(hash, chain) && Stalled(s)
    ensures var t := Round(hash, s, chain).0;
            Stalled(t) && t.ourHeight == s.ourHeight && t.networkHeight == s.networkHeight
  {
    RoundAdvancesIffFits(hash, s, chain);
    RoundKeepsInv(hash, s, chain);
  }

  /** A node whose next range does not fit stays where it is, however often it asks. */
  lemma {:induction false} FullBufferStalls(hash: HashOf, s: State, chain: seq<Block>, n: nat)
    requires s.networkHeight < |chain| && IsChain(hash, chain) && Stalled(s)
    ensures Rounds(hash, s, chain, n).ourHeight == s.ourHeight
    decreases n
  {
    if n > 0 {
      StaysStalled(hash, s, chain);
      var t := Round(hash, s, chain).0;
      FullBufferStalls(hash, t, chain, n - 1);
    }
  }

  /** A node whose answers are taken but not applied. */
  function Waiting(height: nat, network: nat, mode: Mode, buffer: seq<Block>): State {
    State(mode, height, network, network, buffer)
  }

  lemma RunStep(hash: HashOf, s: State, events: seq<Event>, e: Event)
    ensures Run(hash, s, events + [e]) == Step(hash, Run(hash, s, events), e)
  {
    assert (events + [e])[..|events|] == events;
  }

  /** The state after the node heard of the network, asked, and took the same answer n times. */
  lemma {:induction false} Answers(hash: HashOf, chain: seq<Block>, height: nat, network: nat, n: nat)
    returns (events: seq<Event>, mode: Mode, buffer: seq<Block>)
    requires IsChain(hash, chain) && height + SYNC_BATCH_SIZE <= network < |chain| && n <= 4
    ensures Run(hash, Fresh(height), events) == Waiting(height, network, mode, buffer)
    ensures |buffer| == n * SYNC_BATCH_SIZE
    ensures |events| == 2 + n && events[0] == Gossip(network) && events[1] == Ask
    ensures forall i :: 2 <= i < |events| ==> events[i] == Answer(chain[height + 1..height + SYNC_BATCH_SIZE + 1])
  {
    if n == 0 {
      events, mode, buffer := [Gossip(network), Ask], Requesting, [];
      RunStep(hash, Fresh(height), [], Gossip(network));
      RunStep(hash, Fresh(height), [Gossip(network)], Ask);
      assert [] + [Gossip(network)] == [Gossip(network)] && [Gossip(network)] + [Ask] == events;
    } else {
      var b := chain[height + 1..height + SYNC_BATCH_SIZE + 1];
      events, mode, buffer := Answers(hash, chain, height, network, n - 1);
      RunStep(hash, Fresh(height), events, Answer(b));
      events, mode, buffer := events + [Answer(b)], Downloading(network, height + SYNC_BATCH_SIZE), buffer + b;
    }
  }

  /** Such a node is easy to reach: one that takes the same full answer four times before applying
      it, at any height and with the network any number of blocks from a batch on ahead, never
      catches up by asking. */
  lemma StallIsReachable(hash: HashOf, chain: seq<Block>, height: nat, network: nat) returns (events: seq<Event>)
    requires IsChain(hash, chain) && height + SYNC_BATCH_SIZE <= network < |chain|
    ensures |events| == 6 && events[0] == Gossip(network) && events[1] == Ask
    ensures forall i :: 2 <= i < 6 ==> events[i] == Answer(chain[height + 1..height + SYNC_BATCH_SIZE + 1])
    ensures var s := Run(hash, Fresh(height), events);
            && s.networkHeight == network && s.target <= network && !PlanFits(s)
            && forall n: nat :: !CaughtUpAfter(hash, s, chain, n)
  {
    var mode, buffer;
    events, mode, buffer := Answers(hash, chain, height, network, 4);
    var s := Run(hash, Fresh(height), events);
    RunKeepsInv(hash, height, events);
    FullIsStuck(hash, s, chain);
  }

  lemma FullIsStuck(hash: HashOf, s: State, chain: seq<Block>)
    requires s.networkHeight < |chain| && IsChain(hash, chain) && Inv(s) && |s.buffer| == MAX_BUFFER_SIZE
    requires NeedsSync(s.ourHeight, s.networkHeight)
    ensures !PlanFits(s) && forall n: nat :: !CaughtUpAfter(hash, s, chain, n)
  {
    FullDoesNotFit(s);
    SyncCompletesIffPlanFits(hash, s, chain);
  }

  lemma FullDoesNotFit(s: State)
    requires Inv(s) && |s.buffer| == MAX_BUFFER_SIZE && NeedsSync(s.ourHeight, s.networkHeight)
    ensures !PlanFits(s)
  {
    AboveAll(s.buffer, s.ourHeight);
    var plan := Plan(s.ourHeight, s.target, s.networkHeight);
    assert plan[0] in plan && !Fits(s.buffer, plan[0]);
  }

  // ------------------------------------------------------------------- class

  class SyncProtocol {
    const hash: HashOf
    var mode: Mode
    var ourHeight: nat
    var networkHeight: nat
    var target: nat
    var buffer: seq<Block>

    function Snapshot(): State
      reads this
    {
      State(mode, ourHeight, networkHeight, target, buffer)
    }

    constructor (hash: HashOf, height: nat)
      ensures this.hash == hash && Snapshot() == Fresh(height)
    {
      this.hash := hash;
      mode, ourHeight, networkHeight, target, buffer := Idle, height, 0, 0, [];
    }

    method CreateSyncRequest() returns (request: Option<Request>)
      modifies this
      ensures (Snapshot(), request) == CreateRequest(old(Snapshot()))
    {
      if !NeedsSync(ourHeight, networkHeight) {
        mode := Synced;
        return None;
      }
      if target <= ourHeight {
        target := networkHeight;
      }
      var fromHeight := ourHeight + 1;
      var toHeight := Min(fromHeight + SYNC_BATCH_SIZE - 1, target);
      mode := Requesting;
      return Some(Request(fromHeight, toHeight));
    }

    method ProcessSyncResponse(blocks: seq<Block>) returns (r: Response)
      modifies this
      ensures (Snapshot(), r) == ProcessResponse(hash, old(Snapshot()), blocks)
    {
      if blocks == [] {
        mode := if ourHeight >= target then Synced else Idle;
        return Blocks([]);
      }
      if blocks[0].height != ourHeight + 1 {
        return UnexpectedHeight;
      }
      var i := 0;
      while i + 1 < |blocks|
        invariant 0 <= i < |blocks|
        invariant forall j :: 0 <= j < i ==> blocks[j + 1].height == blocks[j].height + 1
      {
        if blocks[i + 1].height != blocks[i].height + 1 {
          return NonContiguous;
        }
        i := i + 1;
      }
      i := 0;
      while i + 1 < |blocks|
        invariant 0 <= i < |blocks|
        invariant forall j :: 0 <= j < i ==> blocks[j + 1].parent == hash(blocks[j])
      {
        if blocks[i + 1].parent != hash(blocks[i]) {
          return InvalidBlock;
        }
        i := i + 1;
      }
      if |buffer| + |blocks| > MAX_BUFFER_SIZE {
        return BufferFull;
      }
      buffer := buffer + blocks;
      mode := Downloading(target, blocks[|blocks| - 1].height);
      return Blocks(blocks);
    }

    method OnBlock(height: nat)
      modifies this
      ensures Snapshot() == OnBlockReceived(old(Snapshot()), height)
    {
      if height > networkHeight {
        networkHeight := height;
      }
      if mode.Idle? || mode.Synced? {
        if NeedsSync(ourHeight, networkHeight) {
          mode := Idle;
        }
      }
    }

    method MarkBlocksApplied(newHeight: nat)
      modifies this
      ensures Snapshot() == MarkApplied(old(Snapshot()), newHeight)
    {
      ourHeight := newHeight;
      buffer := Above(buffer, newHeight);
      if ourHeight >= target {
        if NeedsSync(ourHeight, networkHeight) {
          target := networkHeight;
          mode := Idle;
        } else {
          mode := Synced;
        }
      } else {
        mode := Downloading(target, ourHeight);
      }
    }
  }
}
