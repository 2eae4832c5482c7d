/**
 The batch processor: which blocks it believes to be final, which heads it may still have to give up,
 and how batches and forks move them.  The database is an unknown partner that hands the blocks of a
 batch to the data handler in consecutive slices of its own choosing.
 */
module BatchProcessor {
  import opened Wrappers

  datatype BlockRef = BlockRef(number: nat, hash: string)

  datatype BlockBatch = BlockBatch(blocks: seq<BlockRef>, finalizedHead: Option<BlockRef>)

  datatype HashAndHeight = HashAndHeight(height: int, hash: string)

  datatype HotTxInfo = HotTxInfo(finalizedHead: HashAndHeight, baseHead: HashAndHeight, newBlocks: seq<HashAndHeight>)

  datatype Slice = Slice(start: nat, end: nat)

  datatype Error = NotContinuous | UnfinalizedBlocks | ForkNotProcessed | ForkOfFinalBlocks

  datatype Outcome = Ok | Failed(error: Error)

  function ToHashAndHeight(ref: Option<BlockRef>): HashAndHeight {
    match ref
    case None => HashAndHeight(-1, "0x")
    case Some(r) => HashAndHeight(r.number, r.hash)
  }

  function MaxBlockRef(a: Option<BlockRef>, b: Option<BlockRef>): Option<BlockRef> {
    if a == None then b
    else if b == None then a
    else if a.value.number >= b.value.number then a else b
  }

  ghost predicate Ascending(chain: seq<BlockRef>) {
    forall i, j :: 0 <= i < j < |chain| ==> chain[i].number < chain[j].number
  }

  // ---------- Common history of two chains ----------

  /** Block `i` of the chain is also in the fork. */
  ghost predicate Common(chain: seq<BlockRef>, fork: seq<BlockRef>, i: nat)
    requires i < |chain|
  {
    chain[i] in fork
  }

  ghost predicate AgreeUpTo(chain: seq<BlockRef>, fork: seq<BlockRef>, h: int) {
    forall a, b :: a in chain && b in fork && a.number == b.number && a.number <= h ==> a.hash == b.hash
  }

  /** `r` is the highest common block below the first disagreement, -1 if there is none. */
  ghost predicate IsRollbackIndex(chain: seq<BlockRef>, fork: seq<BlockRef>, r: int) {
    && -1 <= r < |chain|
    && (r >= 0 ==> Common(chain, fork, r) && AgreeUpTo(chain, fork, chain[r].number))
    && (forall i :: r < i < |chain| && Common(chain, fork, i) ==> !AgreeUpTo(chain, fork, chain[i].number))
  }

  /**
   The state of the walk: what has been passed on either side lies below everything still ahead on the
   other, equal heights passed so far agreed, and `r` is the latest of them.
   */
  ghost predicate Walked(chain: seq<BlockRef>, fork: seq<BlockRef>, c: nat, f: nat, r: int) {
    && c <= |chain| && f <= |fork| && -1 <= r < c
    && (forall i, j :: 0 <= i < c && f <= j < |fork| ==> chain[i].number < fork[j].number)
    && (forall i, j :: c <= i < |chain| && 0 <= j < f ==> fork[j].number < chain[i].number)
    && (forall i, j :: 0 <= i < c && 0 <= j < f && chain[i].number == fork[j].number ==> chain[i].hash == fork[j].hash && i <= r)
  }

  lemma WalkChain(chain: seq<BlockRef>, fork: seq<BlockRef>, c: nat, f: nat, r: int)
    requires Ascending(fork) && Walked(chain, fork, c, f, r)
    requires c < |chain| && f < |fork| && chain[c].number < fork[f].number
    ensures Walked(chain, fork, c + 1, f, r)
  {
  }

  lemma WalkFork(chain: seq<BlockRef>, fork: seq<BlockRef>, c: nat, f: nat, r: int)
    requires Ascending(chain) && Walked(chain, fork, c, f, r)
    requires c < |chain| && f < |fork| && chain[c].number > fork[f].number
    ensures Walked(chain, fork, c, f + 1, r)
  {
  }

  lemma WalkBoth(chain: seq<BlockRef>, fork: seq<BlockRef>, c: nat, f: nat, r: int)
    requires Ascending(chain) && Ascending(fork) && Walked(chain, fork, c, f, r)
    requires c < |chain| && f < |fork| && chain[c] == fork[f]
    ensures Walked(chain, fork, c + 1, f + 1, c)
  {
  }

  lemma WalkEnds(chain: seq<BlockRef>, fork: seq<BlockRef>, c: nat, f: nat, r: int)
    requires Ascending(chain) && Walked(chain, fork, c, f, r) && (r >= 0 ==> chain[r] in fork)
    requires c == |chain| || f == |fork| || (chain[c].number == fork[f].number && chain[c].hash != fork[f].hash)
    ensures IsRollbackIndex(chain, fork, r)
  {
    if r >= 0 {
      forall a, b | a in chain && b in fork && a.number == b.number && a.number <= chain[r].number ensures a.hash == b.hash {
        var i :| 0 <= i < |chain| && chain[i] == a;
        var j :| 0 <= j < |fork| && fork[j] == b;
        assert i < c && j < f;
      }
    }
    forall i | r < i < |chain| && Common(chain, fork, i) ensures !AgreeUpTo(chain, fork, chain[i].number) {
      var j :| 0 <= j < |fork| && fork[j] == chain[i];
      assert i >= c && j >= f;
      assert chain[c] in chain && fork[f] in fork;
    }
  }

  method FindRollbackIndex(chain: seq<BlockRef>, fork: seq<BlockRef>) returns (r: int)
    ensures -1 <= r < |chain| && (r >= 0 ==> Common(chain, fork, r))
    ensures Ascending(chain) && Ascending(fork) ==> IsRollbackIndex(chain, fork, r)
  {
    ghost var sorted := Ascending(chain) && Ascending(fork);
    var currentIndex, forkIndex := 0, 0;
    r := -1;
    assert Walked(chain, fork, 0, 0, -1);
    hide Walked, Ascending, IsRollbackIndex;
    while currentIndex < |chain| && forkIndex < |fork|
      invariant 0 <= currentIndex <= |chain| && 0 <= forkIndex <= |fork| && -1 <= r < currentIndex
      invariant r >= 0 ==> Common(chain, fork, r)
      invariant sorted ==> Walked(chain, fork, currentIndex, forkIndex, r)
      decreases |chain| - currentIndex + |fork| - forkIndex
    {
      var currentBlock, forkBlock := chain[currentIndex], fork[forkIndex];
      if currentBlock.number > forkBlock.number {
        if sorted { WalkFork(chain, fork, currentIndex, forkIndex, r); }
        forkIndex := forkIndex + 1;
        continue;
      }
      if currentBlock.number < forkBlock.number {
        if sorted { WalkChain(chain, fork, currentIndex, forkIndex, r); }
        currentIndex := currentIndex + 1;
        continue;
      }
      if currentBlock.hash != forkBlock.hash {
        if sorted { WalkEnds(chain, fork, currentIndex, forkIndex, r); }
        return r;
      }
      if sorted { WalkBoth(chain, fork, currentIndex, forkIndex, r); }
      r := currentIndex;
      assert forkBlock in fork;
      currentIndex := currentIndex + 1;
      forkIndex := forkIndex + 1;
    }
    if sorted { WalkEnds(chain, fork, currentIndex, forkIndex, r); }
  }

  lemma PrefixAscends(chain: seq<BlockRef>, k: nat)
    requires Ascending(chain) && k <= |chain|
    ensures Ascending(chain[..k])
  {
  }

  /** A fork that contradicts the head takes the head to a lower block, or to none. */
  lemma ForkLowersHead(chain: seq<BlockRef>, fork: seq<BlockRef>, r: int)
    requires Ascending(chain) && IsRollbackIndex(chain, fork, r)
    requires chain != [] && exists b :: b in fork && Contradicts(b, Last(chain))
    ensures r < |chain| - 1 && (r >= 0 ==> chain[r].number < chain[|chain| - 1].number)
  {
    var b :| b in fork && Contradicts(b, Last(chain));
    assert chain[|chain| - 1] in chain;
  }

  // ---------- Processor state ----------

  /** Unfinalized heads ascend, above the finalized one. */
  ghost predicate ValidHeads(finalizedHead: Option<BlockRef>, unfinalizedHeads: seq<BlockRef>) {
    Ascending(Chain(finalizedHead, unfinalizedHeads))
  }

  function Chain(finalizedHead: Option<BlockRef>, unfinalizedHeads: seq<BlockRef>): seq<BlockRef> {
    if finalizedHead == None then unfinalizedHeads else [finalizedHead.value] + unfinalizedHeads
  }

  function Last(chain: seq<BlockRef>): Option<BlockRef> {
    if chain == [] then None else Some(chain[|chain| - 1])
  }

  /** The finalized height, -1 for none. */
  function FinalHeight(finalizedHead: Option<BlockRef>): int {
    if finalizedHead == None then -1 else finalizedHead.value.number
  }

  /** The first position of a block above `height`, or the end. */
  method FirstAbove(chain: seq<BlockRef>, height: int) returns (k: nat)
    ensures k <= |chain|
    ensures forall i :: 0 <= i < k ==> chain[i].number <= height
    ensures k < |chain| ==> chain[k].number > height
  {
    k := 0;
    while k < |chain| && chain[k].number <= height
      invariant k <= |chain|
      invariant forall i :: 0 <= i < k ==> chain[i].number <= height
    {
      k := k + 1;
    }
  }

  /** The heads between two events. */
  datatype Snapshot = Snapshot(finalizedHead: Option<BlockRef>, unfinalizedHeads: seq<BlockRef>) {
    function Blocks(): seq<BlockRef> {
      Chain(finalizedHead, unfinalizedHeads)
    }
  }

  /** The fork goes back to the first `k + 1` blocks of the chain. */
  ghost predicate RollsBack(chain: seq<BlockRef>, previousBlocks: seq<BlockRef>, k: int) {
    && -1 <= k < |chain| && (k >= 0 ==> chain[k] in previousBlocks)
    && (Ascending(previousBlocks) ==> IsRollbackIndex(chain, previousBlocks, k))
  }

  class ProcessorState {
    var finalizedHead: Option<BlockRef>
    var unfinalizedHeads: seq<BlockRef>

    constructor ()
      ensures finalizedHead == None && unfinalizedHeads == []
    {
      finalizedHead, unfinalizedHeads := None, [];
    }

    ghost predicate Valid()
      reads this
    {
      ValidHeads(finalizedHead, unfinalizedHeads)
    }

    ghost function Now(): Snapshot
      reads this
    {
      Snapshot(finalizedHead, unfinalizedHeads)
    }

    function Head(): (head: Option<BlockRef>)
      reads this
      ensures head == Last(Chain(finalizedHead, unfinalizedHeads))
    {
      if unfinalizedHeads != [] then Last(unfinalizedHeads) else finalizedHead
    }

    method Init(finalizedHead: Option<BlockRef>, unfinalizedHeads: seq<BlockRef>)
      requires ValidHeads(finalizedHead, unfinalizedHeads)
      modifies this
      ensures Valid() && this.finalizedHead == finalizedHead && this.unfinalizedHeads == unfinalizedHeads
    {
      this.finalizedHead, this.unfinalizedHeads := finalizedHead, unfinalizedHeads;
    }

    /** Falls back to the common part of the own chain and the one reported by the fork, its first `k + 1` blocks. */
    method HandleFork(previousBlocks: seq<BlockRef>) returns (r: Outcome, k: int)
      requires Valid()
      modifies this
      ensures Valid() && finalizedHead == old(finalizedHead) && unfinalizedHeads <= old(unfinalizedHeads)
      ensures var chain := old(Chain(finalizedHead, unfinalizedHeads));
              && RollsBack(chain, previousBlocks, k)
              && (r.Ok? ==> Chain(finalizedHead, unfinalizedHeads) == chain[..k + 1])
      ensures r.Failed? <==> k == -1 && finalizedHead != None
      ensures r.Failed? ==> unfinalizedHeads == old(unfinalizedHeads)
    {
      hide Ascending, IsRollbackIndex;
      var chain := Chain(finalizedHead, unfinalizedHeads);
      k := FindRollbackIndex(chain, previousBlocks);
      if k == -1 {
        if finalizedHead != None { return Failed(ForkNotProcessed), k; }
        unfinalizedHeads := [];
      } else {
        unfinalizedHeads := chain[if finalizedHead != None then 1 else 0..k + 1];
      }
      assert Chain(finalizedHead, unfinalizedHeads) == chain[..k + 1];
      PrefixAscends(chain, k + 1);
      return Ok, k;
    }
  }

  /** `b` is another block at the height of `head`. */
  predicate Contradicts(b: BlockRef, head: Option<BlockRef>) {
    head != None && b.number == head.value.number && b.hash != head.value.hash
  }

  // ---------- Batches ----------

  /** The slices take `blocks[..n]` apart, in order and without gaps; some may be empty. */
  ghost predicate Covers(slices: seq<Slice>, n: nat) {
    if slices == [] then n == 0
    else
      var last := slices[|slices| - 1];
      last.start <= last.end == n && Covers(slices[..|slices| - 1], last.start)
  }

  lemma {:induction false} SliceWithin(slices: seq<Slice>, n: nat, k: nat)
    requires Covers(slices, n) && k < |slices|
    ensures slices[k].start <= slices[k].end <= n && Covers(slices[..k], slices[k].start)
  {
    if k < |slices| - 1 {
      var shorter := slices[..|slices| - 1];
      SliceWithin(shorter, slices[|slices| - 1].start, k);
      assert shorter[..k] == slices[..k];
    }
  }

  /** The last blocks of the nonempty slices that reach above block `from`. */
  ghost function SliceHeads(blocks: seq<BlockRef>, from: nat, slices: seq<Slice>): (heads: seq<BlockRef>)
    requires Covers(slices, |blocks|)
    decreases |slices|
  {
    if slices == [] then []
    else
      var last := slices[|slices| - 1];
      var before := SliceHeads(blocks[..last.start], from, slices[..|slices| - 1]);
      if last.start < last.end && last.end > from then before + [blocks[last.end - 1]] else before
  }

  /** Slice heads are blocks from `from` on, in order; if there is any such block the last one is a head. */
  lemma {:induction false} SliceHeadsAscend(blocks: seq<BlockRef>, from: nat, slices: seq<Slice>)
    requires Covers(slices, |blocks|) && Ascending(blocks)
    ensures var heads := SliceHeads(blocks, from, slices);
            && Ascending(heads)
            && (forall h <- heads :: exists i :: from <= i < |blocks| && blocks[i] == h)
            && (heads != [] <==> from < |blocks|)
            && (from < |blocks| ==> heads[|heads| - 1] == blocks[|blocks| - 1])
    decreases |slices|
  {
    if slices != [] {
      var last := slices[|slices| - 1];
      var sooner := blocks[..last.start];
      SliceHeadsAscend(sooner, from, slices[..|slices| - 1]);
      var before, heads := SliceHeads(sooner, from, slices[..|slices| - 1]), SliceHeads(blocks, from, slices);
      forall h <- heads ensures exists i :: from <= i < |blocks| && blocks[i] == h {
        if h in before {
          var i :| from <= i < |sooner| && sooner[i] == h;
          assert blocks[i] == h;
        } else {
          assert blocks[last.end - 1] == h;
        }
      }
      forall i, j | 0 <= i < j < |heads| ensures heads[i].number < heads[j].number {
        if j == |before| {
          assert before[i] in before;
        }
      }
    }
  }

  /** The part of a chain above `height`. */
  function Above(chain: seq<BlockRef>, height: int): (r: seq<BlockRef>) {
    if chain == [] then []
    else if chain[0].number > height then chain
    else Above(chain[1..], height)
  }

  lemma {:induction false} AboveFrom(chain: seq<BlockRef>, height: int, k: nat)
    requires k <= |chain| && (forall i :: 0 <= i < k ==> chain[i].number <= height)
    requires k < |chain| ==> chain[k].number > height
    ensures Above(chain, height) == chain[k..]
  {
    if k > 0 {
      AboveFrom(chain[1..], height, k - 1);
      assert chain[1..][k - 1..] == chain[k..];
    }
  }

  datatype BatchStart =
    | Skip
    | Broken(error: Error)
    | Final(nextHead: BlockRef)
    | Hot(info: HotTxInfo, finalizedHead: Option<BlockRef>, unfinalizedIndex: nat)

  /** Where the batch leaves the finalized head: the highest block known to be final that is worth keeping. */
  function FinalizedBy(blocks: seq<BlockRef>, final: Option<BlockRef>, unfinalizedIndex: nat): Option<BlockRef>
    requires unfinalizedIndex <= |blocks|
  {
    if blocks == [] || unfinalizedIndex == 0 then final
    else Some(blocks[unfinalizedIndex - 1])
  }

  /** `k` is the number of leading blocks at or below the final height; none if nothing is final. */
  ghost predicate SplitsAt(blocks: seq<BlockRef>, final: Option<BlockRef>, k: nat) {
    && k <= |blocks|
    && (final == None ==> k == 0)
    && (final != None ==>
          (forall i :: 0 <= i < k ==> blocks[i].number <= final.value.number)
          && (k < |blocks| ==> blocks[k].number > final.value.number))
  }

  ghost predicate Continues(prevHead: Option<BlockRef>, blocks: seq<BlockRef>) {
    Ascending(blocks) && (prevHead != None && blocks != [] ==> prevHead.value.number < blocks[0].number)
  }

  /** The batch does not continue the head, or has blocks that may still change for a database that only takes final ones. */
  ghost predicate RefusesBatch(hot: bool, s: Snapshot, data: BlockBatch) {
    || !Continues(Last(s.Blocks()), data.blocks)
    || (!hot && exists b <- data.blocks :: b.number > FinalHeight(MaxBlockRef(s.finalizedHead, data.finalizedHead)))
  }

  /** A hot database has taken a batch in slices, the blocks up to `k` being final. */
  ghost predicate TakesHot(s: Snapshot, data: BlockBatch, slices: seq<Slice>, k: nat, t: Snapshot)
    requires Covers(slices, |data.blocks|)
  {
    && SplitsAt(data.blocks, MaxBlockRef(s.finalizedHead, data.finalizedHead), k)
    && t.finalizedHead == FinalizedBy(data.blocks, MaxBlockRef(s.finalizedHead, data.finalizedHead), k)
    && t.unfinalizedHeads == KeptHeads(s.unfinalizedHeads, t.finalizedHead) + SliceHeads(data.blocks, k, slices)
  }

  /** What a batch that is not refused does to the heads. */
  ghost predicate TakesBatch(hot: bool, s: Snapshot, data: BlockBatch, slices: seq<Slice>, t: Snapshot)
    requires Covers(slices, |data.blocks|)
  {
    if data.blocks == [] && (data.finalizedHead == None || !hot) then t == s
    else if hot then exists k: nat :: TakesHot(s, data, slices, k, t)
    else t == Snapshot(Last(data.blocks), [])
  }

  /** No block of the chain is known to the fork, although one is final; or no fork is expected at all. */
  ghost predicate RefusesFork(hot: bool, s: Snapshot, previousBlocks: seq<BlockRef>) {
    !hot || (s.finalizedHead != None && RollsBack(s.Blocks(), previousBlocks, -1))
  }

  ghost predicate FallsBack(s: Snapshot, previousBlocks: seq<BlockRef>, t: Snapshot) {
    && t.finalizedHead == s.finalizedHead
    && exists k :: RollsBack(s.Blocks(), previousBlocks, k) && t.Blocks() == s.Blocks()[..k + 1]
  }

  ghost predicate Takes(hot: bool, s: Snapshot, e: Event, t: Snapshot) {
    match e
    case Batch(data, slices) => Covers(slices, |data.blocks|) && TakesBatch(hot, s, data, slices, t)
    case Fork(previousBlocks) => hot && FallsBack(s, previousBlocks, t)
  }

  ghost predicate Refuses(hot: bool, s: Snapshot, e: Event) {
    match e
    case Batch(data, _) => RefusesBatch(hot, s, data)
    case Fork(previousBlocks) => RefusesFork(hot, s, previousBlocks)
  }

  /** The heads before and after each event: they ascend, and finality only moves up. */
  ghost predicate IsRun(hot: bool, events: seq<Event>, trace: seq<Snapshot>) {
    && 0 < |trace| <= |events| + 1
    && (forall i :: 0 <= i < |trace| ==> ValidHeads(trace[i].finalizedHead, trace[i].unfinalizedHeads))
    && (forall i, j :: 0 <= i < j < |trace| ==> FinalHeight(trace[i].finalizedHead) <= FinalHeight(trace[j].finalizedHead))
    && forall i, j {:trigger trace[i], trace[j]} :: 0 <= i && j == i + 1 && j < |trace| ==> Takes(hot, trace[i], events[i], trace[j])
  }

  lemma RunMore(hot: bool, events: seq<Event>, trace: seq<Snapshot>, t: Snapshot)
    requires IsRun(hot, events, trace) && |trace| <= |events|
    requires ValidHeads(t.finalizedHead, t.unfinalizedHeads)
    requires var s := trace[|trace| - 1];
             Takes(hot, s, events[|trace| - 1], t) && FinalHeight(s.finalizedHead) <= FinalHeight(t.finalizedHead)
    ensures IsRun(hot, events, trace + [t])
  {
    hide Takes, ValidHeads, FinalHeight;
    var more := trace + [t];
    forall i, j | 0 <= i < j < |more|
      ensures FinalHeight(more[i].finalizedHead) <= FinalHeight(more[j].finalizedHead)
    {
      if j == |trace| { assert more[i] == trace[i]; assert i < |trace| - 1 ==> FinalHeight(trace[i].finalizedHead) <= FinalHeight(trace[|trace| - 1].finalizedHead); }
    }
  }

  /** The slices `before` have been handed out: the first `done` blocks. */
  ghost predicate Delivered(blocks: seq<BlockRef>, from: nat, before: seq<Slice>, done: nat,
                            delivered: seq<seq<BlockRef>>, heads: seq<BlockRef>)
  {
    && done <= |blocks| && Covers(before, done)
    && heads == SliceHeads(blocks[..done], from, before)
    && Flatten(delivered) == blocks[..done] && forall part <- delivered :: part != []
  }

  lemma NoSlices(blocks: seq<BlockRef>, from: nat, slices: seq<Slice>)
    ensures Delivered(blocks, from, slices[..0], 0, [], [])
  {
  }

  lemma OneMoreDelivered(blocks: seq<BlockRef>, from: nat, slices: seq<Slice>, n: nat, done: nat,
                         delivered: seq<seq<BlockRef>>, heads: seq<BlockRef>)
    requires n < |slices| && slices[n].start <= slices[n].end <= |blocks| && Covers(slices[..n], slices[n].start)
    requires Delivered(blocks, from, slices[..n], done, delivered, heads)
    ensures var Slice(start, end) := slices[n];
            Delivered(blocks, from, slices[..n + 1], end,
                      if start < end then delivered + [blocks[start..end]] else delivered,
                      if start < end && end > from then heads + [blocks[end - 1]] else heads)
  {
    var Slice(start, end) := slices[n];
    CoversEnds(slices[..n], done, start);
    assert slices[..n + 1][..n] == slices[..n];
    assert blocks[..end][..start] == blocks[..start];
    assert blocks[..end] == blocks[..start] + blocks[start..end];
    FlattenMore(delivered, blocks[start..end]);
  }

  class Processor {
    const supportsHotBlocks: bool
    const state: ProcessorState

    constructor (supportsHotBlocks: bool)
      ensures this.supportsHotBlocks == supportsHotBlocks && fresh(state)
      ensures state.finalizedHead == None && state.unfinalizedHeads == []
    {
      this.supportsHotBlocks := supportsHotBlocks;
      state := new ProcessorState();
    }

    static method AssertBlocksContinuity(prevHead: Option<BlockRef>, blocks: seq<BlockRef>) returns (ok: bool)
      ensures ok <==> Continues(prevHead, blocks)
    {
      var prev := prevHead;
      for i := 0 to |blocks|
        invariant Continues(prevHead, blocks[..i])
        invariant prev == if i == 0 then prevHead else Some(blocks[i - 1])
      {
        if prev != None && prev.value.number >= blocks[i].number {
          assert !Continues(prevHead, blocks) by {
            if i > 0 {
              assert blocks[i - 1].number >= blocks[i].number;
            }
          }
          return false;
        }
        prev := Some(blocks[i]);
        assert blocks[..i + 1] == blocks[..i] + [blocks[i]];
      }
      assert blocks[..|blocks|] == blocks;
      return true;
    }

    /** Everything a batch does before the database transaction. */
    method BeginBatch(data: BlockBatch) returns (r: BatchStart)
      requires state.Valid()
      ensures var final := MaxBlockRef(state.finalizedHead, data.finalizedHead);
              match r
              case Skip => data.blocks == [] && (data.finalizedHead == None || !supportsHotBlocks)
              case Broken(NotContinuous) => !Continues(state.Head(), data.blocks)
              case Broken(UnfinalizedBlocks) =>
                !supportsHotBlocks && exists b <- data.blocks :: final == None || b.number > final.value.number
              case Broken(_) => false
              case Final(nextHead) =>
                && !supportsHotBlocks && Continues(state.Head(), data.blocks) && Last(data.blocks) == Some(nextHead)
                && final != None && nextHead.number <= final.value.number
              case Hot(info, finalizedHead, k) =>
                && supportsHotBlocks && Continues(state.Head(), data.blocks) && data != BlockBatch([], None)
                && SplitsAt(data.blocks, final, k) && finalizedHead == FinalizedBy(data.blocks, final, k)
                && info == HotTxInfo(ToHashAndHeight(finalizedHead), ToHashAndHeight(state.Head()), Heights(data.blocks))
    {
      var blocks, final := data.blocks, data.finalizedHead;
      if blocks == [] && final == None { return Skip; }
      var prevHead := state.Head();
      if blocks == [] && !supportsHotBlocks { return Skip; }
      var ok := AssertBlocksContinuity(prevHead, blocks);
      if !ok { return Broken(NotContinuous); }
      if final != None && state.finalizedHead != None && final.value.number <= state.finalizedHead.value.number {
        final := state.finalizedHead;
      }
      final := MaxBlockRef(final, state.finalizedHead);
      assert final == MaxBlockRef(state.finalizedHead, data.finalizedHead);

      var unfinalizedIndex := 0;
      if final != None {
        unfinalizedIndex := FirstAbove(blocks, final.value.number);
      }
      if supportsHotBlocks {
        var finalizedHead := FinalizedBy(blocks, final, unfinalizedIndex);
        return Hot(HotTxInfo(ToHashAndHeight(finalizedHead), ToHashAndHeight(prevHead), Heights(blocks)),
                   finalizedHead, unfinalizedIndex);
      }
      if unfinalizedIndex != |blocks| {
        assert blocks[unfinalizedIndex] in blocks;
        return Broken(UnfinalizedBlocks);
      }
      assert Ascending(blocks);
      return Final(blocks[|blocks| - 1]);
    }

    /** The calls of the data handler during a transaction, and the heads they leave unfinalized. */
    static method DeliverSlices(blocks: seq<BlockRef>, unfinalizedIndex: nat, slices: seq<Slice>)
        returns (delivered: seq<seq<BlockRef>>, unfinalizedSliceHeads: seq<BlockRef>)
      requires Covers(slices, |blocks|)
      ensures unfinalizedSliceHeads == SliceHeads(blocks, unfinalizedIndex, slices)
      ensures Flatten(delivered) == blocks && forall part <- delivered :: part != []
    {
      hide Covers, SliceHeads, Flatten;
      unfinalizedSliceHeads, delivered := [], [];
      NoSlices(blocks, unfinalizedIndex, slices);
      ghost var done := 0;
      for n := 0 to |slices|
        invariant Delivered(blocks, unfinalizedIndex, slices[..n], done, delivered, unfinalizedSliceHeads)
      {
        var Slice(start, end) := slices[n];
        SliceWithin(slices, |blocks|, n);
        OneMoreDelivered(blocks, unfinalizedIndex, slices, n, done, delivered, unfinalizedSliceHeads);
        if start < end {
          delivered := delivered + [blocks[start..end]];
          if end > unfinalizedIndex {
            unfinalizedSliceHeads := unfinalizedSliceHeads + [blocks[end - 1]];
          }
        }
        done := end;
      }
      assert slices[..|slices|] == slices;
      CoversEnds(slices, |blocks|, done);
      assert blocks[..|blocks|] == blocks;
    }

    /** The state change after a transaction of a hot database that handed out `slices`. */
    method EndHotBatch(blocks: seq<BlockRef>, finalizedHead: Option<BlockRef>, unfinalizedIndex: nat, slices: seq<Slice>,
                       ghost known: Option<BlockRef>)
        returns (delivered: seq<seq<BlockRef>>)
      requires state.Valid() && Continues(state.Head(), blocks) && Covers(slices, |blocks|)
      requires FinalHeight(state.finalizedHead) <= FinalHeight(known)
      requires SplitsAt(blocks, known, unfinalizedIndex) && finalizedHead == FinalizedBy(blocks, known, unfinalizedIndex)
      modifies state
      ensures state.finalizedHead == finalizedHead
      ensures state.unfinalizedHeads == KeptHeads(old(state.unfinalizedHeads), finalizedHead)
                                        + SliceHeads(blocks, unfinalizedIndex, slices)
      ensures state.Valid()
      ensures blocks != [] ==> state.Head() == Last(blocks)
      // every block is handed to the data handler exactly once, in order
      ensures Flatten(delivered) == blocks && forall part <- delivered :: part != []
    {
      hide ValidHeads, SliceHeads, Continues, Ascending, SplitsAt, Covers, Above;
      var unfinalizedSliceHeads;
      delivered, unfinalizedSliceHeads := DeliverSlices(blocks, unfinalizedIndex, slices);
      NewHeadsValid(state.finalizedHead, state.unfinalizedHeads, blocks, known, unfinalizedIndex, slices);
      if blocks != [] {
        NewHead(state.finalizedHead, state.unfinalizedHeads, blocks, known, unfinalizedIndex, slices);
      }
      FinalizedBounds(state.finalizedHead, state.unfinalizedHeads, blocks, known, unfinalizedIndex);

      var newFinalizedHead := if finalizedHead != None then finalizedHead else state.finalizedHead;
      assert newFinalizedHead == finalizedHead;
      hide KeptHeads, Chain, Last, FinalizedBy, Flatten;
      var unfinalizedHeads := DropFinalized(state.unfinalizedHeads, newFinalizedHead);
      state.finalizedHead := newFinalizedHead;
      state.unfinalizedHeads := unfinalizedHeads + unfinalizedSliceHeads;
    }

    static method DropFinalized(heads: seq<BlockRef>, finalizedHead: Option<BlockRef>) returns (kept: seq<BlockRef>)
      ensures kept == KeptHeads(heads, finalizedHead)
    {
      kept := heads;
      if finalizedHead != None {
        var n := FirstAbove(heads, finalizedHead.value.number);
        AboveFrom(heads, finalizedHead.value.number, n);
        kept := heads[n..];
      }
    }

    /** The state change after a transaction of a database that only takes final blocks. */
    method EndFinalBatch(blocks: seq<BlockRef>)
      requires state.Valid() && Continues(state.Head(), blocks) && blocks != []
      modifies state
      ensures state.Valid() && state.finalizedHead == Last(blocks) && state.unfinalizedHeads == []
      ensures FinalHeight(state.finalizedHead) >= FinalHeight(old(state.finalizedHead))
    {
      HeadsBelowBlocks(state.finalizedHead, state.unfinalizedHeads, blocks);
      assert blocks[|blocks| - 1] in blocks;
      state.finalizedHead, state.unfinalizedHeads := Last(blocks), [];
    }

    /** One batch, with a database that takes it in the given slices. */
    method ProcessBatch(data: BlockBatch, slices: seq<Slice>) returns (r: Outcome)
      requires state.Valid() && Covers(slices, |data.blocks|)
      modifies state
      ensures state.Valid() && FinalHeight(state.finalizedHead) >= FinalHeight(old(state.finalizedHead))
      ensures r.Failed? <==> RefusesBatch(supportsHotBlocks, old(state.Now()), data)
      ensures r.Failed? ==> unchanged(state)
      ensures r.Ok? ==> TakesBatch(supportsHotBlocks, old(state.Now()), data, slices, state.Now())
      ensures r.Ok? && data.blocks != [] ==> state.Head() == Last(data.blocks)
      ensures r.Ok? && data.blocks == [] ==>
                && (state.Head() == old(state.Head()) || state.Head() == data.finalizedHead)
                && (old(state.Head()) != None ==> state.Head() != None && state.Head().value.number >= old(state.Head()).value.number)
    {
      var start := BeginBatch(data);
      match start
      case Skip => r := Ok;
      case Broken(error) => r := Failed(error);
      case Final(_) =>
        EndFinalBatch(data.blocks);
        r := Ok;
      case Hot(_, finalizedHead, k) =>
        HotBatch(data, finalizedHead, k, slices);
        r := Ok;
    }

    method HotBatch(data: BlockBatch, finalizedHead: Option<BlockRef>, k: nat, slices: seq<Slice>)
      requires state.Valid() && Covers(slices, |data.blocks|) && Continues(state.Head(), data.blocks)
      requires var known := MaxBlockRef(state.finalizedHead, data.finalizedHead);
               && (data.blocks != [] || known != None)
               && SplitsAt(data.blocks, known, k) && finalizedHead == FinalizedBy(data.blocks, known, k)
      modifies state
      ensures state.Valid() && FinalHeight(state.finalizedHead) >= FinalHeight(old(state.finalizedHead))
      ensures TakesHot(old(state.Now()), data, slices, k, state.Now())
      ensures data.blocks != [] ==> state.Head() == Last(data.blocks)
      ensures data.blocks == [] ==>
                && (state.Head() == old(state.Head()) || state.Head() == data.finalizedHead)
                && (old(state.Head()) != None ==> state.Head() != None && state.Head().value.number >= old(state.Head()).value.number)
    {
      hide ValidHeads, SliceHeads, KeptHeads, SplitsAt, Ascending, Continues, Last, Chain, Covers, MaxBlockRef;
      ghost var known := MaxBlockRef(state.finalizedHead, data.finalizedHead);
      MaxIsHigher(state.finalizedHead, data.finalizedHead);
      FinalizedBounds(state.finalizedHead, state.unfinalizedHeads, data.blocks, known, k);
      if data.blocks == [] {
        EmptyBatchHead(state.finalizedHead, state.unfinalizedHeads, data.finalizedHead);
        if state.Head() != None {
          EmptyBatchRises(state.finalizedHead, state.unfinalizedHeads, data.finalizedHead);
        }
        NoSliceHeads(k, slices);
        assert KeptHeads(state.unfinalizedHeads, known) + [] == KeptHeads(state.unfinalizedHeads, known);
      }
      var _ := EndHotBatch(data.blocks, finalizedHead, k, slices, known);
    }

    /** Any run of batches and forks; the first event that is refused ends it. */
    method Run(events: seq<Event>) returns (r: Outcome, ghost trace: seq<Snapshot>)
      requires state.Valid()
      requires forall e <- events :: e.Batch? ==> Covers(e.slices, |e.data.blocks|)
      modifies state
      ensures IsRun(supportsHotBlocks, events, trace)
      ensures trace[0] == old(state.Now()) && trace[|trace| - 1] == state.Now()
      ensures r.Ok? <==> |trace| == |events| + 1
      ensures r.Failed? ==> Refuses(supportsHotBlocks, state.Now(), events[|trace| - 1])
    {
      hide ValidHeads, RefusesBatch, TakesBatch, IsRollbackIndex, Ascending, Chain, Last;
      r, trace := Ok, [state.Now()];
      for i := 0 to |events|
        invariant r.Ok? && |trace| == i + 1 && IsRun(supportsHotBlocks, events, trace)
        invariant trace[0] == old(state.Now()) && trace[i] == state.Now()
      {
        match events[i] {
          case Batch(data, slices) =>
            assert events[i] in events;
            r := ProcessBatch(data, slices);
          case Fork(previousBlocks) =>
            if !supportsHotBlocks { return Failed(ForkOfFinalBlocks), trace; }
            var k;
            r, k := state.HandleFork(previousBlocks);
            assert r.Ok? ==> state.Now().Blocks() == trace[i].Blocks()[..k + 1];
        }
        if r.Failed? { return; }
        RunMore(supportsHotBlocks, events, trace, state.Now());
        trace := trace + [state.Now()];
      }
    }
  }

  /** What the data source delivers: a batch, with the slices the database takes it in, or news of a fork. */
  datatype Event =
    | Batch(data: BlockBatch, slices: seq<Slice>)
    | Fork(previousBlocks: seq<BlockRef>)

  function Heights(blocks: seq<BlockRef>): seq<HashAndHeight> {
    seq(|blocks|, i requires 0 <= i < |blocks| => ToHashAndHeight(Some(blocks[i])))
  }

  function Flatten<T>(parts: seq<seq<T>>): seq<T> {
    if parts == [] then [] else parts[0] + Flatten(parts[1..])
  }

  lemma {:induction false} FlattenMore<T>(parts: seq<seq<T>>, last: seq<T>)
    ensures Flatten(parts + [last]) == Flatten(parts) + last
  {
    if parts != [] {
      FlattenMore(parts[1..], last);
      assert (parts + [last])[1..] == parts[1..] + [last];
    }
  }

  lemma CoversEnds(slices: seq<Slice>, m: nat, n: nat)
    requires Covers(slices, m) && Covers(slices, n)
    ensures m == n
  {
  }

  /** The unfinalized heads that stay above the finalized one. */
  function KeptHeads(heads: seq<BlockRef>, finalizedHead: Option<BlockRef>): seq<BlockRef> {
    if finalizedHead == None then heads else Above(heads, finalizedHead.value.number)
  }

  lemma {:induction false} AboveIsHigher(chain: seq<BlockRef>, height: int)
    requires Ascending(chain)
    ensures var r := Above(chain, height);
            && |r| <= |chain| && r == chain[|chain| - |r|..]
            && (forall i :: 0 <= i < |r| ==> r[i].number > height)
            && (forall i :: 0 <= i < |chain| - |r| ==> chain[i].number <= height)
  {
    if chain != [] && chain[0].number <= height {
      AboveIsHigher(chain[1..], height);
    }
  }

  lemma AscendingConcat(a: seq<BlockRef>, b: seq<BlockRef>)
    requires Ascending(a) && Ascending(b)
    requires forall x, y :: x in a && y in b ==> x.number < y.number
    ensures Ascending(a + b)
  {
    forall i, j | 0 <= i < j < |a + b| ensures (a + b)[i].number < (a + b)[j].number {
      if i < |a| <= j {
        assert a[i] in a && b[j - |a|] in b;
      }
    }
  }

  /** The new finalized head is no lower than the old one, and no higher than what is known to be final. */
  lemma FinalizedBounds(final: Option<BlockRef>, heads: seq<BlockRef>, blocks: seq<BlockRef>, known: Option<BlockRef>, k: nat)
    requires ValidHeads(final, heads) && SplitsAt(blocks, known, k)
    requires Continues(Last(Chain(final, heads)), blocks) && FinalHeight(final) <= FinalHeight(known)
    ensures FinalHeight(final) <= FinalHeight(FinalizedBy(blocks, known, k)) <= FinalHeight(known)
  {
    HeadsBelowBlocks(final, heads, blocks);
    if blocks != [] && k > 0 {
      assert blocks[k - 1] in blocks;
    }
  }

  lemma HeadsAscend(final: Option<BlockRef>, heads: seq<BlockRef>)
    requires ValidHeads(final, heads)
    ensures Ascending(heads)
  {
    var chain := Chain(final, heads);
    var n := |chain| - |heads|;
    forall i, j | 0 <= i < j < |heads| ensures heads[i].number < heads[j].number {
      assert chain[n + i] == heads[i] && chain[n + j] == heads[j];
    }
  }

  lemma KeptHeadsAscend(final: Option<BlockRef>, heads: seq<BlockRef>, after: Option<BlockRef>)
    requires ValidHeads(final, heads) && (after == None ==> final == None)
    ensures var kept := KeptHeads(heads, after);
            Ascending(kept) && forall h <- kept :: h in heads && h.number > FinalHeight(after)
  {
    HeadsAscend(final, heads);
    AboveIsHigher(heads, FinalHeight(after));
  }

  lemma KeptHeadsEnd(final: Option<BlockRef>, heads: seq<BlockRef>, after: Option<BlockRef>)
    requires ValidHeads(final, heads) && (after == None ==> final == None)
    ensures var kept := KeptHeads(heads, after);
            && (kept == [] <==> forall h <- heads :: after != None && h.number <= after.value.number)
            && (kept != [] ==> Last(kept) == Last(heads))
  {
    HeadsAscend(final, heads);
    AboveIsHigher(heads, FinalHeight(after));
    var kept := KeptHeads(heads, after);
    hide Above, Ascending, ValidHeads;
    if kept == [] {
      forall h <- heads ensures after != None && h.number <= after.value.number {
      }
    } else {
      assert kept[0] in heads;
    }
  }

  lemma NewHeadsValid(final: Option<BlockRef>, heads: seq<BlockRef>, blocks: seq<BlockRef>,
                      known: Option<BlockRef>, k: nat, slices: seq<Slice>)
    requires ValidHeads(final, heads) && Covers(slices, |blocks|) && SplitsAt(blocks, known, k)
    requires Continues(Last(Chain(final, heads)), blocks) && FinalHeight(final) <= FinalHeight(known)
    ensures var after := FinalizedBy(blocks, known, k);
            ValidHeads(after, KeptHeads(heads, after) + SliceHeads(blocks, k, slices))
  {
    var after := FinalizedBy(blocks, known, k);
    var kept, more := KeptHeads(heads, after), SliceHeads(blocks, k, slices);
    FinalizedBounds(final, heads, blocks, known, k);
    KeptHeadsAscend(final, heads, after);
    SliceHeadsAscend(blocks, k, slices);
    HeadsBelowBlocks(final, heads, blocks);
    assert Ascending(blocks);
    hide Ascending, KeptHeads, SliceHeads, Continues, SplitsAt, Covers, ValidHeads;
    forall h <- more ensures h.number > FinalHeight(after) && h in blocks {
      AboveSplit(blocks, known, k, h);
    }
    ChainAscends(after, kept, more);
  }

  lemma NewHead(final: Option<BlockRef>, heads: seq<BlockRef>, blocks: seq<BlockRef>,
                known: Option<BlockRef>, k: nat, slices: seq<Slice>)
    requires ValidHeads(final, heads) && Covers(slices, |blocks|) && SplitsAt(blocks, known, k) && blocks != []
    requires Continues(Last(Chain(final, heads)), blocks) && FinalHeight(final) <= FinalHeight(known)
    ensures var after := FinalizedBy(blocks, known, k);
            Last(Chain(after, KeptHeads(heads, after) + SliceHeads(blocks, k, slices))) == Last(blocks)
  {
    SliceHeadsAscend(blocks, k, slices);
    if k == |blocks| {
      NothingKept(final, heads, blocks, known);
    }
    hide Ascending, KeptHeads, SliceHeads, Continues, SplitsAt, Covers, ValidHeads;
  }

  /** A batch of final blocks leaves nothing unfinalized. */
  lemma NothingKept(final: Option<BlockRef>, heads: seq<BlockRef>, blocks: seq<BlockRef>, known: Option<BlockRef>)
    requires ValidHeads(final, heads) && SplitsAt(blocks, known, |blocks|) && blocks != []
    requires Continues(Last(Chain(final, heads)), blocks)
    ensures KeptHeads(heads, FinalizedBy(blocks, known, |blocks|)) == []
  {
    KeptHeadsEnd(final, heads, FinalizedBy(blocks, known, |blocks|));
    HeadsBelowBlocks(final, heads, blocks);
    hide Ascending, KeptHeads, Continues, SplitsAt, ValidHeads;
    assert blocks[|blocks| - 1] in blocks;
  }

  lemma ChainAscends(after: Option<BlockRef>, kept: seq<BlockRef>, more: seq<BlockRef>)
    requires Ascending(kept) && Ascending(more)
    requires forall x, y :: x in kept && y in more ==> x.number < y.number
    requires forall h :: h in kept || h in more ==> h.number > FinalHeight(after)
    ensures ValidHeads(after, kept + more)
  {
    hide Ascending;
    AscendingConcat(kept, more);
    if after != None {
      SingleAscends(after.value);
      AscendingConcat([after.value], kept + more);
    }
  }

  /** A batch without blocks leaves the head alone, or moves it up to the block known to be final. */
  lemma EmptyBatchHead(final: Option<BlockRef>, heads: seq<BlockRef>, news: Option<BlockRef>)
    requires ValidHeads(final, heads) && (final != None || news != None)
    ensures var after := MaxBlockRef(final, news);
            Last(Chain(after, KeptHeads(heads, after))) in {Last(Chain(final, heads)), news}
  {
    hide Ascending, ValidHeads;
    var after := MaxBlockRef(final, news);
    KeptHeadsEnd(final, heads, after);
    HeadsAboveFinal(final, heads);
    if heads != [] {
      assert heads[|heads| - 1] in heads;
    }
  }

  /** ... and never moves it down. */
  lemma EmptyBatchRises(final: Option<BlockRef>, heads: seq<BlockRef>, news: Option<BlockRef>)
    requires ValidHeads(final, heads) && Last(Chain(final, heads)) != None
    ensures var after := MaxBlockRef(final, news);
            var head := Last(Chain(after, KeptHeads(heads, after)));
            head != None && head.value.number >= Last(Chain(final, heads)).value.number
  {
    hide Ascending, ValidHeads;
    var after := MaxBlockRef(final, news);
    KeptHeadsEnd(final, heads, after);
    HeadsAboveFinal(final, heads);
    if heads != [] {
      assert heads[|heads| - 1] in heads;
    }
  }

  lemma NoSliceHeads(k: nat, slices: seq<Slice>)
    requires Covers(slices, 0)
    ensures SliceHeads([], k, slices) == []
  {
    SliceHeadsAscend([], k, slices);
  }

  lemma HeadsAboveFinal(final: Option<BlockRef>, heads: seq<BlockRef>)
    requires ValidHeads(final, heads)
    ensures forall h <- heads :: h.number > FinalHeight(final) && h.number <= heads[|heads| - 1].number
  {
    var chain := Chain(final, heads);
    forall h <- heads ensures h.number > FinalHeight(final) && h.number <= heads[|heads| - 1].number {
      var i :| 0 <= i < |heads| && heads[i] == h;
      var n := |chain| - |heads|;
      assert chain[n + i] == h && chain[|chain| - 1] == heads[|heads| - 1] && (n > 0 ==> chain[0] == final.value);
    }
  }

  lemma MaxIsHigher(a: Option<BlockRef>, b: Option<BlockRef>)
    ensures FinalHeight(a) <= FinalHeight(MaxBlockRef(a, b)) && (MaxBlockRef(a, b) == None <==> a == None && b == None)
  {
  }

  lemma SingleAscends(b: BlockRef)
    ensures Ascending([b])
  {
  }

  lemma AboveSplit(blocks: seq<BlockRef>, known: Option<BlockRef>, k: nat, h: BlockRef)
    requires Ascending(blocks) && SplitsAt(blocks, known, k) && exists i :: k <= i < |blocks| && blocks[i] == h
    ensures h.number > FinalHeight(known) && h in blocks
  {
  }

  lemma HeadsBelowBlocks(final: Option<BlockRef>, heads: seq<BlockRef>, blocks: seq<BlockRef>)
    requires ValidHeads(final, heads) && Continues(Last(Chain(final, heads)), blocks)
    ensures forall h, b :: h in heads && b in blocks ==> h.number < b.number
    ensures forall b :: final != None && b in blocks ==> final.value.number < b.number
  {
    var chain := Chain(final, heads);
    forall h, b | h in chain && b in blocks ensures h.number < b.number {
    }
    assert forall h :: h in heads ==> h in chain;
    assert final != None ==> chain[0] == final.value;
  }
}
