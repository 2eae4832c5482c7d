/**
 The batch processor and the hot database at work together.  They keep the chain each on its own side:
 the processor what it believes to have processed, the database what it has committed.
 */
module Indexing {
  import opened Wrappers
  import opened BatchProcessor
  import opened HotDatabase
  import opened BlockHistory

  datatype Input =
    | NewBatch(data: BlockBatch, isOnTop: bool)
    | ForkNews(previousBlocks: seq<BlockRef>)
    | Restart

  datatype Result = Done | ProcessorFailed(error: BatchProcessor.Error) | DatabaseFailed(dbError: TxError)

  function ToBlockRef(block: HashAndHeight): BlockRef
    requires block.height >= 0
  {
    BlockRef(block.height, block.hash)
  }

  /** Block hashes tell heights; the database calls the block before the first one "0x". */
  ghost predicate Names(heightOf: string -> int, blocks: seq<BlockRef>) {
    heightOf("0x") == -1 && forall b <- blocks :: heightOf(b.hash) == b.number
  }

  /** The processor knows the database's status, and its heads are the lowest hot blocks. */
  ghost predicate InStep(finalizedHead: Option<BlockRef>, unfinalizedHeads: seq<BlockRef>,
                         status: HashAndHeight, hot: seq<HashAndHeight>) {
    && ToHashAndHeight(finalizedHead) == status
    && |unfinalizedHeads| <= |hot| && Heights(unfinalizedHeads) == hot[..|unfinalizedHeads|]
  }

  ghost predicate Named(heightOf: string -> int, status: HashAndHeight, hot: seq<HashAndHeight>) {
    forall b <- [status] + hot :: heightOf(b.hash) == b.height
  }

  // ---------- A batch, on both sides ----------

  lemma {:induction false} SameAbove(heads: seq<BlockRef>, height: int)
    ensures HotAbove(Heights(heads), height) == Heights(Above(heads, height))
  {
    if heads != [] {
      SameAbove(heads[1..], height);
      assert Heights(heads)[1..] == Heights(heads[1..]);
    } else {
      assert Heights(heads) == [];
    }
  }

  lemma OneMoreSlice(blocks: seq<BlockRef>, from: nat, before: seq<Slice>, slice: Slice)
    requires slice.start < slice.end <= |blocks| && from < slice.end && Covers(before, slice.start)
    ensures Covers(before + [slice], slice.end)
    ensures SliceHeads(blocks[..slice.end], from, before + [slice])
         == SliceHeads(blocks[..slice.start], from, before) + [blocks[slice.end - 1]]
  {
    var longer := before + [slice];
    assert longer[..|longer| - 1] == before && blocks[..slice.end][..slice.start] == blocks[..slice.start];
  }

  lemma {:induction false} GroupsCover(before: seq<Slice>, i: nat, n: nat, size: nat)
    requires i <= n && size > 0 && Covers(before, i)
    ensures Covers(before + Groups(i, n, size), n)
    decreases n - i
  {
    var slices := Groups(i, n, size);
    if i < n {
      var longer := before + [slices[0]];
      assert longer[..|longer| - 1] == before;
      GroupsCover(longer, slices[0].end, n, size);
      Append(before, [slices[0]], Groups(slices[0].end, n, size));
    } else {
      assert before + slices == before;
    }
  }

  /** The groups add their last blocks to the heads. */
  lemma {:induction false} GroupHeads(blocks: seq<BlockRef>, from: nat, i: nat, before: seq<Slice>, size: nat)
    requires from <= i <= |blocks| && size > 0 && Covers(before, i)
    ensures var slices := Groups(i, |blocks|, size);
            && Covers(before + slices, |blocks|)
            && Heights(SliceHeads(blocks, from, before + slices))
                 == Heights(SliceHeads(blocks[..i], from, before)) + HeadsOf(blocks, slices)
    decreases |blocks| - i
  {
    var slices := Groups(i, |blocks|, size);
    GroupsCover(before, i, |blocks|, size);
    if i == |blocks| {
      assert before + slices == before && blocks[..i] == blocks && HeadsOf(blocks, slices) == [];
    } else {
      var slice := slices[0];
      var rest := Groups(slice.end, |blocks|, size);
      HeadsOfFirst(blocks, slice, rest);
      assert slices == [slice] + rest;
      hide SliceHeads, Covers, HeadsOf, Heights, Groups, Within;
      OneMoreSlice(blocks, from, before, slice);
      GroupHeads(blocks, from, slice.end, before + [slice], size);
      Append(before, [slice], rest);
      OneMoreHead(SliceHeads(blocks[..i], from, before), blocks[slice.end - 1], HeadsOf(blocks, rest));
    }
  }

  lemma HeadsOfFirst(blocks: seq<BlockRef>, slice: Slice, rest: seq<Slice>)
    requires slice.start < slice.end <= |blocks| && Within(rest, |blocks|)
    ensures HeadsOf(blocks, [slice] + rest) == [ToHashAndHeight(Some(blocks[slice.end - 1]))] + HeadsOf(blocks, rest)
  {
  }

  lemma OneMoreHead(heads: seq<BlockRef>, block: BlockRef, rest: seq<HashAndHeight>)
    ensures Heights(heads + [block]) + rest == Heights(heads) + ([ToHashAndHeight(Some(block))] + rest)
  {
  }

  /** The processor's new heads are the last blocks of the hot groups. */
  lemma SameHeads(blocks: seq<BlockRef>, height: int)
    ensures Covers(SlicesOf(blocks, height), |blocks|)
    ensures Heights(SliceHeads(blocks, FinalCount(blocks, height), SlicesOf(blocks, height)))
         == HeadsOf(blocks, HotSlices(blocks, height))
  {
    hide SliceHeads, Covers, HeadsOf, Heights, FinalCount, GroupSize, Groups, SlicesOf, HotSlices, Within;
    var n := FinalCount(blocks, height);
    var size := GroupSize(|blocks| - n);
    var before := if n > 0 then [Slice(0, n)] else [];
    FinalThenHot(blocks, height);
    FinalSliceHeads(blocks, n);
    GroupHeads(blocks, n, n, before, size);
    assert [] + HeadsOf(blocks, HotSlices(blocks, height)) == HeadsOf(blocks, HotSlices(blocks, height));
  }

  lemma FinalThenHot(blocks: seq<BlockRef>, height: int)
    ensures var n := FinalCount(blocks, height);
            var before := if n > 0 then [Slice(0, n)] else [];
            && HotSlices(blocks, height) == Groups(n, |blocks|, GroupSize(|blocks| - n))
            && SlicesOf(blocks, height) == before + HotSlices(blocks, height)
  {
    hide FinalCount, GroupSize, Groups, Within;
  }

  lemma FinalSliceHeads(blocks: seq<BlockRef>, n: nat)
    requires n <= |blocks|
    ensures var before := if n > 0 then [Slice(0, n)] else [];
            Covers(before, n) && SliceHeads(blocks[..n], n, before) == [] && Heights([]) == []
  {
    assert n > 0 ==> [Slice(0, n)][..0] == [];
  }

  /** The processor's head is the database's block number `|heads|`, counting the status block. */
  lemma HeadPosition(final: Option<BlockRef>, heads: seq<BlockRef>, status: HashAndHeight, hot: seq<HashAndHeight>)
    requires InStep(final, heads, status, hot)
    ensures ([status] + hot)[|heads|] == ToHashAndHeight(Last(Chain(final, heads)))
  {
    if heads != [] {
      assert hot[..|heads|][|heads| - 1] == Heights(heads)[|heads| - 1];
    }
  }

  lemma SamePosition(chain: seq<HashAndHeight>, i: nat, j: nat)
    requires Climbing(chain) && i < |chain| && j < |chain| && chain[i] == chain[j]
    ensures i == j
  {
  }

  lemma KeepsHeads(final: Option<BlockRef>, heads: seq<BlockRef>, status: HashAndHeight, hot: seq<HashAndHeight>, keep: nat)
    requires InStep(final, heads, status, hot) && Climbing([status] + hot)
    requires keep <= |hot| && ([status] + hot)[keep] == ToHashAndHeight(Last(Chain(final, heads)))
    ensures keep == |heads| && Heights(heads) == hot[..keep]
  {
    HeadPosition(final, heads, status, hot);
    SamePosition([status] + hot, keep, |heads|);
  }

  /** Both sides split a batch into final and hot blocks at the same place. */
  lemma SameSplit(blocks: seq<BlockRef>, known: Option<BlockRef>, k: nat)
    requires Ascending(blocks) && SplitsAt(blocks, known, k)
    ensures k == FinalCount(blocks, FinalHeight(FinalizedBy(blocks, known, k)))
  {
    FirstBlockAbove(blocks, FinalHeight(FinalizedBy(blocks, known, k)));
  }

  lemma SameKept(heads: seq<BlockRef>, after: Option<BlockRef>)
    ensures HotAbove(Heights(heads), FinalHeight(after)) == Heights(KeptHeads(heads, after))
  {
    SameAbove(heads, FinalHeight(after));
  }

  /** A batch leaves processor and database in step. */
  lemma BatchInStep(final: Option<BlockRef>, heads: seq<BlockRef>, status: HashAndHeight, hot: seq<HashAndHeight>,
                    keep: nat, blocks: seq<BlockRef>, known: Option<BlockRef>, k: nat)
    requires InStep(final, heads, status, hot) && Climbing([status] + hot)
    requires keep <= |hot| && ([status] + hot)[keep] == ToHashAndHeight(Last(Chain(final, heads)))
    requires Ascending(blocks) && SplitsAt(blocks, known, k)
    ensures var after := FinalizedBy(blocks, known, k);
            var slices := SlicesOf(blocks, FinalHeight(after));
            var newHot := HotAbove(hot[..keep], FinalHeight(after)) + HeadsOf(blocks, HotSlices(blocks, FinalHeight(after)));
            && Covers(slices, |blocks|)
            && Heights(KeptHeads(heads, after) + SliceHeads(blocks, k, slices)) == newHot
  {
    var after := FinalizedBy(blocks, known, k);
    var height := FinalHeight(after);
    KeepsHeads(final, heads, status, hot, keep);
    SameSplit(blocks, known, k);
    SameKept(heads, after);
    SameHeads(blocks, height);
    hide SlicesOf, HotSlices, SliceHeads, HeadsOf, KeptHeads, HotAbove, Heights, Covers, Climbing;
    HeightsConcat(KeptHeads(heads, after), SliceHeads(blocks, k, SlicesOf(blocks, height)));
  }

  lemma HeightsConcat(a: seq<BlockRef>, b: seq<BlockRef>)
    ensures Heights(a + b) == Heights(a) + Heights(b) && |Heights(a + b)| == |a + b|
  {
  }

  lemma BatchNamed(heightOf: string -> int, status: HashAndHeight, hot: seq<HashAndHeight>, keep: nat,
                   blocks: seq<BlockRef>, height: int, after: HashAndHeight)
    requires Named(heightOf, status, hot) && Names(heightOf, blocks) && keep <= |hot| && heightOf(after.hash) == after.height
    ensures Named(heightOf, after, HotAbove(hot[..keep], height) + HeadsOf(blocks, HotSlices(blocks, height)))
  {
    var older, heads := HotAbove(hot[..keep], height), HeadsOf(blocks, HotSlices(blocks, height));
    NamedHeads(heightOf, blocks, HotSlices(blocks, height));
    HotAboveIsSuffix(hot[..keep], height);
    NamedSlice(heightOf, status, hot, keep - |older|, keep);
    assert older == hot[keep - |older|..keep];
    hide HeadsOf, HotSlices, HotAbove, Named;
    NamedConcat(heightOf, after, older, heads);
  }

  lemma NamedSlice(heightOf: string -> int, status: HashAndHeight, hot: seq<HashAndHeight>, i: nat, j: nat)
    requires Named(heightOf, status, hot) && i <= j <= |hot|
    ensures forall b <- hot[i..j] :: heightOf(b.hash) == b.height
  {
    assert forall b <- hot[i..j] :: b in [status] + hot;
  }

  lemma NamedConcat(heightOf: string -> int, status: HashAndHeight, a: seq<HashAndHeight>, b: seq<HashAndHeight>)
    requires heightOf(status.hash) == status.height
    requires (forall x <- a :: heightOf(x.hash) == x.height) && forall x <- b :: heightOf(x.hash) == x.height
    ensures Named(heightOf, status, a + b)
  {
  }

  lemma NamedHeads(heightOf: string -> int, blocks: seq<BlockRef>, slices: seq<Slice>)
    requires Names(heightOf, blocks) && Within(slices, |blocks|)
    ensures forall b <- HeadsOf(blocks, slices) :: heightOf(b.hash) == b.height
  {
    forall j | 0 <= j < |slices| ensures heightOf(HeadsOf(blocks, slices)[j].hash) == HeadsOf(blocks, slices)[j].height {
      assert slices[j] in slices;
      assert blocks[slices[j].end - 1] in blocks;
    }
  }

  /** Every hot block is tracked, so it stands for a part. */
  lemma HotBlocksStand(db: Database)
    requires db.Valid()
    ensures Climbing([db.status] + db.hot) && Stands(db.hot, db.applied)
  {
    var hot, applied := db.hot, db.applied;
    forall h | 0 <= h < |hot| ensures StandsFor(hot[h], applied[|applied| - |hot| + h]) {
      var parts := applied[..|applied| - (|hot| - h) + 1];
      assert db.TrackedPart(hot[h], parts, db.changeLog);
      assert parts[|parts| - 1] == applied[|applied| - |hot| + h];
    }
  }

  /** Blocks that continue the processor's head also continue the database's base head. */
  lemma ContinuesClimbs(head: Option<BlockRef>, blocks: seq<BlockRef>)
    requires Continues(head, blocks)
    ensures Climbing([ToHashAndHeight(head)] + Heights(blocks))
    ensures blocks != [] ==> FinalHeight(head) < blocks[0].number
  {
    var chain := [ToHashAndHeight(head)] + Heights(blocks);
    assert forall i {:trigger chain[i]} :: 0 < i < |chain| ==> chain[i].height == blocks[i - 1].number;
  }

  /** A final block passes the database's height check unless it comes alone and lies above the head. */
  lemma FinalBelowTop(final: Option<BlockRef>, head: Option<BlockRef>, blocks: seq<BlockRef>, news: Option<BlockRef>, k: nat)
    requires FinalHeight(final) <= FinalHeight(head) && Continues(head, blocks)
    requires SplitsAt(blocks, MaxBlockRef(final, news), k)
    ensures var info := HotTxInfo(ToHashAndHeight(FinalizedBy(blocks, MaxBlockRef(final, news), k)), ToHashAndHeight(head), Heights(blocks));
            info.finalizedHead.height > Top(info).height <==> blocks == [] && FinalHeight(news) > FinalHeight(head)
  {
    if blocks != [] && k > 0 {
      assert blocks[k - 1].number <= blocks[|blocks| - 1].number;
    }
  }

  /** What holds of processor and database between two batches. */
  ghost predicate Consistent(heightOf: string -> int, final: Option<BlockRef>, heads: seq<BlockRef>,
                             status: HashAndHeight, hot: seq<HashAndHeight>, applied: seq<Part>,
                             chain: seq<BlockRef>, exact: bool)
  {
    && InStep(final, heads, status, hot) && Named(heightOf, status, hot) && heightOf("0x") == -1
    && InOrder(status, hot, applied) && (exact ==> History(applied) == chain)
  }

  /** The next batch builds on a hot block, or no final block shares a part with hot ones. */
  ghost predicate Intact(heads: seq<BlockRef>, status: HashAndHeight, hot: seq<HashAndHeight>, applied: seq<Part>)
    requires |hot| <= |applied|
  {
    heads != [] || Settled(status, hot, applied)
  }

  /** What the transaction of a batch leaves, given what it finds. */
  ghost predicate Written(status: HashAndHeight, hot: seq<HashAndHeight>, applied: seq<Part>, keep: nat,
                          blocks: seq<BlockRef>, isOnTop: bool, final: HashAndHeight,
                          newHot: seq<HashAndHeight>, newApplied: seq<Part>)
    requires keep <= |hot| <= |applied|
  {
    && newHot == HotAbove(hot[..keep], final.height) + HeadsOf(blocks, HotSlices(blocks, final.height))
    && newApplied == Kept(applied, hot, keep) + PartsOf(blocks, SlicesOf(blocks, final.height), isOnTop)
    && Climbing([final] + newHot) && Stands(newHot, newApplied)
  }

  /** What the transaction of a batch will find. */
  lemma BeforeBatch(heightOf: string -> int, final: Option<BlockRef>, heads: seq<BlockRef>, status: HashAndHeight,
                    hot: seq<HashAndHeight>, applied: seq<Part>, chain: seq<BlockRef>, exact: bool,
                    blocks: seq<BlockRef>, news: Option<BlockRef>, k: nat)
    requires ValidHeads(final, heads) && Consistent(heightOf, final, heads, status, hot, applied, chain, exact)
    requires var head := Last(Chain(final, heads));
             Continues(head, blocks) && SplitsAt(blocks, MaxBlockRef(final, news), k)
    ensures var head, known := Last(Chain(final, heads)), MaxBlockRef(final, news);
            && ToHashAndHeight(head) in [status] + hot && heightOf(ToHashAndHeight(head).hash) == FinalHeight(head)
            && (forall b <- [status] + hot :: b.hash == ToHashAndHeight(head).hash ==> b.height == FinalHeight(head))
            && Climbing([ToHashAndHeight(head)] + Heights(blocks)) && Ascending(blocks)
            && FinalHeight(final) <= FinalHeight(known)
            && FinalHeight(final) <= FinalHeight(FinalizedBy(blocks, known, k))
            && var info := HotTxInfo(ToHashAndHeight(FinalizedBy(blocks, known, k)), ToHashAndHeight(head), Heights(blocks));
               (info.finalizedHead.height > Top(info).height <==> blocks == [] && FinalHeight(news) > FinalHeight(head))
  {
    var head, known := Last(Chain(final, heads)), MaxBlockRef(final, news);
    HeadPosition(final, heads, status, hot);
    assert ([status] + hot)[|heads|] in [status] + hot;
    ContinuesClimbs(head, blocks);
    MaxIsHigher(final, news);
    FinalizedBounds(final, heads, blocks, known, k);
    HeadsAboveFinal(final, heads);
    assert FinalHeight(final) <= FinalHeight(head) by {
      assert heads != [] ==> heads[|heads| - 1] in heads;
    }
    hide Climbing, InStep, ValidHeads, Heights, Chain, MaxBlockRef;
    FinalBelowTop(final, head, blocks, news, k);
  }

  lemma BatchHeads(heightOf: string -> int, final: Option<BlockRef>, heads: seq<BlockRef>, status: HashAndHeight,
                   hot: seq<HashAndHeight>, applied: seq<Part>, chain: seq<BlockRef>, exact: bool,
                   keep: nat, blocks: seq<BlockRef>, known: Option<BlockRef>, k: nat)
    requires Consistent(heightOf, final, heads, status, hot, applied, chain, exact)
    requires keep <= |hot| && ([status] + hot)[keep] == ToHashAndHeight(Last(Chain(final, heads)))
    requires Ascending(blocks) && SplitsAt(blocks, known, k)
    ensures var after := FinalizedBy(blocks, known, k);
            var slices := SlicesOf(blocks, FinalHeight(after));
            var newHot := HotAbove(hot[..keep], FinalHeight(after)) + HeadsOf(blocks, HotSlices(blocks, FinalHeight(after)));
            && keep == |heads| && Covers(slices, |blocks|)
            && Heights(KeptHeads(heads, after) + SliceHeads(blocks, k, slices)) == newHot
  {
    KeepsHeads(final, heads, status, hot, keep);
    BatchInStep(final, heads, status, hot, keep, blocks, known, k);
  }

  /** A batch leaves the tables as they should be if they were, and nothing but orphans is taken back. */
  lemma StaysExact(status: HashAndHeight, hot: seq<HashAndHeight>, applied: seq<Part>, heads: seq<BlockRef>,
                   blocks: seq<BlockRef>, isOnTop: bool, height: int)
    requires InOrder(status, hot, applied) && |heads| <= |hot|
    ensures var newApplied := Kept(applied, hot, |heads|) + PartsOf(blocks, SlicesOf(blocks, height), isOnTop);
            (History(newApplied) == UpTo(History(applied), ([status] + hot)[|heads|].height) + blocks)
            <==> Intact(heads, status, hot, applied)
  {
    hide InOrder, History, Settled, UpTo, Kept;
    BatchParts(blocks, height, isOnTop);
    BatchHistory(status, hot, applied, |heads|, blocks, PartsOf(blocks, SlicesOf(blocks, height), isOnTop));
  }

  /** A batch keeps everything consistent. */
  lemma AfterBatch(heightOf: string -> int, final: Option<BlockRef>, heads: seq<BlockRef>,
                   status: HashAndHeight, hot: seq<HashAndHeight>, applied: seq<Part>, chain: seq<BlockRef>, exact: bool,
                   blocks: seq<BlockRef>, isOnTop: bool, known: Option<BlockRef>, k: nat,
                   newHot: seq<HashAndHeight>, newApplied: seq<Part>, newHeads: seq<BlockRef>)
    requires Consistent(heightOf, final, heads, status, hot, applied, chain, exact)
    requires Continues(Last(Chain(final, heads)), blocks) && Names(heightOf, blocks)
    requires k <= |blocks| && SplitsAt(blocks, known, k)
    requires var after := ToHashAndHeight(FinalizedBy(blocks, known, k));
             && status.height <= after.height && heightOf(after.hash) == after.height && Heights(newHeads) == newHot
             && Written(status, hot, applied, |heads|, blocks, isOnTop, after, newHot, newApplied)
    ensures Consistent(heightOf, FinalizedBy(blocks, known, k), newHeads,
                       ToHashAndHeight(FinalizedBy(blocks, known, k)), newHot, newApplied,
                       UpTo(chain, FinalHeight(Last(Chain(final, heads)))) + blocks,
                       exact && Intact(heads, status, hot, applied))
    ensures (History(newApplied) == UpTo(History(applied), FinalHeight(Last(Chain(final, heads)))) + blocks)
            <==> Intact(heads, status, hot, applied)
  {
    hide Climbing, Named, History, UpTo, Intact, SplitsAt, FinalizedBy, Stands, Chain, Last, Heights, Continues;
    hide Kept, HotAbove, HeadsOf, HotSlices, SlicesOf, PartsOf, InOrder, Ascending, Names;
    var after := FinalizedBy(blocks, known, k);
    HeadPosition(final, heads, status, hot);
    ContinuesClimbs(Last(Chain(final, heads)), blocks);
    ContinuesAscends(Last(Chain(final, heads)), blocks);
    AllHeights(newHeads);
    BatchNamed(heightOf, status, hot, |heads|, blocks, FinalHeight(after), ToHashAndHeight(after));
    BatchInOrder(status, hot, applied, |heads|, blocks, isOnTop, ToHashAndHeight(after));
    StaysExact(status, hot, applied, heads, blocks, isOnTop, FinalHeight(after));
  }

  lemma ContinuesAscends(head: Option<BlockRef>, blocks: seq<BlockRef>)
    requires Continues(head, blocks)
    ensures Ascending(blocks)
  {
  }

  lemma AllHeights(heads: seq<BlockRef>)
    ensures |Heights(heads)| == |heads| && Heights(heads)[..|heads|] == Heights(heads)
  {
  }

  /** The values of `chain` and `exact` after a batch, and whether the tables stand for what they should. */
  ghost predicate Replaced(head: Option<BlockRef>, intact: bool, blocks: seq<BlockRef>, chain: seq<BlockRef>, exact: bool,
                           applied: seq<Part>, newChain: seq<BlockRef>, newExact: bool, newApplied: seq<Part>)
  {
    && newChain == UpTo(chain, FinalHeight(head)) + blocks
    && newExact == (exact && intact)
    && ((History(newApplied) == UpTo(History(applied), FinalHeight(head)) + blocks) <==> intact)
  }

  /** All that follows once the transaction of a batch has been committed. */
  lemma BatchDone(heightOf: string -> int, final: Option<BlockRef>, heads: seq<BlockRef>, status: HashAndHeight,
                  hot: seq<HashAndHeight>, applied: seq<Part>, chain: seq<BlockRef>, exact: bool,
                  keep: nat, blocks: seq<BlockRef>, isOnTop: bool, news: Option<BlockRef>, k: nat,
                  newStatus: HashAndHeight, newHot: seq<HashAndHeight>, newApplied: seq<Part>, slices: seq<Slice>)
    requires ValidHeads(final, heads) && Consistent(heightOf, final, heads, status, hot, applied, chain, exact)
    requires Continues(Last(Chain(final, heads)), blocks) && SplitsAt(blocks, MaxBlockRef(final, news), k)
    requires Names(heightOf, blocks) && (news != None ==> heightOf(news.value.hash) == news.value.number)
    requires keep <= |hot| && ([status] + hot)[keep] == ToHashAndHeight(Last(Chain(final, heads)))
    requires newStatus == Higher(ToHashAndHeight(FinalizedBy(blocks, MaxBlockRef(final, news), k)), status)
    requires slices == SlicesOf(blocks, newStatus.height)
    requires Written(status, hot, applied, keep, blocks, isOnTop, newStatus, newHot, newApplied)
    ensures var known := MaxBlockRef(final, news);
            var after := FinalizedBy(blocks, known, k);
            && keep == |heads| && Covers(slices, |blocks|)
            && var newHeads := KeptHeads(heads, after) + SliceHeads(blocks, k, slices);
            && Heights(newHeads) == newHot
            && Consistent(heightOf, after, newHeads, newStatus, newHot, newApplied,
                          UpTo(chain, FinalHeight(Last(Chain(final, heads)))) + blocks,
                          exact && Intact(heads, status, hot, applied))
            && ((History(newApplied) == UpTo(History(applied), FinalHeight(Last(Chain(final, heads)))) + blocks)
                <==> Intact(heads, status, hot, applied))
            && (|blocks| < 200 && Singles(HotParts(hot, applied)) ==>
                  |newHot| <= |newApplied| && Singles(HotParts(newHot, newApplied)))
  {
    hide Climbing, Named, History, UpTo, Intact, SplitsAt, FinalizedBy, Stands, Chain, Last, Heights, Continues, Higher, MaxBlockRef;
    hide Kept, HotAbove, HeadsOf, HotSlices, SlicesOf, PartsOf, InOrder, Ascending, Names, KeptHeads, SliceHeads, Covers;
    hide Singles, HotParts, ValidHeads;
    var known := MaxBlockRef(final, news);
    NewStatus(heightOf, final, heads, status, hot, blocks, news, k);
    ContinuesClimbs(Last(Chain(final, heads)), blocks);
    ContinuesAscends(Last(Chain(final, heads)), blocks);
    ConsistentClimbs(heightOf, final, heads, status, hot, applied, chain, exact);
    hide Consistent;
    if |blocks| < 200 && Singles(HotParts(hot, applied)) {
      BatchSingles(status, hot, applied, keep, blocks, isOnTop, newStatus.height);
    }
    BatchHeads(heightOf, final, heads, status, hot, applied, chain, exact, keep, blocks, known, k);
    AfterBatch(heightOf, final, heads, status, hot, applied, chain, exact, blocks, isOnTop, known, k,
               newHot, newApplied, KeptHeads(heads, FinalizedBy(blocks, known, k)) + SliceHeads(blocks, k, slices));
  }

  /** The status the database takes on is the processor's new finalized head. */
  lemma NewStatus(heightOf: string -> int, final: Option<BlockRef>, heads: seq<BlockRef>, status: HashAndHeight,
                  hot: seq<HashAndHeight>, blocks: seq<BlockRef>, news: Option<BlockRef>, k: nat)
    requires ValidHeads(final, heads) && InStep(final, heads, status, hot) && Named(heightOf, status, hot) && heightOf("0x") == -1
    requires Continues(Last(Chain(final, heads)), blocks) && SplitsAt(blocks, MaxBlockRef(final, news), k)
    requires Names(heightOf, blocks) && (news != None ==> heightOf(news.value.hash) == news.value.number)
    ensures k <= |blocks|
    ensures var after := ToHashAndHeight(FinalizedBy(blocks, MaxBlockRef(final, news), k));
            Higher(after, status) == after && heightOf(after.hash) == after.height && status.height <= after.height
  {
    MaxIsHigher(final, news);
    FinalizedBounds(final, heads, blocks, MaxBlockRef(final, news), k);
    FinalNamed(heightOf, final, heads, status, hot, blocks, news, k);
  }

  /** The database's status never lies above the finalized head it is told. */
  lemma SameStatus(heightOf: string -> int, final: Option<BlockRef>, heads: seq<BlockRef>, status: HashAndHeight,
                   hot: seq<HashAndHeight>, applied: seq<Part>, chain: seq<BlockRef>, exact: bool,
                   blocks: seq<BlockRef>, news: Option<BlockRef>, k: nat)
    requires ValidHeads(final, heads) && Consistent(heightOf, final, heads, status, hot, applied, chain, exact)
    requires Continues(Last(Chain(final, heads)), blocks) && SplitsAt(blocks, MaxBlockRef(final, news), k)
    requires Names(heightOf, blocks) && (news != None ==> heightOf(news.value.hash) == news.value.number)
    ensures k <= |blocks|
    ensures var after := ToHashAndHeight(FinalizedBy(blocks, MaxBlockRef(final, news), k)); Higher(after, status) == after
  {
    NewStatus(heightOf, final, heads, status, hot, blocks, news, k);
  }

  /** The processor's head is the status or a hot block of the database. */
  lemma FindsHead(heightOf: string -> int, final: Option<BlockRef>, heads: seq<BlockRef>, status: HashAndHeight,
                  hot: seq<HashAndHeight>, applied: seq<Part>, chain: seq<BlockRef>, exact: bool)
    requires Consistent(heightOf, final, heads, status, hot, applied, chain, exact)
    ensures |heads| <= |hot| <= |applied| && ([status] + hot)[|heads|] == ToHashAndHeight(Last(Chain(final, heads)))
  {
    HeadPosition(final, heads, status, hot);
  }

  /** The database takes back exactly the blocks that the processor has given up. */
  lemma TakesBackForked(heightOf: string -> int, final: Option<BlockRef>, heads: seq<BlockRef>, status: HashAndHeight,
                        hot: seq<HashAndHeight>, applied: seq<Part>, chain: seq<BlockRef>, exact: bool, keep: nat)
    requires Consistent(heightOf, final, heads, status, hot, applied, chain, exact)
    requires keep <= |hot| && ([status] + hot)[keep] == ToHashAndHeight(Last(Chain(final, heads)))
    ensures keep == |heads| && |heads| <= |hot| <= |applied|
  {
    KeepsHeads(final, heads, status, hot, keep);
  }

  lemma ConsistentClimbs(heightOf: string -> int, final: Option<BlockRef>, heads: seq<BlockRef>, status: HashAndHeight,
                         hot: seq<HashAndHeight>, applied: seq<Part>, chain: seq<BlockRef>, exact: bool)
    requires Consistent(heightOf, final, heads, status, hot, applied, chain, exact)
    ensures Climbing([status] + hot) && |hot| <= |applied|
  {
  }

  lemma FinalNamed(heightOf: string -> int, final: Option<BlockRef>, heads: seq<BlockRef>, status: HashAndHeight,
                   hot: seq<HashAndHeight>, blocks: seq<BlockRef>, news: Option<BlockRef>, k: nat)
    requires InStep(final, heads, status, hot) && Named(heightOf, status, hot) && heightOf("0x") == -1
    requires Names(heightOf, blocks) && (news != None ==> heightOf(news.value.hash) == news.value.number)
    requires k <= |blocks|
    ensures var after := ToHashAndHeight(FinalizedBy(blocks, MaxBlockRef(final, news), k));
            heightOf(after.hash) == after.height
  {
    assert status in [status] + hot;
    assert k > 0 ==> blocks[k - 1] in blocks;
  }

  lemma FewerHeads(final: Option<BlockRef>, heads: seq<BlockRef>, fewer: seq<BlockRef>, status: HashAndHeight, hot: seq<HashAndHeight>)
    requires InStep(final, heads, status, hot) && fewer <= heads
    ensures InStep(final, fewer, status, hot)
  {
    assert Heights(fewer) == Heights(heads)[..|fewer|];
  }

  function ToBlockRefs(hot: seq<HashAndHeight>): seq<BlockRef>
    requires forall b <- hot :: b.height >= 0
  {
    seq(|hot|, i requires 0 <= i < |hot| => assert hot[i] in hot; ToBlockRef(hot[i]))
  }

  /** The database's blocks, as the processor sees them. */
  lemma HotHeights(status: HashAndHeight, hot: seq<HashAndHeight>, final: Option<BlockRef>, heads: seq<BlockRef>)
    requires Climbing([status] + hot) && InStep(final, heads, status, hot)
    ensures (forall b <- hot :: b.height >= 0) && heads <= ToBlockRefs(hot) && Heights(ToBlockRefs(hot)) == hot
    ensures InStep(final, ToBlockRefs(hot), status, hot)
    ensures final == if status.height < 0 then None else Some(ToBlockRef(status))
  {
    var chain := [status] + hot;
    forall i | 0 <= i < |hot| ensures hot[i].height >= 0 {
      assert chain[i + 1] == hot[i] && chain[0] == status;
    }
    forall i | 0 <= i < |heads| ensures heads[i] == ToBlockRefs(hot)[i] {
      assert Heights(heads)[i] == hot[..|heads|][i];
    }
    assert Heights(ToBlockRefs(hot)) == hot;
  }

  lemma HotAscends(status: HashAndHeight, hot: seq<HashAndHeight>, final: Option<BlockRef>)
    requires Climbing([status] + hot) && (forall b <- hot :: b.height >= 0) && ToHashAndHeight(final) == status
    ensures ValidHeads(final, ToBlockRefs(hot))
  {
    var chain, both := [status] + hot, Chain(final, ToBlockRefs(hot));
    var d := |chain| - |both|;
    assert forall i {:trigger both[i]} :: 0 <= i < |both| ==> chain[i + d].height == both[i].number;
  }

  /** Processor and database between two inputs, and what ought to be in the tables. */
  datatype State = State(heads: Snapshot, status: HashAndHeight, hot: seq<HashAndHeight>, applied: seq<Part>,
                         chain: seq<BlockRef>, exact: bool) {
    function Head(): Option<BlockRef> {
      Last(heads.Blocks())
    }

    function FinalAfter(data: BlockBatch, k: nat): Option<BlockRef>
      requires k <= |data.blocks|
    {
      FinalizedBy(data.blocks, MaxBlockRef(heads.finalizedHead, data.finalizedHead), k)
    }
  }

  /** The first `k` blocks of the batch are final. */
  ghost predicate SplitsBatch(s: State, data: BlockBatch, k: nat) {
    SplitsAt(data.blocks, MaxBlockRef(s.heads.finalizedHead, data.finalizedHead), k)
  }

  /** A block above the head becomes final, but there are no blocks. */
  ghost predicate FinalComesAlone(head: Option<BlockRef>, data: BlockBatch) {
    data.blocks == [] && FinalHeight(data.finalizedHead) > FinalHeight(head)
  }

  /** The batch is in the tables, and so is the history up to the old head, just when the batch was intact. */
  ghost predicate Moves(s: State, data: BlockBatch, isOnTop: bool, k: nat, t: State) {
    && |s.heads.unfinalizedHeads| <= |s.hot| <= |s.applied| && SplitsBatch(s, data, k)
    && t.heads.finalizedHead == s.FinalAfter(data, k) && Heights(t.heads.unfinalizedHeads) == t.hot
    && ToHashAndHeight(t.heads.finalizedHead) == t.status
    && Written(s.status, s.hot, s.applied, |s.heads.unfinalizedHeads|, data.blocks, isOnTop, t.status, t.hot, t.applied)
    && Replaced(s.Head(), Intact(s.heads.unfinalizedHeads, s.status, s.hot, s.applied), data.blocks,
                s.chain, s.exact, s.applied, t.chain, t.exact, t.applied)
  }

  class Indexer {
    const processor: Processor
    const db: Database
    ghost const heightOf: string -> int
    ghost var chain: seq<BlockRef>  // the blocks that should be in the tables: each batch replaces what lay above its base
    ghost var exact: bool           // so far nothing but orphans was taken back

    constructor (db: Database, ghost heightOf: string -> int)
      requires db.Valid() && db.status == HashAndHeight(-1, "0x") && db.hot == [] && db.applied == []
      requires heightOf("0x") == -1
      ensures this.db == db && fresh(processor) && fresh(processor.state) && this.heightOf == heightOf
      ensures chain == [] && exact && Ready() && OnePartEach()
    {
      processor := new Processor(true);
      this.db, this.heightOf, chain, exact := db, heightOf, [], true;
      assert History([]) == [] && Kept([], [], 0) == [];
    }

    ghost predicate Ready()
      reads this, processor.state, db
    {
      && processor.supportsHotBlocks && processor.state.Valid() && db.Valid()
      && Consistent(heightOf, processor.state.finalizedHead, processor.state.unfinalizedHeads, db.status, db.hot, db.applied,
                    chain, exact)
    }

    /** Every hot block was handled in a call of its own. */
    ghost predicate OnePartEach()
      reads db
    {
      |db.hot| <= |db.applied| && Singles(HotParts(db.hot, db.applied))
    }

    ghost predicate NextIsIntact()
      reads processor.state, db
    {
      |db.hot| <= |db.applied| && Intact(processor.state.unfinalizedHeads, db.status, db.hot, db.applied)
    }

    ghost function Now(): State
      reads this, processor.state, db
    {
      State(processor.state.Now(), db.status, db.hot, db.applied, chain, exact)
    }

    ghost predicate IsNamed(data: BlockBatch) {
      Names(heightOf, data.blocks)
      && (data.finalizedHead != None ==> heightOf(data.finalizedHead.value.hash) == data.finalizedHead.value.number)
    }

    /** The handler cannot get through the blocks of the batch, on what stays of the tables. */
    ghost predicate HandlerFails(s: State, data: BlockBatch, isOnTop: bool, k: nat) {
      && |s.heads.unfinalizedHeads| <= |s.hot| <= |s.applied| && k <= |data.blocks|
      && db.Fails(Kept(s.applied, s.hot, |s.heads.unfinalizedHeads|), data.blocks, FinalHeight(s.FinalAfter(data, k)), isOnTop)
    }

    /** What `input` may do, given that it is not turned down. */
    ghost predicate Accepts(s: State, input: Input, t: State) {
      match input
      case NewBatch(data, isOnTop) => if data == BlockBatch([], None) then t == s else exists k: nat :: Moves(s, data, isOnTop, k, t)
      case ForkNews(previousBlocks) => t == s.(heads := t.heads) && FallsBack(s.heads, previousBlocks, t.heads)
      case Restart =>
        t == s.(heads := t.heads) && t.heads.finalizedHead == s.heads.finalizedHead && Heights(t.heads.unfinalizedHeads) == s.hot
    }

    /** Why `input` is turned down. */
    ghost predicate Rejects(s: State, input: Input, r: Result) {
      match input
      case NewBatch(data, isOnTop) =>
        (match r
         case ProcessorFailed(_) => !Continues(s.Head(), data.blocks)
         case DatabaseFailed(FinalAboveTop) => FinalComesAlone(s.Head(), data)
         case DatabaseFailed(SqlError) => exists k: nat :: SplitsBatch(s, data, k) && HandlerFails(s, data, isOnTop, k)
         case _ => false)
      case ForkNews(previousBlocks) => r.ProcessorFailed? && RefusesFork(true, s.heads, previousBlocks)
      case Restart => false
    }

    /** One batch; its first `k` blocks are final. */
    method ProcessBatch(data: BlockBatch, isOnTop: bool) returns (r: Result, delivered: seq<seq<BlockRef>>, ghost k: nat)
      requires Ready() && IsNamed(data)
      modifies this`chain, this`exact, processor.state, db
      ensures Ready()
      ensures r.Done? ==> if data == BlockBatch([], None) then Now() == old(Now()) else Moves(old(Now()), data, isOnTop, k, Now())
      ensures r.Done? && data != BlockBatch([], None) ==> Flatten(delivered) == data.blocks
      ensures !r.Done? ==> Now() == old(Now()) && db.tables == old(db.tables)
      ensures r.Done? && data.blocks != [] ==> processor.state.Head() == Last(data.blocks)
      ensures r.ProcessorFailed? <==> !Continues(old(processor.state.Head()), data.blocks)
      ensures r.DatabaseFailed? ==> r.dbError.FinalAboveTop? || r.dbError.SqlError?
      ensures r == DatabaseFailed(FinalAboveTop) <==> FinalComesAlone(old(processor.state.Head()), data)
      ensures r == DatabaseFailed(SqlError) ==> SplitsBatch(old(Now()), data, k) && HandlerFails(old(Now()), data, isOnTop, k)
      ensures r.Done? && data != BlockBatch([], None) ==> !HandlerFails(old(Now()), data, isOnTop, k)
      ensures |data.blocks| < 200 && old(OnePartEach()) ==> OnePartEach()
    {
      hide Consistent, Singles, HotParts, SplitsAt, FinalizedBy, Moves, Intact, Last, Chain, Names, HandlerFails;
      r, delivered, k := Done, [], 0;
      var start := processor.BeginBatch(data);
      match start
      case Skip =>
      case Broken(error) => r := ProcessorFailed(error);
      case Hot(info, finalizedHead, unfinalizedIndex) =>
        k := unfinalizedIndex;
        r, delivered := HotBatch(data, isOnTop, info, finalizedHead, unfinalizedIndex);
    }

    method HotBatch(data: BlockBatch, isOnTop: bool, info: HotTxInfo, finalizedHead: Option<BlockRef>, k: nat)
        returns (r: Result, delivered: seq<seq<BlockRef>>)
      requires Ready() && IsNamed(data) && Continues(processor.state.Head(), data.blocks)
      requires SplitsBatch(Now(), data, k) && finalizedHead == Now().FinalAfter(data, k)
      requires info == HotTxInfo(ToHashAndHeight(finalizedHead), ToHashAndHeight(processor.state.Head()), Heights(data.blocks))
      modifies this`chain, this`exact, processor.state, db
      ensures Ready()
      ensures !r.ProcessorFailed? && (r.DatabaseFailed? ==> r.dbError.FinalAboveTop? || r.dbError.SqlError?)
      ensures !r.Done? ==> Now() == old(Now()) && db.tables == old(db.tables)
      ensures r == DatabaseFailed(FinalAboveTop) <==> FinalComesAlone(old(processor.state.Head()), data)
      ensures r.Done? && data.blocks != [] ==> processor.state.Head() == Last(data.blocks)
      ensures r.Done? ==> Flatten(delivered) == data.blocks && Moves(old(Now()), data, isOnTop, k, Now())
      ensures r == DatabaseFailed(SqlError) ==> HandlerFails(old(Now()), data, isOnTop, k)
      ensures r.Done? ==> !HandlerFails(old(Now()), data, isOnTop, k)
      ensures |data.blocks| < 200 && old(OnePartEach()) ==> OnePartEach()
    {
      hide Singles, HotParts, SplitsAt, FinalizedBy, Intact, Last, Chain, Names, Continues, Written, HandlerFails, Database.Valid;
      hide Kept, HotAbove, HeadsOf, HotSlices, SlicesOf, PartsOf, MaxBlockRef, Stands, ValidHeads, Ascending;
      hide KeptHeads, SliceHeads, Covers, Heights, Consistent, Climbing, UpTo, History, Flatten, Higher;
      ghost var final, heads, head := processor.state.finalizedHead, processor.state.unfinalizedHeads, processor.state.Head();
      ghost var status, hot, applied := db.status, db.hot, db.applied;
      ghost var known := MaxBlockRef(final, data.finalizedHead);
      MaxIsHigher(final, data.finalizedHead);
      SameStatus(heightOf, final, heads, status, hot, applied, chain, exact, data.blocks, data.finalizedHead, k);
      var outcome, slices := Transact(data, isOnTop, info, k);
      delivered := [];
      if outcome.Aborted? { return DatabaseFailed(outcome.error), delivered; }
      BatchDone(heightOf, final, heads, status, hot, applied, chain, exact, |heads|, data.blocks, isOnTop, data.finalizedHead, k,
                db.status, db.hot, db.applied, slices);
      delivered := processor.EndHotBatch(data.blocks, finalizedHead, k, slices, known);
      chain, exact := UpTo(chain, FinalHeight(head)) + data.blocks, exact && Intact(heads, status, hot, applied);
      r := Done;
    }

    /** The database's part of a batch. */
    method Transact(data: BlockBatch, isOnTop: bool, info: HotTxInfo, k: nat) returns (r: TxOutcome, slices: seq<Slice>)
      requires Ready() && IsNamed(data) && Continues(processor.state.Head(), data.blocks) && SplitsBatch(Now(), data, k)
      requires info == HotTxInfo(ToHashAndHeight(Now().FinalAfter(data, k)), ToHashAndHeight(processor.state.Head()), Heights(data.blocks))
      modifies db
      ensures db.Valid() && |processor.state.unfinalizedHeads| <= |old(db.hot)| <= |old(db.applied)|
      ensures ([old(db.status)] + old(db.hot))[|processor.state.unfinalizedHeads|] == ToHashAndHeight(processor.state.Head())
      ensures r.Aborted? ==> Now() == old(Now()) && db.tables == old(db.tables) && (r.error.FinalAboveTop? || r.error.SqlError?)
      ensures r == Aborted(FinalAboveTop) <==> FinalComesAlone(processor.state.Head(), data)
      ensures r == Aborted(SqlError) ==> HandlerFails(old(Now()), data, isOnTop, k)
      ensures r.Committed? ==>
                && !HandlerFails(old(Now()), data, isOnTop, k)
                && db.status == Higher(ToHashAndHeight(old(Now()).FinalAfter(data, k)), old(db.status))
                && slices == SlicesOf(data.blocks, db.status.height)
                && Written(old(db.status), old(db.hot), old(db.applied), |processor.state.unfinalizedHeads|,
                           data.blocks, isOnTop, db.status, db.hot, db.applied)
    {
      hide Singles, HotParts, SplitsAt, FinalizedBy, Intact, Last, Chain, Names, Continues, Database.Fails, MaxBlockRef;
      hide Kept, HotAbove, HeadsOf, HotSlices, SlicesOf, PartsOf, Stands, ValidHeads, Ascending, Heights, Consistent, Climbing;
      ghost var final, heads := processor.state.finalizedHead, processor.state.unfinalizedHeads;
      ghost var status, hot, applied := db.status, db.hot, db.applied;
      BeforeBatch(heightOf, final, heads, status, hot, applied, chain, exact, data.blocks, data.finalizedHead, k);
      SameStatus(heightOf, final, heads, status, hot, applied, chain, exact, data.blocks, data.finalizedHead, k);
      FindsHead(heightOf, final, heads, status, hot, applied, chain, exact);
      ghost var keep, parts;
      r, slices, keep, parts := db.TransactHot(info, data.blocks, isOnTop);
      if r.Committed? || r == Aborted(SqlError) {
        TakesBackForked(heightOf, final, heads, status, hot, applied, chain, exact, keep);
      }
      if r.Committed? { HotBlocksStand(db); }
    }

    /** News of a fork: the processor falls back, the database learns of it with the next batch. */
    method HandleFork(previousBlocks: seq<BlockRef>) returns (r: Result, k: int)
      requires Ready()
      modifies processor.state
      ensures Ready()
      ensures RollsBack(old(Now()).heads.Blocks(), previousBlocks, k)
      ensures r.Done? ==> Now() == old(Now()).(heads := Now().heads) && Now().heads.finalizedHead == old(Now()).heads.finalizedHead
                          && Now().heads.Blocks() == old(Now()).heads.Blocks()[..k + 1]
      ensures r.Done? <==> k >= 0 || old(processor.state.finalizedHead) == None
      ensures !r.Done? ==> r.ProcessorFailed? && Now() == old(Now())
    {
      hide Named, InOrder, History, IsRollbackIndex, Ascending;
      var outcome;
      outcome, k := processor.state.HandleFork(previousBlocks);
      FewerHeads(processor.state.finalizedHead, old(processor.state.unfinalizedHeads), processor.state.unfinalizedHeads,
                 db.status, db.hot);
      r := if outcome.Failed? then ProcessorFailed(outcome.error) else Done;
    }

    /** The process starts again and takes over what the database has. */
    method Reconnect()
      requires Ready()
      modifies processor.state
      ensures Ready() && Now() == old(Now()).(heads := Now().heads)
      ensures processor.state.finalizedHead == old(processor.state.finalizedHead)
      ensures old(processor.state.unfinalizedHeads) <= processor.state.unfinalizedHeads
      ensures Heights(processor.state.unfinalizedHeads) == db.hot
    {
      hide Named, InOrder, History, Ascending, Climbing, Heights, ToBlockRefs, ValidHeads, Stands;
      HotBlocksStand(db);
      HotHeights(db.status, db.hot, processor.state.finalizedHead, processor.state.unfinalizedHeads);
      HotAscends(db.status, db.hot, processor.state.finalizedHead);
      processor.state.Init(if db.status.height < 0 then None else Some(ToBlockRef(db.status)), ToBlockRefs(db.hot));
    }

    ghost predicate IsRun(inputs: seq<Input>, trace: seq<State>) {
      && 0 < |trace| <= |inputs| + 1
      && forall i, j {:trigger trace[i], trace[j]} :: 0 <= i && j == i + 1 && j < |trace| ==> Accepts(trace[i], inputs[i], trace[j])
    }

    lemma RunStarts(inputs: seq<Input>, s: State)
      ensures IsRun(inputs, [s])
    {
    }

    lemma RunGoesOn(inputs: seq<Input>, trace: seq<State>, t: State)
      requires IsRun(inputs, trace) && |trace| <= |inputs| && Accepts(trace[|trace| - 1], inputs[|trace| - 1], t)
      ensures IsRun(inputs, trace + [t])
    {
      hide Accepts;
    }

    /** Any run of batches, forks and restarts; the first input that is turned down ends it. */
    method Run(inputs: seq<Input>) returns (r: Result, ghost trace: seq<State>)
      requires Ready()
      requires forall input <- inputs :: input.NewBatch? ==> IsNamed(input.data)
      modifies this`chain, this`exact, processor.state, db
      ensures Ready() && IsRun(inputs, trace) && trace[0] == old(Now()) && trace[|trace| - 1] == Now()
      ensures r.Done? <==> |trace| == |inputs| + 1
      ensures !r.Done? ==> Rejects(Now(), inputs[|trace| - 1], r)
      // with fewer than 200 blocks in a batch the tables are those of a plain run over the surviving blocks
      ensures old(exact && OnePartEach()) && (forall input <- inputs :: input.NewBatch? ==> |input.data.blocks| < 200) ==>
                && exact && OnePartEach() && History(db.applied) == chain
                && Replay(db.schema, db.handler, db.initial, db.applied) == Some(db.tables)
    {
      hide Consistent, Singles, HotParts, Written, Names, History, Climbing, UpTo, SplitsAt, FinalizedBy;
      hide Accepts, Rejects, HandlerFails, IsRun;
      r, trace := Done, [Now()];
      RunStarts(inputs, Now());
      ghost var small := old(exact && OnePartEach()) && forall input <- inputs :: input.NewBatch? ==> |input.data.blocks| < 200;
      for i := 0 to |inputs|
        invariant Ready() && r.Done? && |trace| == i + 1 && IsRun(inputs, trace)
        invariant trace[0] == old(Now()) && trace[i] == Now()
        invariant small ==> exact && OnePartEach()
      {
        assert inputs[i] in inputs;
        r := Take(inputs[i]);
        if !r.Done? { break; }
        RunGoesOn(inputs, trace, Now());
        trace := trace + [Now()];
      }
      if small { ExactHistory(); }
    }

    method Take(input: Input) returns (r: Result)
      requires Ready() && (input.NewBatch? ==> IsNamed(input.data))
      modifies this`chain, this`exact, processor.state, db
      ensures Ready()
      ensures r.Done? ==> Accepts(old(Now()), input, Now())
      ensures !r.Done? ==> Now() == old(Now()) && Rejects(Now(), input, r)
      ensures old(exact && OnePartEach()) && (input.NewBatch? ==> |input.data.blocks| < 200) ==> exact && OnePartEach()
    {
      hide Consistent, Singles, HotParts, Written, Names, History, Climbing, UpTo, SplitsAt, FinalizedBy;
      hide HandlerFails, IsRollbackIndex, Ascending;
      ghost var before := Now();
      match input
      case NewBatch(data, isOnTop) =>
        if OnePartEach() { SmallIsIntact(); }
        var delivered;
        ghost var k;
        r, delivered, k := ProcessBatch(data, isOnTop);
        assert r.Done? ==> Accepts(before, input, Now());
      case ForkNews(previousBlocks) =>
        var k;
        r, k := HandleFork(previousBlocks);
        assert r.Done? ==> Now().heads.Blocks() == before.heads.Blocks()[..k + 1];
      case Restart =>
        r := Done;
        Reconnect();
    }

    lemma SmallIsIntact()
      requires Ready() && OnePartEach()
      ensures NextIsIntact()
    {
      HotBlocksStand(db);
      SinglesSettled(db.status, db.hot, db.applied);
    }

    lemma ExactHistory()
      requires Ready() && exact
      ensures History(db.applied) == chain
    {
    }
  }
}
