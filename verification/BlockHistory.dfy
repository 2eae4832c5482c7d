/**
 What the tables of a hot database stand for: the blocks of all handler calls that are still in effect.
 After a batch this should be the old history up to the base head, followed by the new blocks.
 */
module BlockHistory {
  import opened Wrappers
  import opened BatchProcessor
  import opened HotDatabase

  function History(parts: seq<Part>): seq<BlockRef> {
    Flatten(BlocksOf(parts))
  }

  /** The part of a chain up to `height`. */
  function UpTo(chain: seq<BlockRef>, height: int): seq<BlockRef> {
    chain[..FinalCount(chain, height)]
  }

  /** Every hot block is the last block of a part, in the order of the parts. */
  ghost predicate Stands(hot: seq<HashAndHeight>, applied: seq<Part>) {
    && |hot| <= |applied|
    && forall h :: 0 <= h < |hot| ==> StandsFor(hot[h], applied[|applied| - |hot| + h])
  }

  ghost predicate StandsFor(block: HashAndHeight, part: Part) {
    part.blocks != [] && ToHashAndHeight(Last(part.blocks)) == block
  }

  ghost predicate InOrder(status: HashAndHeight, hot: seq<HashAndHeight>, applied: seq<Part>) {
    && Climbing([status] + hot) && Stands(hot, applied) && Ascending(History(applied))
    && forall b <- History(Kept(applied, hot, 0)) :: b.number <= status.height
  }

  /** The first hot part holds no block that is final already. */
  ghost predicate Settled(status: HashAndHeight, hot: seq<HashAndHeight>, applied: seq<Part>)
    requires |hot| <= |applied|
  {
    hot != [] ==>
      var first := applied[|applied| - |hot|];
      first.blocks != [] && first.blocks[0].number > status.height
  }

  lemma {:induction false} HistoryConcat(a: seq<Part>, b: seq<Part>)
    ensures History(a + b) == History(a) + History(b)
  {
    if b == [] {
      assert a + b == a;
    } else {
      var n := |b| - 1;
      HistoryConcat(a, b[..n]);
      assert BlocksOf(b) == BlocksOf(b[..n]) + [b[n].blocks];
      FlattenMore(BlocksOf(b[..n]), b[n].blocks);
      assert BlocksOf(a + b) == BlocksOf(a + b[..n]) + [b[n].blocks];
      FlattenMore(BlocksOf(a + b[..n]), b[n].blocks);
    }
  }

  lemma HistoryOne(part: Part)
    ensures History([part]) == part.blocks
  {
    assert BlocksOf([part]) == [part.blocks] && Flatten([part.blocks][1..]) == [];
  }

  lemma HistorySplit(applied: seq<Part>, n: nat)
    requires n <= |applied|
    ensures History(applied) == History(applied[..n]) + History(applied[n..])
  {
    assert applied == applied[..n] + applied[n..];
    HistoryConcat(applied[..n], applied[n..]);
  }

  /** The history of parts that end with `part` ends with the last block of it. */
  lemma HistoryEnds(parts: seq<Part>, part: Part)
    requires part.blocks != []
    ensures History(parts + [part]) != [] && Last(History(parts + [part])) == Last(part.blocks)
  {
    HistoryConcat(parts, [part]);
    HistoryOne(part);
  }

  lemma HistoryStarts(part: Part, parts: seq<Part>)
    requires part.blocks != []
    ensures History([part] + parts) != [] && History([part] + parts)[0] == part.blocks[0]
  {
    HistoryConcat([part], parts);
    HistoryOne(part);
  }

  lemma AscendingSplit(a: seq<BlockRef>, b: seq<BlockRef>)
    requires Ascending(a + b)
    ensures Ascending(a) && Ascending(b)
    ensures forall x, y :: x in a && y in b ==> x.number < y.number
    ensures a != [] ==> forall x <- a :: x.number <= a[|a| - 1].number
    ensures b != [] ==> forall y <- b :: y.number >= b[0].number
  {
    assert forall i :: 0 <= i < |a| ==> (a + b)[i] == a[i];
    assert forall i :: 0 <= i < |b| ==> (a + b)[|a| + i] == b[i];
  }

  /** What stays after taking back the hot blocks above the base head lies at or below it. */
  lemma KeptBelowBase(status: HashAndHeight, hot: seq<HashAndHeight>, applied: seq<Part>, keep: nat)
    requires InOrder(status, hot, applied) && keep <= |hot|
    ensures var kept, base := History(Kept(applied, hot, keep)), ([status] + hot)[keep];
            && (forall b <- kept :: b.number <= base.height)
            && (keep > 0 ==> kept != [] && ToHashAndHeight(Last(kept)) == base)
  {
    if keep > 0 {
      var kept := Kept(applied, hot, keep);
      var n := |kept| - 1;
      assert kept == kept[..n] + [kept[n]] && StandsFor(hot[keep - 1], kept[n]);
      hide StandsFor, InOrder, History;
      KeptEnds(hot[keep - 1], kept[..n], kept[n]);
      assert Ascending(History(kept)) by {
        HistoryIsPrefix(status, hot, applied, keep);
      }
      LastIsHighest(History(kept));
    }
  }

  lemma LastIsHighest(chain: seq<BlockRef>)
    requires Ascending(chain) && chain != []
    ensures forall b <- chain :: b.number <= Last(chain).value.number
  {
  }

  lemma KeptEnds(block: HashAndHeight, parts: seq<Part>, part: Part)
    requires StandsFor(block, part)
    ensures History(parts + [part]) != [] && ToHashAndHeight(Last(History(parts + [part]))) == block
  {
    HistoryEnds(parts, part);
  }

  lemma HistoryIsPrefix(status: HashAndHeight, hot: seq<HashAndHeight>, applied: seq<Part>, keep: nat)
    requires InOrder(status, hot, applied) && keep <= |hot|
    ensures var kept, gone := History(Kept(applied, hot, keep)), History(applied[|applied| - (|hot| - keep)..]);
            && History(applied) == kept + gone && Ascending(kept) && Ascending(gone)
            && (forall x, y :: x in kept && y in gone ==> x.number < y.number)
            && (gone != [] ==> forall y <- gone :: y.number >= gone[0].number)
  {
    var n := |applied| - (|hot| - keep);
    HistorySplit(applied, n);
    hide History;
    AscendingSplit(History(applied[..n]), History(applied[n..]));
  }

  /** What is taken back is never empty, and starts with the first block of the first part taken back. */
  lemma GoneStarts(hot: seq<HashAndHeight>, applied: seq<Part>, keep: nat)
    requires Stands(hot, applied) && keep < |hot|
    ensures var n := |applied| - (|hot| - keep);
            && applied[n].blocks != [] && History(applied[n..]) != [] && History(applied[n..])[0] == applied[n].blocks[0]
  {
    var n := |applied| - (|hot| - keep);
    assert StandsFor(hot[keep], applied[n]);
    assert applied[n..] == [applied[n]] + applied[n + 1..];
    HistoryStarts(applied[n], applied[n + 1..]);
  }

  /** A chain cut where the heights pass `height`. */
  lemma UpToCut(a: seq<BlockRef>, b: seq<BlockRef>, height: int)
    requires Ascending(a + b) && forall x <- a :: x.number <= height
    ensures UpTo(a + b, height) == a <==> b == [] || b[0].number > height
  {
    var chain := a + b;
    var n := FinalCount(chain, height);
    FirstBlockAbove(chain, height);
    assert forall i :: 0 <= i < |a| ==> chain[i] == a[i] && a[i] in a;
    assert b != [] ==> chain[|a|] == b[0];
  }

  /** The history, cut where blocks are taken back; nothing that stays lies above the base head. */
  lemma HistoryAtBase(status: HashAndHeight, hot: seq<HashAndHeight>, applied: seq<Part>, keep: nat)
    requires InOrder(status, hot, applied) && keep <= |hot|
    ensures var kept, gone := History(Kept(applied, hot, keep)), Gone(applied, hot, keep);
            && History(applied) == kept + gone && Ascending(kept + gone)
            && forall x <- kept :: x.number <= ([status] + hot)[keep].height
  {
    hide History, Kept, Ascending, StandsFor, Climbing;
    KeptBelowBase(status, hot, applied, keep);
    CutHistory(hot, applied, keep);
  }

  /** The blocks that are taken back. */
  ghost function Gone(applied: seq<Part>, hot: seq<HashAndHeight>, keep: nat): seq<BlockRef>
    requires keep <= |hot| <= |applied|
  {
    History(applied[|applied| - (|hot| - keep)..])
  }

  lemma CutHistory(hot: seq<HashAndHeight>, applied: seq<Part>, keep: nat)
    requires keep <= |hot| <= |applied|
    ensures History(applied) == History(Kept(applied, hot, keep)) + Gone(applied, hot, keep)
  {
    hide History;
    HistorySplit(applied, |applied| - (|hot| - keep));
  }

  lemma GoneAboveHotBase(status: HashAndHeight, hot: seq<HashAndHeight>, applied: seq<Part>, keep: nat)
    requires InOrder(status, hot, applied) && 0 < keep <= |hot|
    ensures var gone := Gone(applied, hot, keep); gone == [] || gone[0].number > ([status] + hot)[keep].height
  {
    hide History, StandsFor, Climbing;
    var kept, gone := History(Kept(applied, hot, keep)), Gone(applied, hot, keep);
    KeptBelowBase(status, hot, applied, keep);
    CutHistory(hot, applied, keep);
    if gone != [] {
      assert (kept + gone)[|kept| - 1] == kept[|kept| - 1] && (kept + gone)[|kept|] == gone[0];
    }
  }

  lemma GoneAboveStatus(status: HashAndHeight, hot: seq<HashAndHeight>, applied: seq<Part>)
    requires InOrder(status, hot, applied)
    ensures (Gone(applied, hot, 0) == [] || Gone(applied, hot, 0)[0].number > status.height) <==> Settled(status, hot, applied)
  {
    hide History, Climbing, Ascending, StandsFor;
    if hot == [] {
      assert applied[|applied|..] == [];
      NoHistory();
    } else {
      GoneStarts(hot, applied, 0);
    }
  }

  lemma NoHistory()
    ensures History([]) == []
  {
  }

  /**
   Taking back the blocks above the base head leaves exactly the history up to the base head, provided
   the base head is a hot block, or no final block shares a part with the first hot block.
   */
  lemma TakenBack(status: HashAndHeight, hot: seq<HashAndHeight>, applied: seq<Part>, keep: nat)
    requires InOrder(status, hot, applied) && keep <= |hot|
    ensures (History(Kept(applied, hot, keep)) == UpTo(History(applied), ([status] + hot)[keep].height))
            <==> (keep > 0 || Settled(status, hot, applied))
  {
    hide History, Kept, UpTo, Gone, Settled, Climbing, Ascending, StandsFor;
    HistoryAtBase(status, hot, applied, keep);
    UpToCut(History(Kept(applied, hot, keep)), Gone(applied, hot, keep), ([status] + hot)[keep].height);
    if keep > 0 {
      GoneAboveHotBase(status, hot, applied, keep);
    } else {
      GoneAboveStatus(status, hot, applied);
    }
  }

  /**
   After a batch the tables stand for the history up to the base head followed by the new blocks, just
   when the base head is a hot block or the first hot part held no final block.
   */
  lemma BatchHistory(status: HashAndHeight, hot: seq<HashAndHeight>, applied: seq<Part>, keep: nat,
                     blocks: seq<BlockRef>, parts: seq<Part>)
    requires InOrder(status, hot, applied) && keep <= |hot| && History(parts) == blocks
    ensures (History(Kept(applied, hot, keep) + parts) == UpTo(History(applied), ([status] + hot)[keep].height) + blocks)
            <==> (keep > 0 || Settled(status, hot, applied))
  {
    TakenBack(status, hot, applied, keep);
    HistoryConcat(Kept(applied, hot, keep), parts);
    hide History, Kept, UpTo, InOrder, Settled;
    SameTail(History(Kept(applied, hot, keep)), UpTo(History(applied), ([status] + hot)[keep].height), blocks);
  }

  lemma SameTail<T>(a: seq<T>, b: seq<T>, c: seq<T>)
    ensures a + c == b + c <==> a == b
  {
    if a + c == b + c {
      assert a == (a + c)[..|a|] && b == (b + c)[..|b|];
    }
  }

  // ---------- What a batch keeps ----------

  lemma {:induction false} GroupsHistory(blocks: seq<BlockRef>, from: nat, size: nat, isOnTop: bool)
    requires from <= |blocks| && size > 0
    ensures History(PartsOf(blocks, Groups(from, |blocks|, size), isOnTop)) == blocks[from..]
    decreases |blocks| - from
  {
    var slices := Groups(from, |blocks|, size);
    if from < |blocks| {
      var end := slices[0].end;
      var rest := Groups(end, |blocks|, size);
      GroupsHistory(blocks, end, size, isOnTop);
      assert PartsOf(blocks, slices, isOnTop) == [PartOf(blocks, slices[0], isOnTop)] + PartsOf(blocks, rest, isOnTop);
      HistoryConcat([PartOf(blocks, slices[0], isOnTop)], PartsOf(blocks, rest, isOnTop));
      HistoryOne(PartOf(blocks, slices[0], isOnTop));
      assert blocks[from..end] + blocks[end..] == blocks[from..];
    }
  }

  /** The handler gets every block of a batch once, in order. */
  lemma BatchParts(blocks: seq<BlockRef>, height: int, isOnTop: bool)
    ensures var n, hotParts := FinalCount(blocks, height), PartsOf(blocks, HotSlices(blocks, height), isOnTop);
            && PartsOf(blocks, SlicesOf(blocks, height), isOnTop) == FinalParts(blocks, n, isOnTop) + hotParts
            && History(FinalParts(blocks, n, isOnTop)) == blocks[..n]
            && History(PartsOf(blocks, SlicesOf(blocks, height), isOnTop)) == blocks
            && |hotParts| == |HotSlices(blocks, height)|
  {
    hide PartsOf, SlicesOf, HotSlices, History, FinalCount, GroupSize, FinalParts;
    var n := FinalCount(blocks, height);
    var hotParts := PartsOf(blocks, HotSlices(blocks, height), isOnTop);
    HotPartsHistory(blocks, height, isOnTop);
    FinalThenHot(blocks, height, isOnTop);
    FinalHistoryOf(blocks, n, isOnTop);
    HistoryConcat(FinalParts(blocks, n, isOnTop), hotParts);
    assert blocks[..n] + blocks[n..] == blocks;
  }

  lemma HotPartsHistory(blocks: seq<BlockRef>, height: int, isOnTop: bool)
    ensures var hotParts := PartsOf(blocks, HotSlices(blocks, height), isOnTop);
            History(hotParts) == blocks[FinalCount(blocks, height)..] && |hotParts| == |HotSlices(blocks, height)|
  {
    hide History, FinalCount, GroupSize, Groups;
    var n := FinalCount(blocks, height);
    GroupsHistory(blocks, n, GroupSize(|blocks| - n), isOnTop);
  }

  lemma FinalThenHot(blocks: seq<BlockRef>, height: int, isOnTop: bool)
    ensures PartsOf(blocks, SlicesOf(blocks, height), isOnTop)
         == FinalParts(blocks, FinalCount(blocks, height), isOnTop) + PartsOf(blocks, HotSlices(blocks, height), isOnTop)
  {
    hide FinalCount, HotSlices;
  }

  lemma FinalHistoryOf(blocks: seq<BlockRef>, n: nat, isOnTop: bool)
    requires n <= |blocks|
    ensures History(FinalParts(blocks, n, isOnTop)) == blocks[..n]
  {
    if n > 0 {
      HistoryOne(Part(blocks[..n], isOnTop));
    } else {
      NoHistory();
    }
  }

  function FinalParts(blocks: seq<BlockRef>, n: nat, isOnTop: bool): seq<Part>
    requires n <= |blocks|
  {
    if n > 0 then [Part(blocks[..n], isOnTop)] else []
  }

  /** `r` is the end of the chain, and starts where the heights pass `height`. */
  ghost predicate EndsAbove(chain: seq<HashAndHeight>, r: seq<HashAndHeight>, height: int) {
    && |r| <= |chain| && r == chain[|chain| - |r|..]
    && (|r| < |chain| ==> chain[|chain| - |r| - 1].height <= height)
    && (r != [] ==> chain[|chain| - |r|].height > height)
  }

  lemma {:induction false} HotAboveIsSuffix(chain: seq<HashAndHeight>, height: int)
    ensures EndsAbove(chain, HotAbove(chain, height), height)
  {
    hide HotAbove, EndsAbove;
    HotAboveStep(chain, height);
    if chain != [] && chain[0].height <= height {
      HotAboveIsSuffix(chain[1..], height);
      LongerSuffix(chain, HotAbove(chain[1..], height), height);
    } else {
      WholeSuffix(chain, height);
    }
  }

  lemma HotAboveStep(chain: seq<HashAndHeight>, height: int)
    ensures HotAbove(chain, height) == if chain != [] && chain[0].height <= height then HotAbove(chain[1..], height) else chain
  {
  }

  lemma WholeSuffix(chain: seq<HashAndHeight>, height: int)
    requires chain != [] ==> chain[0].height > height
    ensures EndsAbove(chain, chain, height)
  {
  }

  lemma LongerSuffix(chain: seq<HashAndHeight>, r: seq<HashAndHeight>, height: int)
    requires chain != [] && chain[0].height <= height && EndsAbove(chain[1..], r, height)
    ensures EndsAbove(chain, r, height)
  {
    var n := |chain| - |r|;
    assert chain[1..][n - 1..] == chain[n..];
  }

  /** With a final block in the batch no older hot block stays hot. */
  lemma NoOlderHot(status: HashAndHeight, hot: seq<HashAndHeight>, keep: nat, blocks: seq<BlockRef>, height: int)
    requires Climbing([status] + hot) && keep <= |hot| && FinalCount(blocks, height) > 0
    requires ([status] + hot)[keep].height < blocks[0].number
    ensures HotAbove(hot[..keep], height) == []
  {
    hide HotAbove, FinalCount;
    var chain := [status] + hot;
    FirstBlockAbove(blocks, height);
    forall h | 0 <= h < keep ensures hot[..keep][h].height <= height {
      assert hot[..keep][h] == chain[h + 1];
    }
    HotAboveFrom(hot[..keep], height, keep);
  }

  /** Where final and hot parts meet after a batch. */
  lemma NewBoundary(kept: seq<Part>, finalParts: seq<Part>, hotParts: seq<Part>, older: nat)
    requires older <= |kept| && (finalParts != [] ==> older == 0)
    ensures var applied := kept + (finalParts + hotParts);
            var k := |applied| - (older + |hotParts|);
            && applied[..k] == kept[..|kept| - older] + finalParts
            && applied[k..] == kept[|kept| - older..] + hotParts
  {
  }

  lemma KeptParts(hot: seq<HashAndHeight>, applied: seq<Part>, keep: nat, d: nat)
    requires d <= keep <= |hot| <= |applied|
    ensures var kept := Kept(applied, hot, keep);
            && kept[..|kept| - (keep - d)] == Kept(applied, hot, d)
            && kept[|kept| - (keep - d)..] == HotParts(hot, applied)[d..keep]
  {
  }

  lemma Boundary(hot: seq<HashAndHeight>, applied: seq<Part>, keep: nat, d: nat, finalParts: seq<Part>, hotParts: seq<Part>,
                 newHot: seq<HashAndHeight>)
    requires d <= keep <= |hot| <= |applied| && (finalParts != [] ==> d == keep) && |newHot| == keep - d + |hotParts|
    ensures var newApplied := Kept(applied, hot, keep) + (finalParts + hotParts);
            && |newHot| <= |newApplied|
            && Kept(newApplied, newHot, 0) == Kept(applied, hot, d) + finalParts
            && HotParts(newHot, newApplied) == HotParts(hot, applied)[d..keep] + hotParts
  {
    KeptParts(hot, applied, keep, d);
    NewBoundary(Kept(applied, hot, keep), finalParts, hotParts, keep - d);
  }

  /** The parts that are final after a batch, and those that are hot. */
  lemma BatchBoundary(status: HashAndHeight, hot: seq<HashAndHeight>, applied: seq<Part>, keep: nat,
                      blocks: seq<BlockRef>, isOnTop: bool, height: int)
    requires Climbing([status] + hot) && keep <= |hot| <= |applied|
    requires blocks != [] ==> ([status] + hot)[keep].height < blocks[0].number
    ensures var newHot := HotAbove(hot[..keep], height) + HeadsOf(blocks, HotSlices(blocks, height));
            var newApplied := Kept(applied, hot, keep) + PartsOf(blocks, SlicesOf(blocks, height), isOnTop);
            var d := keep - |HotAbove(hot[..keep], height)|;
            && 0 <= d <= keep && |newHot| <= |newApplied|
            && Kept(newApplied, newHot, 0) == Kept(applied, hot, d) + FinalParts(blocks, FinalCount(blocks, height), isOnTop)
            && HotParts(newHot, newApplied)
                 == HotParts(hot, applied)[d..keep] + PartsOf(blocks, HotSlices(blocks, height), isOnTop)
  {
    var older, slices, n := HotAbove(hot[..keep], height), HotSlices(blocks, height), FinalCount(blocks, height);
    BatchParts(blocks, height, isOnTop);
    HotAboveIsSuffix(hot[..keep], height);
    if n > 0 {
      NoOlderHot(status, hot, keep, blocks, height);
    }
    var heads := HeadsOf(blocks, slices);
    assert |heads| == |slices|;
    hide HotAbove, PartsOf, HeadsOf, SlicesOf, HotSlices, FinalCount, History, Climbing, Kept, HotParts;
    Boundary(hot, applied, keep, keep - |older|, FinalParts(blocks, n, isOnTop), PartsOf(blocks, slices, isOnTop), older + heads);
  }

  /** The parts the hot blocks stand for. */
  function HotParts(hot: seq<HashAndHeight>, applied: seq<Part>): seq<Part>
    requires |hot| <= |applied|
  {
    applied[|applied| - |hot|..]
  }

  /** The parts that are final after a batch hold no block above the new status. */
  lemma FinalHistory(status: HashAndHeight, hot: seq<HashAndHeight>, applied: seq<Part>, keep: nat,
                     blocks: seq<BlockRef>, isOnTop: bool, height: int)
    requires InOrder(status, hot, applied) && keep <= |hot| && status.height <= height
    requires blocks != [] ==> ([status] + hot)[keep].height < blocks[0].number
    ensures var newHot := HotAbove(hot[..keep], height) + HeadsOf(blocks, HotSlices(blocks, height));
            var newApplied := Kept(applied, hot, keep) + PartsOf(blocks, SlicesOf(blocks, height), isOnTop);
            |newHot| <= |newApplied| && forall b <- History(Kept(newApplied, newHot, 0)) :: b.number <= height
  {
    var n, d := FinalCount(blocks, height), keep - |HotAbove(hot[..keep], height)|;
    BatchBoundary(status, hot, applied, keep, blocks, isOnTop, height);
    BatchParts(blocks, height, isOnTop);
    FirstBlockAbove(blocks, height);
    NowFinal(status, hot, applied, keep, height);
    hide HotAbove, PartsOf, HeadsOf, Groups, SlicesOf, HotSlices, History, InOrder, Kept, FinalParts, FinalCount;
    HistoryConcat(Kept(applied, hot, d), FinalParts(blocks, n, isOnTop));
  }

  /** Hot blocks at or below `height`, and all final ones, have histories at or below it. */
  lemma NowFinal(status: HashAndHeight, hot: seq<HashAndHeight>, applied: seq<Part>, keep: nat, height: int)
    requires InOrder(status, hot, applied) && keep <= |hot| && status.height <= height
    ensures var d := keep - |HotAbove(hot[..keep], height)|;
            0 <= d <= |hot| && forall b <- History(Kept(applied, hot, d)) :: b.number <= height
  {
    hide History, Climbing, Stands, Kept, Ascending;
    HotAboveIsSuffix(hot[..keep], height);
    var d := keep - |HotAbove(hot[..keep], height)|;
    KeptBelowBase(status, hot, applied, d);
    assert ([status] + hot)[d].height <= height by {
      assert d > 0 ==> ([status] + hot)[d] == hot[..keep][d - 1];
    }
  }

  /** A batch keeps the order of the history. */
  lemma BatchInOrder(status: HashAndHeight, hot: seq<HashAndHeight>, applied: seq<Part>, keep: nat,
                     blocks: seq<BlockRef>, isOnTop: bool, final: HashAndHeight)
    requires InOrder(status, hot, applied) && keep <= |hot| && status.height <= final.height && Ascending(blocks)
    requires blocks != [] ==> ([status] + hot)[keep].height < blocks[0].number
    requires var newHot := HotAbove(hot[..keep], final.height) + HeadsOf(blocks, HotSlices(blocks, final.height));
             var newApplied := Kept(applied, hot, keep) + PartsOf(blocks, SlicesOf(blocks, final.height), isOnTop);
             Climbing([final] + newHot) && Stands(newHot, newApplied)
    ensures var newHot := HotAbove(hot[..keep], final.height) + HeadsOf(blocks, HotSlices(blocks, final.height));
            var newApplied := Kept(applied, hot, keep) + PartsOf(blocks, SlicesOf(blocks, final.height), isOnTop);
            InOrder(final, newHot, newApplied)
  {
    FinalHistory(status, hot, applied, keep, blocks, isOnTop, final.height);
    BatchParts(blocks, final.height, isOnTop);
    var kept := Kept(applied, hot, keep);
    HistoryConcat(kept, PartsOf(blocks, SlicesOf(blocks, final.height), isOnTop));
    KeptBelowBase(status, hot, applied, keep);
    HistoryIsPrefix(status, hot, applied, keep);
    hide HotAbove, PartsOf, HeadsOf, SlicesOf, HotSlices, History, Stands, Climbing, Kept;
    LowestFirst(blocks);
    AscendingConcat(History(kept), blocks);
  }

  lemma LowestFirst(blocks: seq<BlockRef>)
    requires Ascending(blocks)
    ensures forall b <- blocks :: blocks[0].number <= b.number
  {
  }

  // ---------- Batches with fewer than 200 hot blocks ----------

  /** Every hot block has a part of its own. */
  ghost predicate Singles(parts: seq<Part>) {
    forall part <- parts :: |part.blocks| == 1
  }

  lemma SinglesSettled(status: HashAndHeight, hot: seq<HashAndHeight>, applied: seq<Part>)
    requires Climbing([status] + hot) && Stands(hot, applied) && Singles(HotParts(hot, applied))
    ensures Settled(status, hot, applied)
  {
    if hot != [] {
      var first := applied[|applied| - |hot| + 0];
      assert first == HotParts(hot, applied)[0] && first in HotParts(hot, applied);
      assert StandsFor(hot[0], first);
      var chain := [status] + hot;
      assert chain[0] == status && chain[1] == hot[0];
    }
  }

  lemma {:induction false} SmallGroups(blocks: seq<BlockRef>, from: nat, isOnTop: bool)
    requires from <= |blocks|
    ensures Singles(PartsOf(blocks, Groups(from, |blocks|, 1), isOnTop))
    decreases |blocks| - from
  {
    if from < |blocks| {
      var slices, rest := Groups(from, |blocks|, 1), Groups(from + 1, |blocks|, 1);
      SmallGroups(blocks, from + 1, isOnTop);
      assert PartsOf(blocks, slices, isOnTop) == [PartOf(blocks, slices[0], isOnTop)] + PartsOf(blocks, rest, isOnTop);
    }
  }

  /** A batch with fewer than 200 hot blocks gives each of them a part of its own. */
  lemma BatchSingles(status: HashAndHeight, hot: seq<HashAndHeight>, applied: seq<Part>, keep: nat,
                     blocks: seq<BlockRef>, isOnTop: bool, height: int)
    requires Climbing([status] + hot) && keep <= |hot| <= |applied| && Singles(HotParts(hot, applied))
    requires blocks != [] ==> ([status] + hot)[keep].height < blocks[0].number
    requires |blocks| - FinalCount(blocks, height) < 200
    ensures var newHot := HotAbove(hot[..keep], height) + HeadsOf(blocks, HotSlices(blocks, height));
            var newApplied := Kept(applied, hot, keep) + PartsOf(blocks, SlicesOf(blocks, height), isOnTop);
            |newHot| <= |newApplied| && Singles(HotParts(newHot, newApplied))
  {
    BatchBoundary(status, hot, applied, keep, blocks, isOnTop, height);
    SmallGroups(blocks, FinalCount(blocks, height), isOnTop);
    var d := keep - |HotAbove(hot[..keep], height)|;
    SinglesConcat(HotParts(hot, applied), d, keep, PartsOf(blocks, HotSlices(blocks, height), isOnTop));
  }

  lemma SinglesConcat(a: seq<Part>, i: nat, j: nat, b: seq<Part>)
    requires i <= j <= |a| && Singles(a) && Singles(b)
    ensures Singles(a[i..j] + b)
  {
  }
}
