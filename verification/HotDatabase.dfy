/**
 The hot database: it commits batches of blocks together with what the data handler wrote for them,
 and takes back the blocks a fork has orphaned.  A batch is one transaction; a failed transaction
 leaves everything as it was.
 */
module HotDatabase {
  import opened Wrappers
  import opened BatchProcessor
  import opened ChangeLog

  /** One call of the data handler: the blocks it was given, and whether they were the top of the chain. */
  datatype Part = Part(blocks: seq<BlockRef>, isOnTop: bool)

  /** The operations a data handler carries out, given the rows it finds. */
  type Handler = (Tables, Part) -> seq<Operation>

  /** The rows after handling the given parts, one after the other. */
  function Replay(schema: Schema, handler: Handler, s: Tables, parts: seq<Part>): Option<Tables>
    decreases |parts|
  {
    if parts == [] then Some(s)
    else
      var n := |parts| - 1;
      var before := Replay(schema, handler, s, parts[..n]);
      if before == None then None else Execute(schema, before.value, handler(before.value, parts[n]))
  }

  ghost predicate Climbing(chain: seq<HashAndHeight>) {
    forall i, j :: 0 <= i < j < |chain| ==> chain[i].height < chain[j].height
  }

  lemma ClimbsUntil(chain: seq<HashAndHeight>, n: nat)
    requires Climbing(chain) && n <= |chain|
    ensures Climbing(chain[..n])
  {
  }

  datatype TxError = BrokenChain | FinalAboveTop | Race | SqlError

  datatype TxOutcome = Committed | Aborted(error: TxError)

  class Database {
    const schema: Schema
    const handler: Handler
    var status: HashAndHeight
    var hot: seq<HashAndHeight>
    var tables: Tables
    var changeLog: map<int, seq<Change>>

    ghost const initial: Tables
    ghost var applied: seq<Part>  // the parts whose effects are in the tables

    constructor (schema: Schema, handler: Handler, tables: Tables)
      requires WellFormed(schema, tables)
      ensures this.schema == schema && this.handler == handler && initial == tables
      ensures Valid() && status == HashAndHeight(-1, "0x") && hot == [] && applied == [] && this.tables == tables
    {
      this.schema, this.handler, this.tables := schema, handler, tables;
      status, hot, changeLog := HashAndHeight(-1, "0x"), [], map[];
      initial, applied := tables, [];
    }

    ghost function After(parts: seq<Part>): Option<Tables> {
      Replay(schema, handler, initial, parts)
    }

    /** The last `t` hot blocks are the last `t` parts applied, and the change log can take them back. */
    ghost predicate Tracked(t: nat)
      reads this`hot, this`applied, this`tables, this`changeLog
    {
      && t <= |hot| && t <= |applied|
      && After(applied) == Some(tables) && WellFormed(schema, tables)
      && AllTracked(hot, applied, changeLog, t)
    }

    ghost predicate AllTracked(hot: seq<HashAndHeight>, applied: seq<Part>, log: map<int, seq<Change>>, t: nat) {
      && t <= |hot| && t <= |applied|
      && forall h {:trigger hot[h]} :: |hot| - t <= h < |hot| ==>
           TrackedPart(hot[h], applied[..|applied| - (|hot| - h) + 1], log)
    }

    lemma TrackedWithoutLast(hot: seq<HashAndHeight>, applied: seq<Part>, log: map<int, seq<Change>>, t: nat)
      requires t > 0 && AllTracked(hot, applied, log, t) && Climbing(hot)
      ensures TrackedPart(hot[|hot| - 1], applied, log)
      ensures AllTracked(hot[..|hot| - 1], applied[..|applied| - 1], log - {hot[|hot| - 1].height}, t - 1)
    {
      hide TrackedPart;
      var block, shorter, sooner := hot[|hot| - 1], hot[..|hot| - 1], applied[..|applied| - 1];
      assert applied[..|applied|] == applied;
      forall h | |shorter| - (t - 1) <= h < |shorter|
        ensures TrackedPart(shorter[h], sooner[..|sooner| - (|shorter| - h) + 1], log - {block.height})
      {
        var k := |sooner| - (|shorter| - h) + 1;
        assert shorter[h] == hot[h] && hot[h].height != block.height;
        assert sooner[..k] == applied[..k];
        TrackedWithout(hot[h], applied[..k], log, block.height);
      }
    }

    lemma TrackedWithout(block: HashAndHeight, parts: seq<Part>, log: map<int, seq<Change>>, height: int)
      requires TrackedPart(block, parts, log) && block.height != height
      ensures TrackedPart(block, parts, log - {height})
    {
      hide After;
    }

    lemma TrackedWithOneMore(hot: seq<HashAndHeight>, applied: seq<Part>, log: map<int, seq<Change>>, t: nat,
                             part: Part, changes: seq<Change>)
      requires AllTracked(hot, applied, log, t)
      requires part.blocks != []
      requires var block := ToHashAndHeight(Last(part.blocks));
               && (forall h :: 0 <= h < |hot| ==> hot[h].height != block.height)
               && TrackedPart(block, applied + [part], log[block.height := changes])
      ensures var block := ToHashAndHeight(Last(part.blocks));
              AllTracked(hot + [block], applied + [part], log[block.height := changes], t + 1)
    {
      hide TrackedPart;
      var block := ToHashAndHeight(Last(part.blocks));
      var more, later, newLog := hot + [block], applied + [part], log[block.height := changes];
      assert later[..|later|] == later;
      forall h | |more| - (t + 1) <= h < |more|
        ensures TrackedPart(more[h], later[..|later| - (|more| - h) + 1], newLog)
      {
        if h < |hot| {
          var k := |later| - (|more| - h) + 1;
          assert more[h] == hot[h] && later[..k] == applied[..k];
          StaysTracked(hot[h], applied[..k], log, block.height, changes);
        }
      }
    }

    lemma StaysTracked(block: HashAndHeight, parts: seq<Part>, log: map<int, seq<Change>>, height: int, changes: seq<Change>)
      requires TrackedPart(block, parts, log) && block.height != height
      ensures TrackedPart(block, parts, log[height := changes])
    {
      hide After;
    }

    /** Hot block `block` stands for the last of `parts`, whose effects the change log undoes. */
    ghost predicate TrackedPart(block: HashAndHeight, parts: seq<Part>, log: map<int, seq<Change>>)
    {
      && parts != [] && block.height in log
      && var part, sooner := parts[|parts| - 1], parts[..|parts| - 1];
         && part.blocks != [] && ToHashAndHeight(Last(part.blocks)) == block
         && After(sooner) != None && WellFormed(schema, After(sooner).value)
         && After(parts) != None
         && UndoAll(schema, After(parts).value, log[block.height]) == After(sooner)
    }

    ghost predicate Valid()
      reads this
    {
      Climbing([status] + hot) && Tracked(|hot|)
    }

    /** Takes back the latest hot block. */
    method RollbackBlock(ghost t: nat)
      requires t > 0 && Tracked(t) && Climbing(hot)
      modifies this
      ensures hot == old(hot)[..|old(hot)| - 1] && applied == old(applied)[..|old(applied)| - 1] && status == old(status)
      ensures Tracked(t - 1)
    {
      hide AllTracked;
      var block := hot[|hot| - 1];
      ghost var n := |applied| - 1;
      TrackedWithoutLast(hot, applied, changeLog, t);
      var changes := changeLog[block.height];
      while changes != []
        invariant UndoAll(schema, tables, changes) == After(old(applied)[..n])
        invariant unchanged(this`status, this`hot, this`applied, this`changeLog)
        decreases |changes|
      {
        var change := changes[|changes| - 1];
        tables := Undo(schema, tables, change).value;
        changes := changes[..|changes| - 1];
      }
      hot := hot[..|hot| - 1];
      changeLog := changeLog - {block.height};
      applied := applied[..n];
    }

    /** Takes back all hot blocks from position `keep` on. */
    method RollbackTo(keep: nat)
      requires keep <= |hot| && Tracked(|hot|) && Climbing(hot)
      modifies this
      ensures hot == old(hot)[..keep] && status == old(status)
      ensures applied == old(applied)[..|old(applied)| - (|old(hot)| - keep)]
      ensures Tracked(keep)
    {
      hide Tracked, Climbing;
      EachHasPart(|hot|);
      while |hot| > keep
        invariant keep <= |hot| <= |old(hot)| && hot == old(hot)[..|hot|] && status == old(status)
        invariant |old(hot)| <= |old(applied)| && applied == old(applied)[..|old(applied)| - (|old(hot)| - |hot|)]
        invariant Tracked(|hot|) && Climbing(hot)
        decreases |hot|
      {
        ClimbsUntil(hot, |hot| - 1);
        RollbackBlock(|hot|);
      }
    }

    lemma EachHasPart(t: nat)
      requires Tracked(t)
      ensures t <= |applied|
    {
    }

    /** Calls the data handler; what it changes is tracked before it happens. */
    method HandlePart(part: Part) returns (ok: bool, changes: seq<Change>)
      modifies this`tables
      ensures ok <==> Execute(schema, old(tables), handler(old(tables), part)) != None
      ensures ok ==> Some(tables) == Execute(schema, old(tables), handler(old(tables), part))
      ensures ok ==> changes == TrackScript(schema, old(tables), handler(old(tables), part))
    {
      var ops := handler(tables, part);
      changes := [];
      var n := 0;
      while n < |ops|
        invariant 0 <= n <= |ops|
        invariant Execute(schema, old(tables), ops) == Execute(schema, tables, ops[n..])
        invariant TrackScript(schema, old(tables), ops) == changes + TrackScript(schema, tables, ops[n..])
      {
        var tracked := Track(tables, ops[n]);
        var next := Perform(schema, tables, ops[n]);
        assert ops[n..][1..] == ops[n + 1..];
        if next == None { return false, changes; }
        changes := changes + tracked;
        tables := next.value;
        n := n + 1;
      }
      return true, changes;
    }

    /** Handles blocks that are final: nothing is kept to take them back. */
    method CommitFinal(part: Part) returns (ok: bool)
      requires Tracked(0) && part.blocks != []
      modifies this`tables, this`applied
      ensures ok ==> applied == old(applied) + [part] && Tracked(0)
      ensures !ok ==> After(old(applied) + [part]) == None
    {
      ghost var before := tables;
      AfterOneMore(applied, part);
      var changes;
      ok, changes := HandlePart(part);
      if ok {
        UndoScript(schema, before, handler(before, part));
        applied := applied + [part];
      }
    }

    lemma AfterOneMore(parts: seq<Part>, part: Part)
      requires After(parts) != None
      ensures After(parts + [part]) == Execute(schema, After(parts).value, handler(After(parts).value, part))
    {
      assert (parts + [part])[..|parts|] == parts;
    }

    /** Handles blocks that may have to be taken back, under the name of the last of them. */
    method CommitHot(part: Part, ghost t: nat) returns (ok: bool)
      requires Tracked(t) && Climbing(hot) && part.blocks != []
      requires hot != [] ==> hot[|hot| - 1].height < part.blocks[|part.blocks| - 1].number
      modifies this
      ensures status == old(status)
      ensures ok ==> applied == old(applied) + [part] && hot == old(hot) + [ToHashAndHeight(Last(part.blocks))]
      ensures ok ==> Climbing(hot) && Tracked(t + 1)
      ensures !ok ==> After(old(applied) + [part]) == None
    {
      hide AllTracked, Climbing;
      ghost var before := tables;
      AfterOneMore(applied, part);
      var block := ToHashAndHeight(Last(part.blocks));
      ClimbsTo(hot, block);
      hot := hot + [block];
      var changes;
      ok, changes := HandlePart(part);
      if ok {
        UndoScript(schema, before, handler(before, part));
        assert (applied + [part])[..|applied|] == applied;
        TrackedWithOneMore(old(hot), applied, changeLog, t, part, changes);
        changeLog := changeLog[block.height := changes];
        applied := applied + [part];
      }
    }

    /** Handles the blocks from `from` on in groups of about a hundredth of them. */
    method CommitGroups(blocks: seq<BlockRef>, from: nat, isOnTop: bool, ghost t: nat)
        returns (ok: bool, slices: seq<Slice>, ghost parts: seq<Part>)
      requires Tracked(t) && Climbing(hot) && from <= |blocks| && Ascending(blocks)
      requires hot != [] && from < |blocks| ==> hot[|hot| - 1].height < blocks[from].number
      modifies this
      ensures status == old(status)
      ensures ok ==> slices == Groups(from, |blocks|, GroupSize(|blocks| - from))
      ensures ok ==> Tracked(t + |parts|) && Climbing(hot) && parts == PartsOf(blocks, slices, isOnTop)
      ensures ok ==> hot == old(hot) + HeadsOf(blocks, slices) && applied == old(applied) + parts
      ensures !ok ==> After(old(applied) + PartsOf(blocks, Groups(from, |blocks|, GroupSize(|blocks| - from)), isOnTop)) == None
    {
      hide Tracked, Climbing, Ascending, Grouped, After, Groups, HeadsOf, PartsOf, GroupSize, Last;
      var groupSize := GroupSize(|blocks| - from);
      ok, slices, parts := true, [], [];
      var i := from;
      GroupsStart(blocks, from, isOnTop, hot, applied);
      while i < |blocks|
        invariant from <= i <= |blocks| && status == old(status)
        invariant Tracked(t + |parts|) && Climbing(hot)
        invariant hot != [] && i < |blocks| ==> hot[|hot| - 1].height < blocks[i].number
        invariant Grouped(blocks, from, i, isOnTop, slices, parts, old(hot), hot, old(applied), applied)
      {
        var sliceEnd := if i + groupSize < |blocks| then i + groupSize else |blocks|;
        var part := Part(blocks[i..sliceEnd], isOnTop);
        GroupEnds(blocks, i, sliceEnd);
        GroupMore(blocks, from, i, isOnTop, slices, parts, old(hot), hot, old(applied), applied);
        ghost var newHot, newApplied := hot + [ToHashAndHeight(Some(blocks[sliceEnd - 1]))], applied + [part];
        assert Grouped(blocks, from, sliceEnd, isOnTop, slices + [Slice(i, sliceEnd)], parts + [part], old(hot), newHot,
                       old(applied), newApplied);
        ok := CommitHot(part, t + |parts|);
        parts, slices := parts + [part], slices + [Slice(i, sliceEnd)];
        if !ok {
          assert After(newApplied) == None;
          GroupFails(blocks, from, sliceEnd, isOnTop, slices, parts, old(hot), newHot, old(applied), newApplied);
          return;
        }
        i := sliceEnd;
      }
      GroupsEnd(blocks, from, isOnTop, slices, parts, old(hot), hot, old(applied), applied);
    }

    /** The blocks up to `i` have been handled in groups. */
    static ghost predicate Grouped(blocks: seq<BlockRef>, from: nat, i: nat, isOnTop: bool, slices: seq<Slice>, parts: seq<Part>,
                                   hotBefore: seq<HashAndHeight>, hot: seq<HashAndHeight>, before: seq<Part>, applied: seq<Part>)
    {
      && from <= i <= |blocks|
      && var groupSize := GroupSize(|blocks| - from);
      && slices + Groups(i, |blocks|, groupSize) == Groups(from, |blocks|, groupSize)
      && Within(slices, |blocks|) && parts == PartsOf(blocks, slices, isOnTop)
      && hot == hotBefore + HeadsOf(blocks, slices) && applied == before + parts
    }

    static lemma GroupsStart(blocks: seq<BlockRef>, from: nat, isOnTop: bool, hot: seq<HashAndHeight>, applied: seq<Part>)
      requires from <= |blocks|
      ensures Grouped(blocks, from, from, isOnTop, [], [], hot, hot, applied, applied)
    {
    }

    static lemma GroupMore(blocks: seq<BlockRef>, from: nat, i: nat, isOnTop: bool, slices: seq<Slice>, parts: seq<Part>,
                           hotBefore: seq<HashAndHeight>, hot: seq<HashAndHeight>, before: seq<Part>, applied: seq<Part>)
      requires Grouped(blocks, from, i, isOnTop, slices, parts, hotBefore, hot, before, applied) && i < |blocks|
      ensures var groupSize := GroupSize(|blocks| - from);
              var end := if i + groupSize < |blocks| then i + groupSize else |blocks|;
              var part := Part(blocks[i..end], isOnTop);
              && applied + [part] == before + (parts + [part])
              && Grouped(blocks, from, end, isOnTop, slices + [Slice(i, end)], parts + [part], hotBefore,
                         hot + [ToHashAndHeight(Some(blocks[end - 1]))], before, applied + [part])
    {
      hide PartsOf, HeadsOf, Within, GroupSize;
      var groupSize := GroupSize(|blocks| - from);
      var end := if i + groupSize < |blocks| then i + groupSize else |blocks|;
      OneMoreSlice(blocks, slices, Slice(i, end), isOnTop);
      Append(before, parts, [PartOf(blocks, Slice(i, end), isOnTop)]);
      Append(slices, [Slice(i, end)], Groups(end, |blocks|, groupSize));
      Append(hotBefore, HeadsOf(blocks, slices), [ToHashAndHeight(Some(blocks[end - 1]))]);
    }

    /** When the call for one group fails, so does the whole batch. */
    lemma GroupFails(blocks: seq<BlockRef>, from: nat, i: nat, isOnTop: bool, slices: seq<Slice>, parts: seq<Part>,
                     hotBefore: seq<HashAndHeight>, hot: seq<HashAndHeight>, before: seq<Part>, applied: seq<Part>)
      requires Grouped(blocks, from, i, isOnTop, slices, parts, hotBefore, hot, before, applied)
      requires from <= |blocks| && After(applied) == None
      ensures After(before + PartsOf(blocks, Groups(from, |blocks|, GroupSize(|blocks| - from)), isOnTop)) == None
    {
      var rest := Groups(i, |blocks|, GroupSize(|blocks| - from));
      PartsOfConcat(blocks, slices, rest, isOnTop);
      FailsOnward(before + parts, PartsOf(blocks, rest, isOnTop));
      Append(before, parts, PartsOf(blocks, rest, isOnTop));
    }

    lemma {:induction false} FailsOnward(parts: seq<Part>, more: seq<Part>)
      requires After(parts) == None
      ensures After(parts + more) == None
      decreases |more|
    {
      if more == [] {
        assert parts + more == parts;
      } else {
        var n := |more| - 1;
        FailsOnward(parts, more[..n]);
        assert (parts + more)[..|parts + more| - 1] == parts + more[..n];
      }
    }

    static lemma GroupsEnd(blocks: seq<BlockRef>, from: nat, isOnTop: bool, slices: seq<Slice>, parts: seq<Part>,
                           hotBefore: seq<HashAndHeight>, hot: seq<HashAndHeight>, before: seq<Part>, applied: seq<Part>)
      requires Grouped(blocks, from, |blocks|, isOnTop, slices, parts, hotBefore, hot, before, applied)
      ensures slices == Groups(from, |blocks|, GroupSize(|blocks| - from))
      ensures parts == PartsOf(blocks, slices, isOnTop) && applied == before + parts
      ensures hot == hotBefore + HeadsOf(blocks, slices)
    {
    }

    static lemma GroupEnds(blocks: seq<BlockRef>, i: nat, end: nat)
      requires i < end <= |blocks| && Ascending(blocks)
      ensures blocks[i].number <= blocks[end - 1].number && (end < |blocks| ==> blocks[end - 1].number < blocks[end].number)
      ensures Last(blocks[i..end]) == Some(blocks[end - 1]) && blocks[i..end] != []
    {
    }

    static lemma OneMoreSlice(blocks: seq<BlockRef>, slices: seq<Slice>, slice: Slice, isOnTop: bool)
      requires Within(slices, |blocks|) && slice.start < slice.end <= |blocks|
      ensures Within(slices + [slice], |blocks|)
      ensures PartsOf(blocks, slices + [slice], isOnTop) == PartsOf(blocks, slices, isOnTop) + [PartOf(blocks, slice, isOnTop)]
      ensures HeadsOf(blocks, slices + [slice]) == HeadsOf(blocks, slices) + [ToHashAndHeight(Some(blocks[slice.end - 1]))]
    {
    }

    static method FirstHotAbove(chain: seq<HashAndHeight>, height: int) returns (k: nat)
      ensures k <= |chain| && (k < |chain| ==> chain[k].height > height)
      ensures forall h :: 0 <= h < k ==> chain[h].height <= height
    {
      k := 0;
      while k < |chain| && chain[k].height <= height
        invariant k <= |chain|
        invariant forall h :: 0 <= h < k ==> chain[h].height <= height
      {
        k := k + 1;
      }
    }

    /** Makes the hot blocks up to `height` final. */
    method DeleteHotBlocks(height: int, ghost t: nat)
      requires Tracked(t) && Climbing(hot)
      requires forall h :: 0 <= h < |hot| - t ==> hot[h].height <= height
      modifies this`hot, this`changeLog
      ensures hot == HotAbove(old(hot), height) && Tracked(|hot|) && Climbing(hot)
      ensures forall b <- hot :: b.height > height
    {
      hide AllTracked, HotAbove;
      var k := FirstHotAbove(hot, height);
      HotAboveFrom(hot, height, k);
      TrackedSuffix(hot, applied, changeLog, t, k, height);
      changeLog := map h | h in changeLog && h > height :: changeLog[h];
      hot := hot[k..];
    }

    lemma TrackedSuffix(hot: seq<HashAndHeight>, applied: seq<Part>, log: map<int, seq<Change>>, t: nat, k: nat, height: int)
      requires AllTracked(hot, applied, log, t) && Climbing(hot) && |hot| - t <= k <= |hot|
      requires k < |hot| ==> hot[k].height > height
      ensures AllTracked(hot[k..], applied, map h | h in log && h > height :: log[h], |hot| - k)
      ensures forall b <- hot[k..] :: b.height > height
    {
      var newLog := map h | h in log && h > height :: log[h];
      forall h | 0 <= h < |hot| - k
        ensures TrackedPart(hot[k..][h], applied[..|applied| - (|hot| - k - h) + 1], newLog)
      {
        assert hot[k..][h] == hot[k + h];
      }
    }

    /** The data handler cannot get through the blocks. */
    ghost predicate Fails(kept: seq<Part>, blocks: seq<BlockRef>, height: int, isOnTop: bool) {
      After(kept + PartsOf(blocks, SlicesOf(blocks, height), isOnTop)) == None
    }

    /**
     Writes a batch: the hot blocks from position `keep` on are taken back, the final blocks of the batch
     are handled in one go and the others in groups, and hot blocks that have become final are forgotten.
     */
    method WriteBatch(blocks: seq<BlockRef>, keep: nat, final: HashAndHeight, isOnTop: bool)
        returns (ok: bool, slices: seq<Slice>, ghost parts: seq<Part>)
      requires Valid() && keep <= |hot| && Ascending(blocks) && status.height <= final.height
      requires blocks != [] ==> ([status] + hot)[keep].height < blocks[0].number
      modifies this
      ensures ok ==> Valid() && status == final
      ensures ok ==> slices == SlicesOf(blocks, final.height) && parts == PartsOf(blocks, slices, isOnTop)
      ensures ok ==> applied == Kept(old(applied), old(hot), keep) + parts
      ensures ok ==> hot == HotAbove(old(hot)[..keep], final.height) + HeadsOf(blocks, HotSlices(blocks, final.height))
      ensures !ok ==> Fails(Kept(old(applied), old(hot), keep), blocks, final.height, isOnTop)
    {
      hide Tracked, Climbing, Ascending, HotAbove, PartsOf, HeadsOf, HotSlices, SlicesOf, FinalCount;
      KeptClimbs(status, hot, keep, blocks, final.height);
      RollbackTo(keep);
      ghost var kept := hot;
      ghost var t;
      ok, slices, parts, t := WriteBlocks(blocks, final.height, isOnTop, keep);
      if !ok { return; }
      HeadsAbove(blocks, kept, final.height);
      FirstBlockAbove(blocks, final.height);
      DeleteHotBlocks(final.height, t);
      status := final;
      ClimbsFrom(final, hot);
    }

    /** The blocks up to `height` are final and handled in one go, the others in groups. */
    method WriteBlocks(blocks: seq<BlockRef>, height: int, isOnTop: bool, ghost tracked: nat)
        returns (ok: bool, slices: seq<Slice>, ghost parts: seq<Part>, ghost t: nat)
      requires Tracked(tracked) && Climbing(hot) && Ascending(blocks)
      requires hot != [] && blocks != [] ==> hot[|hot| - 1].height < blocks[0].number
      modifies this
      ensures status == old(status)
      ensures ok ==> Tracked(t) && Climbing(hot)
      ensures ok ==> slices == SlicesOf(blocks, height) && parts == PartsOf(blocks, slices, isOnTop)
      ensures ok ==> applied == old(applied) + parts && hot == old(hot) + HeadsOf(blocks, HotSlices(blocks, height))
      ensures ok ==> t + |old(hot)| == |hot| + (if FinalCount(blocks, height) > 0 then 0 else tracked)
      ensures !ok ==> Fails(old(applied), blocks, height, isOnTop)
    {
      hide Tracked, Climbing, Ascending, PartsOf, HeadsOf, Groups, Above;
      var n := FirstAbove(blocks, height);
      AboveFrom(blocks, height, n);
      if n < |blocks| { GroupEndsBelow(blocks, n); }
      ghost var hotAndDone := PartsOf(blocks, HotSlices(blocks, height), isOnTop);
      ok, slices, parts, t := WriteFinal(blocks, n, isOnTop, tracked);
      PartsOfConcat(blocks, slices, HotSlices(blocks, height), isOnTop);
      Append(old(applied), parts, hotAndDone);
      if !ok {
        FailsOnward(old(applied) + parts, hotAndDone);
        return;
      }
      var hotSlices;
      ghost var hotParts;
      ok, hotSlices, hotParts := CommitGroups(blocks, n, isOnTop, t);
      if ok { SameLength(blocks, hotSlices, isOnTop); }
      slices, parts, t := slices + hotSlices, parts + hotParts, t + |hotParts|;
    }

    static lemma GroupEndsBelow(blocks: seq<BlockRef>, n: nat)
      requires Ascending(blocks) && n < |blocks|
      ensures blocks[0].number <= blocks[n].number
    {
    }

    /** The first `n` blocks of a batch are final; with any of them, no older hot block stays hot. */
    method WriteFinal(blocks: seq<BlockRef>, n: nat, isOnTop: bool, ghost tracked: nat)
        returns (ok: bool, slices: seq<Slice>, ghost parts: seq<Part>, ghost t: nat)
      requires Tracked(tracked) && n <= |blocks|
      modifies this`tables, this`applied
      ensures slices == (if n > 0 then [Slice(0, n)] else []) && parts == PartsOf(blocks, slices, isOnTop)
      ensures t == if n > 0 then 0 else tracked
      ensures ok ==> Tracked(t) && applied == old(applied) + parts
      ensures !ok ==> parts != [] && After(old(applied) + parts) == None
    {
      ok, slices, parts, t := true, [], [], tracked;
      if n > 0 {
        slices, t := [Slice(0, n)], 0;
        parts := PartsOf(blocks, slices, isOnTop);
        assert parts == [PartOf(blocks, slices[0], isOnTop)];
        ok := CommitFinal(PartOf(blocks, slices[0], isOnTop));
      } else {
        assert applied + parts == applied;
      }
    }

    static lemma SameLength(blocks: seq<BlockRef>, slices: seq<Slice>, isOnTop: bool)
      requires Within(slices, |blocks|)
      ensures |PartsOf(blocks, slices, isOnTop)| == |HeadsOf(blocks, slices)| == |slices|
    {
    }

    static lemma PartsOfConcat(blocks: seq<BlockRef>, a: seq<Slice>, b: seq<Slice>, isOnTop: bool)
      requires Within(a, |blocks|) && Within(b, |blocks|)
      ensures Within(a + b, |blocks|) && PartsOf(blocks, a + b, isOnTop) == PartsOf(blocks, a, isOnTop) + PartsOf(blocks, b, isOnTop)
    {
    }

    static lemma KeptClimbs(status: HashAndHeight, hot: seq<HashAndHeight>, keep: nat, blocks: seq<BlockRef>, height: int)
      requires Climbing([status] + hot) && keep <= |hot| && status.height <= height
      ensures Climbing(hot) && Climbing(hot[..keep])
      ensures keep > 0 ==> hot[..keep][keep - 1] == ([status] + hot)[keep]
      ensures forall h :: 0 <= h < keep ==> hot[h].height <= ([status] + hot)[keep].height
    {
      var chain := [status] + hot;
      assert forall h {:trigger hot[h]} :: 0 <= h < |hot| ==> chain[h + 1] == hot[h];
    }

    static lemma HeadsAbove(blocks: seq<BlockRef>, kept: seq<HashAndHeight>, height: int)
      requires Ascending(blocks)
      ensures var heads := HeadsOf(blocks, HotSlices(blocks, height));
              HotAbove(kept + heads, height) == HotAbove(kept, height) + heads
    {
      var n, heads := FinalCount(blocks, height), HeadsOf(blocks, HotSlices(blocks, height));
      if n < |blocks| {
        FirstBlockAbove(blocks, height);
        GroupEnds(blocks, n, HotSlices(blocks, height)[0].end);
        assert heads[0].height > height;
      }
      HotAboveConcat(kept, heads, height);
    }

    static lemma ClimbsFrom(final: HashAndHeight, hot: seq<HashAndHeight>)
      requires Climbing(hot) && forall b <- hot :: b.height > final.height
      ensures Climbing([final] + hot)
    {
    }

    static method AssertChainContinuity(base: HashAndHeight, chain: seq<HashAndHeight>) returns (ok: bool)
      ensures ok <==> Climbing([base] + chain)
    {
      var prev := base;
      for i := 0 to |chain|
        invariant Climbing([base] + chain[..i]) && prev == ([base] + chain)[i]
      {
        if chain[i].height <= prev.height {
          assert !Climbing([base] + chain) by {
            assert ([base] + chain)[i + 1] == chain[i];
          }
          return false;
        }
        assert ([base] + chain[..i])[i] == prev;
        ClimbsTo([base] + chain[..i], chain[i]);
        assert [base] + chain[..i] + [chain[i]] == [base] + chain[..i + 1];
        prev := chain[i];
      }
      assert chain[..|chain|] == chain;
      return true;
    }

    static method FindHash(chain: seq<HashAndHeight>, hash: string) returns (pos: int)
      ensures -1 <= pos < |chain|
      ensures pos >= 0 ==> chain[pos].hash == hash
      ensures pos < 0 <==> forall b <- chain :: b.hash != hash
    {
      for i := 0 to |chain|
        invariant forall b <- chain[..i] :: b.hash != hash
      {
        if chain[i].hash == hash { return i; }
        assert chain[..i + 1] == chain[..i] + [chain[i]];
      }
      assert chain[..|chain|] == chain;
      return -1;
    }

    /**
     One transaction: the new blocks continue the base head, which is the status block or a hot block.
     The hot blocks above the base head are orphans.  A failed transaction changes nothing.
     */
    method TransactHot(info: HotTxInfo, blocks: seq<BlockRef>, isOnTop: bool)
        returns (r: TxOutcome, slices: seq<Slice>, ghost keep: nat, ghost parts: seq<Part>)
      requires Valid() && info.newBlocks == Heights(blocks)
      requires forall b <- [status] + hot :: b.hash == info.baseHead.hash ==> b.height == info.baseHead.height
      modifies this
      ensures Valid()
      ensures r.Aborted? ==> unchanged(`status, `hot, `tables, `changeLog, `applied)
      ensures r == Aborted(BrokenChain) <==> !Climbing([info.baseHead] + info.newBlocks)
      ensures r == Aborted(FinalAboveTop) <==>
                Climbing([info.baseHead] + info.newBlocks) && info.finalizedHead.height > Top(info).height
      ensures r == Aborted(Race) <==>
                && Climbing([info.baseHead] + info.newBlocks) && info.finalizedHead.height <= Top(info).height
                && forall b <- old([status] + hot) :: b.hash != info.baseHead.hash
      ensures r.Committed? || r == Aborted(SqlError) ==>
                && keep <= |old(hot)| && ([old(status)] + old(hot))[keep] == info.baseHead
                && (r == Aborted(SqlError) <==>
                    Fails(Kept(old(applied), old(hot), keep), blocks, Higher(info.finalizedHead, old(status)).height, isOnTop))
      ensures r.Committed? ==>
                && status == Higher(info.finalizedHead, old(status))
                && slices == SlicesOf(blocks, status.height) && parts == PartsOf(blocks, slices, isOnTop)
                && applied == Kept(old(applied), old(hot), keep) + parts
                && hot == HotAbove(old(hot)[..keep], status.height) + HeadsOf(blocks, HotSlices(blocks, status.height))
    {
      hide Climbing, PartsOf, HeadsOf, HotAbove, SlicesOf, HotSlices, AllTracked, Heights;
      var chain := [status] + hot;
      slices, keep, parts := [], 0, [];
      var continuous := AssertChainContinuity(info.baseHead, info.newBlocks);
      if !continuous { return Aborted(BrokenChain), slices, keep, parts; }
      if info.finalizedHead.height > Top(info).height { return Aborted(FinalAboveTop), slices, keep, parts; }
      var baseHeadPos := FindHash(chain, info.baseHead.hash);
      if baseHeadPos < 0 { return Aborted(Race), slices, keep, parts; }
      var final := Higher(info.finalizedHead, status);
      assert chain[baseHeadPos] in chain;
      HeightsClimb(info.baseHead, blocks);

      keep := baseHeadPos;
      r, slices, parts := WriteOrRollback(blocks, baseHeadPos, final, isOnTop);
    }

    /** Writes a batch in a database transaction. */
    method WriteOrRollback(blocks: seq<BlockRef>, keep: nat, final: HashAndHeight, isOnTop: bool)
        returns (r: TxOutcome, slices: seq<Slice>, ghost parts: seq<Part>)
      requires Valid() && keep <= |hot| && Ascending(blocks) && status.height <= final.height
      requires blocks != [] ==> ([status] + hot)[keep].height < blocks[0].number
      modifies this
      ensures Valid()
      ensures r in {Committed, Aborted(SqlError)}
      ensures r.Committed? ==>
                && status == final
                && slices == SlicesOf(blocks, final.height) && parts == PartsOf(blocks, slices, isOnTop)
                && applied == Kept(old(applied), old(hot), keep) + parts
                && hot == HotAbove(old(hot)[..keep], final.height) + HeadsOf(blocks, HotSlices(blocks, final.height))
      ensures r.Aborted? ==> unchanged(`status, `hot, `tables, `changeLog, `applied)
      ensures r.Aborted? <==> Fails(Kept(old(applied), old(hot), keep), blocks, final.height, isOnTop)
    {
      hide Climbing, PartsOf, HeadsOf, HotAbove, SlicesOf, HotSlices, AllTracked, Ascending;
      var savedStatus, savedHot, savedTables, savedLog := status, hot, tables, changeLog;
      ghost var savedApplied := applied;
      var ok;
      ok, slices, parts := WriteBatch(blocks, keep, final, isOnTop);
      if ok { return Committed, slices, parts; }
      status, hot, tables, changeLog := savedStatus, savedHot, savedTables, savedLog;
      applied := savedApplied;
      r := Aborted(SqlError);
    }

    static lemma HeightsClimb(base: HashAndHeight, blocks: seq<BlockRef>)
      requires Climbing([base] + Heights(blocks))
      ensures Ascending(blocks) && (blocks != [] ==> base.height < blocks[0].number)
    {
      var chain := [base] + Heights(blocks);
      assert forall i {:trigger blocks[i]} :: 0 <= i < |blocks| ==> chain[i + 1].height == blocks[i].number;
      assert chain[0] == base;
    }
  }

  /** The last of the new blocks, or the block they would have continued. */
  function Top(info: HotTxInfo): HashAndHeight {
    if info.newBlocks == [] then info.baseHead else info.newBlocks[|info.newBlocks| - 1]
  }

  function Higher(a: HashAndHeight, b: HashAndHeight): HashAndHeight {
    if a.height >= b.height then a else b
  }

  lemma Append<T>(a: seq<T>, b: seq<T>, c: seq<T>)
    ensures (a + b) + c == a + (b + c)
  {
  }

  /** Slices are not empty and lie within the first `n` blocks. */
  ghost predicate Within(slices: seq<Slice>, n: nat) {
    forall s <- slices :: s.start < s.end <= n
  }

  /** About a hundredth of the blocks, so that long batches need few calls of the handler. */
  function GroupSize(n: nat): (size: nat)
    ensures size > 0 && (size == 1 <==> n < 200)
    ensures n >= 100 ==> 100 * size <= n < 100 * (size + 1)
  {
    if n / 100 > 1 then n / 100 else 1
  }

  function Groups(from: nat, n: nat, size: nat): (slices: seq<Slice>)
    requires from <= n && size > 0
    ensures Within(slices, n)
    decreases n - from
  {
    if from == n then []
    else
      var end := if from + size < n then from + size else n;
      [Slice(from, end)] + Groups(end, n, size)
  }

  /** The applied parts that stay when the hot blocks from position `keep` on are taken back. */
  function Kept(applied: seq<Part>, hot: seq<HashAndHeight>, keep: nat): seq<Part>
    requires keep <= |hot| <= |applied|
  {
    applied[..|applied| - (|hot| - keep)]
  }

  /** How many leading blocks are final when everything up to `height` is. */
  function FinalCount(blocks: seq<BlockRef>, height: int): (n: nat)
    ensures n <= |blocks|
  {
    AboveIsSuffix(blocks, height);
    |blocks| - |Above(blocks, height)|
  }

  lemma {:induction false} AboveIsSuffix(blocks: seq<BlockRef>, height: int)
    ensures var r := Above(blocks, height); |r| <= |blocks| && r == blocks[|blocks| - |r|..]
  {
    if blocks != [] && blocks[0].number <= height {
      AboveIsSuffix(blocks[1..], height);
    }
  }

  lemma {:induction false} FirstBlockAbove(blocks: seq<BlockRef>, height: int)
    ensures var n := FinalCount(blocks, height);
            && (forall i :: 0 <= i < n ==> blocks[i].number <= height)
            && (n < |blocks| ==> blocks[n].number > height)
  {
    if blocks != [] && blocks[0].number <= height {
      FirstBlockAbove(blocks[1..], height);
    }
  }

  lemma {:induction false} HotAboveConcat(a: seq<HashAndHeight>, b: seq<HashAndHeight>, height: int)
    requires b != [] ==> b[0].height > height
    ensures HotAbove(a + b, height) == HotAbove(a, height) + b
  {
    if a == [] {
      assert a + b == b;
    } else {
      HotAboveConcat(a[1..], b, height);
      assert (a + b)[1..] == a[1..] + b;
    }
  }

  /** The groups in which the blocks above `height` are handled. */
  function HotSlices(blocks: seq<BlockRef>, height: int): (slices: seq<Slice>)
    ensures Within(slices, |blocks|)
  {
    var n := FinalCount(blocks, height);
    Groups(n, |blocks|, GroupSize(|blocks| - n))
  }

  /** All calls of the handler for a batch: the blocks up to `height` in one go, then the groups. */
  function SlicesOf(blocks: seq<BlockRef>, height: int): (slices: seq<Slice>)
    ensures Within(slices, |blocks|)
  {
    var n := FinalCount(blocks, height);
    (if n > 0 then [Slice(0, n)] else []) + HotSlices(blocks, height)
  }

  function PartOf(blocks: seq<BlockRef>, s: Slice, isOnTop: bool): Part
    requires s.start < s.end <= |blocks|
  {
    Part(blocks[s.start..s.end], isOnTop)
  }

  ghost function PartsOf(blocks: seq<BlockRef>, slices: seq<Slice>, isOnTop: bool): seq<Part>
    requires Within(slices, |blocks|)
  {
    seq(|slices|, i requires 0 <= i < |slices| => PartOf(blocks, slices[i], isOnTop))
  }

  /** The last blocks of the slices. */
  ghost function HeadsOf(blocks: seq<BlockRef>, slices: seq<Slice>): seq<HashAndHeight>
    requires Within(slices, |blocks|)
  {
    seq(|slices|, i requires 0 <= i < |slices| => ToHashAndHeight(Some(blocks[slices[i].end - 1])))
  }

  function BlocksOf(parts: seq<Part>): seq<seq<BlockRef>> {
    seq(|parts|, i requires 0 <= i < |parts| => parts[i].blocks)
  }

  function HotAbove(chain: seq<HashAndHeight>, height: int): seq<HashAndHeight> {
    if chain == [] || chain[0].height > height then chain else HotAbove(chain[1..], height)
  }

  lemma {:induction false} HotAboveFrom(chain: seq<HashAndHeight>, height: int, k: nat)
    requires k <= |chain| && (k < |chain| ==> chain[k].height > height)
    requires forall h :: 0 <= h < k ==> chain[h].height <= height
    ensures HotAbove(chain, height) == chain[k..]
  {
    if k > 0 {
      HotAboveFrom(chain[1..], height, k - 1);
      assert chain[1..][k - 1..] == chain[k..];
    }
  }

  lemma ClimbsTo(chain: seq<HashAndHeight>, block: HashAndHeight)
    requires Climbing(chain) && (chain != [] ==> chain[|chain| - 1].height < block.height)
    ensures Climbing(chain + [block])
    ensures forall h :: 0 <= h < |chain| ==> chain[h].height < block.height
  {
  }
}
