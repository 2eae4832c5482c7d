/**
 Hot blocks handled in one call are taken back together.  When finality has already reached one of them,
 a fork back to that final block takes its data away, and nothing brings them back.
 */
module GroupedFinality {
  import opened Wrappers
  import opened BatchProcessor
  import opened ChangeLog
  import opened HotDatabase
  import opened BlockHistory
  import opened Indexing

  /** In this example a hash is a string as long as the block is high, and one more. */
  function HeightOf(hash: string): int {
    if hash == "0x" then -1 else |hash| - 1
  }

  function Block(number: nat): BlockRef {
    BlockRef(number, seq(number + 1, _ => 'a'))
  }

  function Blocks(n: nat): seq<BlockRef> {
    seq(n, i requires i >= 0 => Block(i))
  }

  const other := BlockRef(1, "bb")

  lemma BlocksNamed(n: nat)
    ensures Names(HeightOf, Blocks(n)) && Names(HeightOf, [other]) && Names(HeightOf, []) && Ascending(Blocks(n))
    ensures |Blocks(n)| == n && (n > 0 ==> Last(Blocks(n)) == Some(Block(n - 1)))
  {
    forall b <- Blocks(n) ensures HeightOf(b.hash) == b.number {
      assert b.hash != "0x" by {
        if |b.hash| == 2 { assert b.hash[0] == 'a'; }
      }
    }
  }

  // ---------- A data handler with one row for each block ----------

  function KeyOf(block: BlockRef): Key {
    Key("block", block.hash)
  }

  ghost function KeysFor(blocks: seq<BlockRef>): set<Key> {
    set b <- blocks :: KeyOf(b)
  }

  function Entities(blocks: seq<BlockRef>): seq<Entity> {
    seq(|blocks|, i requires 0 <= i < |blocks| => Entity(blocks[i].hash, map[]))
  }

  function WriteBlocks(): Handler {
    (tables: Tables, part: Part) => [Upsert("block", Entities(part.blocks))]
  }

  lemma UpsertWrites(schema: Schema, s: Tables, blocks: seq<BlockRef>)
    requires "block" in schema
    ensures var t := Perform(schema, s, Upsert("block", Entities(blocks))); t != None && t.value.Keys == s.Keys + KeysFor(blocks)
  {
    hide UpsertAll;
    var entities := Entities(blocks);
    UpsertIff(schema, s, "block", entities);
    UpsertKeys(schema, s, "block", entities);
    forall k ensures k in KeysOf("block", entities) <==> k in KeysFor(blocks) {
      if b :| b in blocks && k == KeyOf(b) {
        var i :| 0 <= i < |blocks| && blocks[i] == b;
        assert entities[i] in entities && entities[i].id == b.hash;
      }
      if e :| e in entities && k == Key("block", e.id) {
        var i :| 0 <= i < |entities| && entities[i] == e;
        assert k == KeyOf(blocks[i]) && blocks[i] in blocks;
      }
    }
  }

  /** However blocks are split into calls, afterwards there are the rows of exactly these blocks. */
  lemma {:induction false} RowsFollow(schema: Schema, tables: Tables, parts: seq<Part>)
    requires "block" in schema
    ensures var t := Replay(schema, WriteBlocks(), tables, parts);
            t != None && t.value.Keys == tables.Keys + KeysFor(History(parts))
    decreases |parts|
  {
    if parts == [] {
      assert KeysFor(History(parts)) == {};
    } else {
      var n := |parts| - 1;
      var sooner, part := parts[..n], parts[n];
      RowsFollow(schema, tables, sooner);
      var before := Replay(schema, WriteBlocks(), tables, sooner).value;
      ExecuteOne(schema, before, Upsert("block", Entities(part.blocks)));
      UpsertWrites(schema, before, part.blocks);
      assert parts == sooner + [part];
      HistoryConcat(sooner, [part]);
      HistoryOne(part);
      assert KeysFor(History(parts)) == KeysFor(History(sooner)) + KeysFor(part.blocks);
    }
  }

  // ---------- The run ----------

  lemma FirstSlices()
    ensures var slices := SlicesOf(Blocks(200), -1);
            HotSlices(Blocks(200), -1) == slices && slices != [] && slices[0] == Slice(0, 2) && |Blocks(200)| == 200
  {
    FirstBlockAbove(Blocks(200), -1);
  }

  lemma SecondBlock()
    ensures Blocks(200)[1].number == 1
  {
  }

  /** 200 hot blocks go in groups of two. */
  lemma FirstBatch(hot: seq<HashAndHeight>, applied: seq<Part>, status: HashAndHeight, isOnTop: bool)
    requires status == HashAndHeight(-1, "0x") && Written(status, [], [], 0, Blocks(200), isOnTop, status, hot, applied)
    ensures hot != [] && |hot| == |applied| && hot[0].height == 1 && applied[0].blocks == Blocks(200)[..2]
    ensures History(applied) == Blocks(200)
  {
    var blocks := Blocks(200);
    FirstSlices();
    hide Groups, FinalCount, HotSlices, SlicesOf, Blocks, Block, Climbing, Stands;
    BatchParts(blocks, -1, isOnTop);
    assert HotAbove([][..0], -1) == [];
    assert applied == PartsOf(blocks, HotSlices(blocks, -1), isOnTop);
    assert blocks[1].number == 1 by { SecondBlock(); }
  }

  ghost predicate NeverFails(indexer: Indexer) {
    forall parts :: indexer.db.After(parts) != None
  }

  ghost predicate InGroups(indexer: Indexer, final: Option<BlockRef>)
    reads indexer, indexer.db, indexer.processor.state
  {
    && indexer.Ready() && indexer.chain == Blocks(200) && indexer.processor.state.finalizedHead == final
    && var hot, applied := indexer.db.hot, indexer.db.applied;
    && hot != [] && |hot| == |applied| && hot[0].height == 1
  }

  /** The blocks 0 to 199 come, none of them final. */
  method TakeBlocks(indexer: Indexer)
    requires indexer.Ready() && indexer.heightOf == HeightOf && NeverFails(indexer) && indexer.chain == []
    requires indexer.db.status == HashAndHeight(-1, "0x") && indexer.db.hot == [] && indexer.db.applied == []
    modifies indexer, indexer.processor.state, indexer.db
    ensures InGroups(indexer, None) && indexer.processor.state.Head() == Some(Block(199))
    ensures |indexer.processor.state.unfinalizedHeads| == |indexer.db.hot|
  {
    hide Consistent, Written, History, Names, HeightOf, Blocks, Block, UpTo, Intact, Continues, Singles, HotParts;
    BlocksContinue();
    StartsEmpty(indexer);
    var r, delivered;
    ghost var k;
    r, delivered, k := indexer.ProcessBatch(BlockBatch(Blocks(200), None), true);
    assert r.Done?;
    InStepNow(indexer);
    FirstBatch(indexer.db.hot, indexer.db.applied, indexer.db.status, true);
    NothingUpTo();
  }

  lemma InStepNow(indexer: Indexer)
    requires indexer.Ready()
    ensures ToHashAndHeight(indexer.processor.state.finalizedHead) == indexer.db.status
    ensures Heights(indexer.processor.state.unfinalizedHeads) == indexer.db.hot ==>
              |indexer.processor.state.unfinalizedHeads| == |indexer.db.hot|
  {
  }

  lemma BlocksContinue()
    ensures Continues(None, Blocks(200)) && Names(HeightOf, Blocks(200))
    ensures Blocks(200) != [] && Last(Blocks(200)) == Some(Block(199))
  {
    BlocksNamed(200);
  }

  lemma StartsEmpty(indexer: Indexer)
    requires indexer.Ready() && indexer.db.status == HashAndHeight(-1, "0x") && indexer.db.hot == []
    ensures indexer.processor.state.finalizedHead == None && indexer.processor.state.unfinalizedHeads == []
  {
  }

  lemma NothingUpTo()
    ensures UpTo([], -1) == []
  {
  }

  lemma BlocksUpTo(n: nat, height: nat)
    requires height < n
    ensures UpTo(Blocks(n), height) == Blocks(height + 1)
  {
    FirstBlockAbove(Blocks(n), height);
    var k := FinalCount(Blocks(n), height);
    assert k < n ==> Blocks(n)[k].number == k;
    assert height + 1 < n ==> Blocks(n)[height + 1].number == height + 1;
    assert k == height + 1;
  }

  /** Block 0 turns out to be final. */
  method LearnFinal(indexer: Indexer)
    requires InGroups(indexer, None) && indexer.heightOf == HeightOf && NeverFails(indexer)
    requires indexer.processor.state.Head() == Some(Block(199))
    requires |indexer.processor.state.unfinalizedHeads| == |indexer.db.hot|
    modifies indexer, indexer.processor.state, indexer.db
    ensures InGroups(indexer, Some(Block(0)))
    ensures indexer.db.applied == old(indexer.db.applied)
  {
    hide Consistent, History, HeightOf, UpTo, Intact, Blocks, Written, Names, Continues, Singles, HotParts;
    FinalIsNamed();
    ghost var hot, applied, status := indexer.db.hot, indexer.db.applied, indexer.db.status;
    var r, delivered;
    ghost var k;
    r, delivered, k := indexer.ProcessBatch(BlockBatch([], Some(Block(0))), true);
    InStepNow(indexer);
    NoBlocks(status, hot, applied, indexer.db.status, indexer.db.hot, indexer.db.applied);
  }

  lemma FinalIsNamed()
    ensures Names(HeightOf, []) && HeightOf(Block(0).hash) == 0 && UpTo(Blocks(200), 199) == Blocks(200)
    ensures Continues(Some(Block(199)), [])
  {
    BlocksUpTo(200, 199);
    assert |Block(0).hash| == 1;
  }

  /** A batch without blocks, which makes nothing final that is hot. */
  lemma NoBlocks(status: HashAndHeight, hot: seq<HashAndHeight>, applied: seq<Part>,
                 newStatus: HashAndHeight, newHot: seq<HashAndHeight>, newApplied: seq<Part>)
    requires |hot| <= |applied| && Written(status, hot, applied, |hot|, [], true, newStatus, newHot, newApplied)
    requires hot != [] && hot[0].height > newStatus.height
    ensures newHot == hot && newApplied == applied
  {
    assert hot[..|hot|] == hot;
    assert SlicesOf([], newStatus.height) == [] && HotSlices([], newStatus.height) == [];
  }

  /** A fork leads back to block 0. */
  method FallBack(indexer: Indexer)
    requires InGroups(indexer, Some(Block(0)))
    modifies indexer.processor.state
    ensures InGroups(indexer, Some(Block(0))) && indexer.processor.state.unfinalizedHeads == []
  {
    var state := indexer.processor.state;
    ghost var chain := Chain(state.finalizedHead, state.unfinalizedHeads);
    assert chain[0] == Block(0) && Ascending(chain);
    SingleAscends(Block(0));
    hide Consistent, Blocks, Ascending, IsRollbackIndex;
    var r, k := indexer.HandleFork([Block(0)]);
    CommonFirst(chain, Block(0), k);
  }

  lemma CommonFirst(chain: seq<BlockRef>, block: BlockRef, k: int)
    requires Ascending(chain) && chain != [] && chain[0] == block && IsRollbackIndex(chain, [block], k)
    ensures k == 0
  {
    assert Common(chain, [block], 0);
  }

  /** Another block 1 follows. */
  method TakeOther(indexer: Indexer)
    requires InGroups(indexer, Some(Block(0))) && indexer.heightOf == HeightOf && NeverFails(indexer)
    requires indexer.processor.state.unfinalizedHeads == []
    modifies indexer, indexer.processor.state, indexer.db
    ensures indexer.Ready() && indexer.processor.state.finalizedHead == Some(Block(0))
    ensures indexer.chain == [Block(0), other] && History(indexer.db.applied) == [other]
  {
    hide Consistent, History, HeightOf, UpTo, Intact, Blocks, Written, Names, Continues, Singles, HotParts, FinalizedBy, SplitsAt;
    ghost var hot, applied, status := indexer.db.hot, indexer.db.applied, indexer.db.status;
    OtherContinues();
    var r, delivered;
    ghost var k;
    r, delivered, k := indexer.ProcessBatch(BlockBatch([other], None), true);
    StaysHot(k);
    NothingElse(status, hot, applied, indexer.db.status, indexer.db.hot, indexer.db.applied);
  }

  lemma OtherContinues()
    ensures Continues(Some(Block(0)), [other]) && Names(HeightOf, [other]) && UpTo(Blocks(200), 0) == [Block(0)]
  {
    BlocksUpTo(200, 0);
    assert Blocks(1) == [Block(0)];
  }

  lemma StaysHot(k: nat)
    requires SplitsAt([other], MaxBlockRef(Some(Block(0)), None), k)
    ensures FinalizedBy([other], MaxBlockRef(Some(Block(0)), None), k) == Some(Block(0))
  {
  }

  /** Nothing that was applied before is kept. */
  lemma NothingElse(status: HashAndHeight, hot: seq<HashAndHeight>, applied: seq<Part>,
                    newStatus: HashAndHeight, newHot: seq<HashAndHeight>, newApplied: seq<Part>)
    requires |hot| == |applied| && Written(status, hot, applied, 0, [other], true, newStatus, newHot, newApplied)
    ensures History(newApplied) == [other]
  {
    BatchParts([other], newStatus.height, true);
    assert Kept(applied, hot, 0) == [];
    assert newApplied == PartsOf([other], SlicesOf([other], newStatus.height), true);
  }

  lemma RowsOfChain(schema: Schema, tables: Tables, parts: seq<Part>)
    requires "block" in schema && History(parts) == [Block(0), other]
    ensures var t := Replay(schema, WriteBlocks(), tables, parts);
            t != None && KeyOf(Block(0)) in t.value && KeyOf(other) in t.value
  {
    RowsFollow(schema, tables, parts);
    assert Block(0) in History(parts) && other in History(parts);
    assert KeyOf(Block(0)) in KeysFor(History(parts)) && KeyOf(other) in KeysFor(History(parts));
  }

  lemma RowIsMissing(schema: Schema, tables: Tables, parts: seq<Part>)
    requires "block" in schema && History(parts) == [other] && KeyOf(Block(0)) !in tables
    ensures var t := Replay(schema, WriteBlocks(), tables, parts);
            t != None && KeyOf(Block(0)) !in t.value && KeyOf(other) in t.value
  {
    RowsFollow(schema, tables, parts);
    assert |Block(0).hash| == 1 && |other.hash| == 2;
    assert KeysFor([other]) == {KeyOf(other)};
  }

  /**
   The blocks 0 to 199 come, then news that block 0 is final, then a fork with another block 1.  At the end
   the final block has no row, though handling the very same chain in any other calls would have written it.
   */
  method FinalBlockLost(schema: Schema, tables: Tables) returns (indexer: Indexer)
    requires WellFormed(schema, tables) && "block" in schema && KeyOf(Block(0)) !in tables
    ensures indexer.Ready() && indexer.db.schema == schema && indexer.db.handler == WriteBlocks() && indexer.db.initial == tables
    ensures indexer.chain == [Block(0), other] && indexer.processor.state.finalizedHead == Some(Block(0))
    ensures KeyOf(other) in indexer.db.tables && KeyOf(Block(0)) !in indexer.db.tables
    ensures forall parts {:trigger indexer.db.After(parts)} :: History(parts) == indexer.chain ==>
              indexer.db.After(parts) != None && KeyOf(Block(0)) in indexer.db.After(parts).value
  {
    var db := new Database(schema, WriteBlocks(), tables);
    indexer := new Indexer(db, HeightOf);
    forall parts ensures db.After(parts) != None {
      RowsFollow(schema, tables, parts);
    }
    TakeBlocks(indexer);
    LearnFinal(indexer);
    FallBack(indexer);
    TakeOther(indexer);
    RowIsMissing(schema, tables, db.applied);
    assert db.After(db.applied) == Some(db.tables);
    forall parts | History(parts) == indexer.chain ensures db.After(parts) != None && KeyOf(Block(0)) in db.After(parts).value {
      RowsOfChain(schema, tables, parts);
    }
  }
}
