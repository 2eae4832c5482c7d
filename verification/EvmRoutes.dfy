/**
 Two ways to a normalized EVM block: directly, or through the old block format, which hangs receipts,
 traces and state diffs onto the transactions.
 */
module EvmRoutes {
  import opened Wrappers
  import opened Selections
  import opened EvmBlocks

  // ---------- Lists ----------

  function FlatMap<A, B>(f: (nat, A) -> seq<B>, s: seq<A>): seq<B> {
    if s == [] then [] else FlatMap(f, s[..|s| - 1]) + f(|s| - 1, s[|s| - 1])
  }

  function Map<A, B>(f: A -> B, s: seq<A>): (r: seq<B>)
    ensures |r| == |s|
  {
    seq(|s|, i requires 0 <= i < |s| => f(s[i]))
  }

  lemma {:induction false} SameFlatMap<A, B, C>(f: (nat, A) -> seq<C>, s: seq<A>, g: (nat, B) -> seq<C>, t: seq<B>)
    requires |s| == |t| && forall i :: 0 <= i < |s| ==> f(i, s[i]) == g(i, t[i])
    ensures FlatMap(f, s) == FlatMap(g, t)
  {
    if s != [] {
      var n := |s| - 1;
      forall i | 0 <= i < n ensures f(i, s[..n][i]) == g(i, t[..n][i]) {
        assert f(i, s[i]) == g(i, t[i]);
      }
      SameFlatMap(f, s[..n], g, t[..n]);
    }
  }

  function Changes(diffs: seq<MappedDiff>): seq<MappedDiff> {
    if diffs == [] then []
    else Changes(diffs[..|diffs| - 1]) + if diffs[|diffs| - 1].same then [] else [diffs[|diffs| - 1]]
  }

  function At<A>(s: Option<seq<A>>, i: nat): Option<A> {
    if s.Some? && i < |s.value| then Some(s.value[i]) else None
  }

  // ---------- The direct way ----------

  /** The position of a hash; of several the last one counts. */
  function TxIndex(txs: seq<Transaction>, hash: Hash): (i: Option<nat>)
    ensures i.Some? ==> i.value < |txs| && txs[i.value].hash == hash
    ensures i == None ==> forall tx <- txs :: tx.hash != hash
  {
    if txs == [] then None
    else if txs[|txs| - 1].hash == hash then Some(|txs| - 1)
    else TxIndex(txs[..|txs| - 1], hash)
  }

  function IndexOfReplay(txs: seq<Transaction>, replay: Replay): Option<nat> {
    if replay.transactionHash == None then None else TxIndex(txs, replay.transactionHash.value)
  }

  predicate ReceiptsMatch(b: Block) {
    forall i :: 0 <= i < |b.transactions| && At(b.receipts, i).Some? ==>
      At(b.receipts, i).value.transactionHash == b.transactions[i].hash
  }

  predicate ReplaysKnown(b: Block) {
    forall replay <- b.traceReplays.GetOr([]) :: IndexOfReplay(b.transactions, replay).Some?
  }

  function FrameTraces(m: Mappers): (nat, Option<Frame>) -> seq<string> {
    (i: nat, frame: Option<Frame>) => if frame == None then [] else m.frame(i, frame.value)
  }

  function ReplayTraces(m: Mappers, txs: seq<Transaction>): (nat, Replay) -> seq<string> {
    (i: nat, replay: Replay) => TracesAt(m, IndexOfReplay(txs, replay).GetOr(0), replay.trace.GetOr([]))
  }

  function TracesAt(m: Mappers, index: nat, traces: seq<string>): (r: seq<string>)
    ensures |r| == |traces|
  {
    Map((t: string) => m.trace(t, index), traces)
  }

  function DebugDiffs(m: Mappers): (nat, Option<DebugDiff>) -> seq<MappedDiff> {
    (i: nat, diff: Option<DebugDiff>) => if diff == None then [] else m.debugDiff(i, diff.value)
  }

  function ReplayDiffs(m: Mappers, txs: seq<Transaction>): (nat, Replay) -> seq<MappedDiff> {
    (i: nat, replay: Replay) =>
      if replay.stateDiff == None then []
      else Changes(m.replayDiff(replay.stateDiff.value, IndexOfReplay(txs, replay).GetOr(0)))
  }

  function DirectTransactions(b: Block, m: Mappers): seq<string> {
    seq(|b.transactions|, i requires 0 <= i < |b.transactions| => m.transaction(b.transactions[i].body, At(b.receipts, i)))
  }

  function ReceiptLogs(m: Mappers): (nat, Receipt) -> seq<MappedLog> {
    (i: nat, receipt: Receipt) => Map(m.log, receipt.logs)
  }

  function DirectLogs(b: Block, m: Mappers): seq<MappedLog> {
    Map(m.log, b.logs.GetOr([])) + FlatMap(ReceiptLogs(m), b.receipts.GetOr([]))
  }

  function DirectTraces(b: Block, m: Mappers): seq<string> {
    if b.debugFrames.Some? then FlatMap(FrameTraces(m), b.debugFrames.value)
    else FlatMap(ReplayTraces(m, b.transactions), b.traceReplays.GetOr([]))
  }

  function DirectDiffs(b: Block, m: Mappers): seq<MappedDiff> {
    if b.debugStateDiffs.Some? then FlatMap(DebugDiffs(m), b.debugStateDiffs.value)
    else FlatMap(ReplayDiffs(m, b.transactions), b.traceReplays.GetOr([]))
  }

  predicate DirectFails(b: Block, o: Options) {
    || !ReceiptsMatch(b)
    || (b.receipts.Some? && b.logs.GetOr([]) != [])
    || (o.withTraces && b.debugFrames == None && !ReplaysKnown(b))
    || (o.withStateDiffs && b.debugStateDiffs == None && !ReplaysKnown(b))
  }

  function Direct(b: Block, m: Mappers, o: Options): Option<Mapped> {
    if DirectFails(b, o) then None
    else Some(Mapped(m.header(b.header), DirectTransactions(b, m), DirectLogs(b, m),
                     if o.withTraces then Some(DirectTraces(b, m)) else None,
                     if o.withStateDiffs then Some(DirectDiffs(b, m)) else None))
  }

  // ---------- The old format ----------

  function ReceiptOf(receipts: seq<Receipt>, hash: Hash): (r: Option<Receipt>)
    ensures r.Some? ==> r.value in receipts && r.value.transactionHash == hash
    ensures r == None ==> forall x <- receipts :: x.transactionHash != hash
  {
    if receipts == [] then None
    else if receipts[|receipts| - 1].transactionHash == hash then Some(receipts[|receipts| - 1])
    else ReceiptOf(receipts[..|receipts| - 1], hash)
  }

  function ReplayOf(replays: seq<Replay>, hash: Hash): (r: Option<Replay>)
    ensures r.Some? ==> r.value in replays && r.value.transactionHash == Some(hash)
    ensures r == None ==> forall x <- replays :: x.transactionHash != Some(hash)
  {
    if replays == [] then None
    else if replays[|replays| - 1].transactionHash == Some(hash) then Some(replays[|replays| - 1])
    else ReplayOf(replays[..|replays| - 1], hash)
  }

  predicate Fits(own: Option<Hash>, hash: Hash) {
    own.Some? ==> own.value == hash
  }

  /** What gets hung onto transaction `i`; what was there before stays where the block brings nothing. */
  function HungOnto(b: Block, i: nat, before: Hangers): Hangers
    requires i < |b.transactions|
  {
    var hash := b.transactions[i].hash;
    Hangers(if b.receipts.Some? then ReceiptOf(b.receipts.value, hash) else before.receipt,
            if b.traceReplays.Some? then ReplayOf(b.traceReplays.value, hash) else before.replay,
            if b.debugFrames.Some? then At(b.debugFrames, i).GetOr(None) else before.frame,
            if b.debugStateDiffs.Some? then At(b.debugStateDiffs, i).GetOr(None) else before.diff)
  }

  predicate HangsWell(b: Block, i: nat)
    requires i < |b.transactions|
  {
    var h := HungOnto(b, i, Nothing);
    && (b.receipts.Some? ==> h.receipt.Some?) && (b.traceReplays.Some? ==> h.replay.Some?)
    && (h.frame.Some? ==> Fits(h.frame.value.txHash, b.transactions[i].hash))
    && (h.diff.Some? ==> Fits(h.diff.value.txHash, b.transactions[i].hash))
  }

  predicate CanHang(b: Block) {
    && (b.logs.Some? ==> b.receipts == None)
    && (forall replay <- b.traceReplays.GetOr([]) :: replay.transactionHash.Some?)
    && forall i :: 0 <= i < |b.transactions| ==> HangsWell(b, i)
  }

  function RawTransactions(txs: seq<Transaction>, hung: seq<Hangers>, m: Mappers): seq<string>
    requires |txs| == |hung|
  {
    seq(|txs|, i requires 0 <= i < |txs| => m.transaction(txs[i].body, hung[i].receipt))
  }

  function HungLogs(m: Mappers): (nat, Hangers) -> seq<MappedLog> {
    (i: nat, h: Hangers) => if h.receipt == None then [] else Map(m.log, h.receipt.value.logs)
  }

  function RawLogs(hung: seq<Hangers>, m: Mappers): seq<MappedLog> {
    FlatMap(HungLogs(m), hung)
  }

  function TracesOf(m: Mappers, index: nat, h: Hangers): seq<string> {
    if h.frame.Some? then m.frame(index, h.frame.value)
    else if h.replay.Some? && h.replay.value.trace.Some? then TracesAt(m, index, h.replay.value.trace.value)
    else []
  }

  function DiffsOf(m: Mappers, index: nat, h: Hangers): seq<MappedDiff> {
    if h.diff.Some? then m.debugDiff(index, h.diff.value)
    else if h.replay.Some? && h.replay.value.stateDiff.Some? then Changes(m.replayDiff(h.replay.value.stateDiff.value, index))
    else []
  }

  function IndexAt(txs: seq<Transaction>, i: nat): nat {
    if i < |txs| then txs[i].transactionIndex else 0
  }

  function HungTraces(m: Mappers, txs: seq<Transaction>): (nat, Hangers) -> seq<string> {
    (i: nat, h: Hangers) => TracesOf(m, IndexAt(txs, i), h)
  }

  function HungDiffs(m: Mappers, txs: seq<Transaction>): (nat, Hangers) -> seq<MappedDiff> {
    (i: nat, h: Hangers) => DiffsOf(m, IndexAt(txs, i), h)
  }

  function RawTraces(txs: seq<Transaction>, hung: seq<Hangers>, m: Mappers): seq<string> {
    FlatMap(HungTraces(m, txs), hung)
  }

  function RawDiffs(txs: seq<Transaction>, hung: seq<Hangers>, m: Mappers): seq<MappedDiff> {
    FlatMap(HungDiffs(m, txs), hung)
  }

  predicate LogsCount(logs: seq<MappedLog>) {
    forall i :: 0 <= i < |logs| ==> logs[i].logIndex == i
  }

  function AllRawLogs(hung: seq<Hangers>, logs: Option<seq<string>>, m: Mappers): seq<MappedLog> {
    RawLogs(hung, m) + Map(m.log, logs.GetOr([]))
  }

  function Raw(header: string, txs: seq<Transaction>, hung: seq<Hangers>, logs: Option<seq<string>>, m: Mappers, o: Options): Option<Mapped>
    requires |txs| == |hung|
  {
    if (o.checkCumulativeGasUsed && !GasAddsUp(hung, 0)) || (logs.Some? && RawLogs(hung, m) != [])
       || (o.checkLogIndex && !LogsCount(AllRawLogs(hung, logs, m))) then None
    else Some(Mapped(m.header(header), RawTransactions(txs, hung, m), AllRawLogs(hung, logs, m),
                     if o.withTraces then Some(RawTraces(txs, hung, m)) else None,
                     if o.withStateDiffs then Some(RawDiffs(txs, hung, m)) else None))
  }

  function HungAll(b: Block): (hung: seq<Hangers>)
    ensures |hung| == |b.transactions|
  {
    seq(|b.transactions|, i requires 0 <= i < |b.transactions| => HungOnto(b, i, Nothing))
  }

  // ---------- Both ways lead to the same block ----------

  /** Transactions are numbered and told apart by their hashes, and every list has one entry for each of them. */
  ghost predicate Aligned(b: Block) {
    && (forall i, j :: 0 <= i < j < |b.transactions| ==> b.transactions[i].hash != b.transactions[j].hash)
    && (forall i :: 0 <= i < |b.transactions| ==> AlignedAt(b, i))
    && (b.receipts.Some? ==> |b.receipts.value| == |b.transactions|)
    && (b.traceReplays.Some? ==> |b.traceReplays.value| == |b.transactions|)
    && (b.debugFrames.Some? ==> |b.debugFrames.value| == |b.transactions|)
    && (b.debugStateDiffs.Some? ==> |b.debugStateDiffs.value| == |b.transactions|)
  }

  ghost predicate AlignedAt(b: Block, i: nat)
    requires i < |b.transactions|
  {
    var hash := b.transactions[i].hash;
    && b.transactions[i].transactionIndex == i
    && (At(b.receipts, i).Some? ==> At(b.receipts, i).value.transactionHash == hash)
    && (At(b.traceReplays, i).Some? ==> At(b.traceReplays, i).value.transactionHash == Some(hash))
    && (At(b.debugFrames, i).Some? && At(b.debugFrames, i).value.Some? ==> Fits(At(b.debugFrames, i).value.value.txHash, hash))
    && (At(b.debugStateDiffs, i).Some? && At(b.debugStateDiffs, i).value.Some? ==>
          Fits(At(b.debugStateDiffs, i).value.value.txHash, hash))
  }

  /** Each kind of data has one source. */
  ghost predicate OneSource(b: Block) {
    && (b.logs.Some? ==> b.receipts == None)
    && (b.debugFrames.Some? ==> forall replay <- b.traceReplays.GetOr([]) :: replay.trace == None)
    && (b.debugStateDiffs.Some? ==> forall replay <- b.traceReplays.GetOr([]) :: replay.stateDiff == None)
  }

  lemma TxIndexIs(txs: seq<Transaction>, i: nat)
    requires i < |txs| && forall i, j :: 0 <= i < j < |txs| ==> txs[i].hash != txs[j].hash
    ensures TxIndex(txs, txs[i].hash) == Some(i)
  {
    assert txs[i] in txs;
  }

  lemma SameHash(b: Block, i: nat, j: nat)
    requires Aligned(b) && i < |b.transactions| && j < |b.transactions| && b.transactions[i].hash == b.transactions[j].hash
    ensures i == j
  {
  }

  lemma ReceiptIsAt(b: Block, i: nat)
    requires Aligned(b) && i < |b.transactions| && b.receipts.Some?
    ensures ReceiptOf(b.receipts.value, b.transactions[i].hash) == Some(b.receipts.value[i])
  {
    var hash := b.transactions[i].hash;
    assert AlignedAt(b, i) && At(b.receipts, i) == Some(b.receipts.value[i]);
    assert b.receipts.value[i] in b.receipts.value;
    var j :| 0 <= j < |b.receipts.value| && b.receipts.value[j] == ReceiptOf(b.receipts.value, hash).value;
    assert AlignedAt(b, j) && At(b.receipts, j) == Some(b.receipts.value[j]);
    assert ReceiptOf(b.receipts.value, hash).Some?;
    assert b.transactions[j].hash == hash;
    SameHash(b, i, j);
  }

  lemma ReplayIsAt(b: Block, i: nat)
    requires Aligned(b) && i < |b.transactions| && b.traceReplays.Some?
    ensures ReplayOf(b.traceReplays.value, b.transactions[i].hash) == Some(b.traceReplays.value[i])
    ensures IndexOfReplay(b.transactions, b.traceReplays.value[i]) == Some(i)
  {
    var hash := b.transactions[i].hash;
    assert AlignedAt(b, i) && At(b.traceReplays, i) == Some(b.traceReplays.value[i]);
    assert b.traceReplays.value[i] in b.traceReplays.value;
    var j :| 0 <= j < |b.traceReplays.value| && b.traceReplays.value[j] == ReplayOf(b.traceReplays.value, hash).value;
    assert AlignedAt(b, j) && At(b.traceReplays, j) == Some(b.traceReplays.value[j]);
    assert ReplayOf(b.traceReplays.value, hash).Some?;
    assert b.transactions[j].hash == hash;
    SameHash(b, i, j);
    TxIndexIs(b.transactions, i);
  }

  /** With aligned lists, what is hung onto a transaction is what the lists hold at its position. */
  lemma HungIsAt(b: Block, i: nat)
    requires Aligned(b) && i < |b.transactions|
    ensures HungOnto(b, i, Nothing) == Hangers(At(b.receipts, i), At(b.traceReplays, i),
                                               At(b.debugFrames, i).GetOr(None), At(b.debugStateDiffs, i).GetOr(None))
    ensures HangsWell(b, i)
  {
    hide ReceiptOf, ReplayOf;
    assert AlignedAt(b, i);
    if b.receipts.Some? { ReceiptIsAt(b, i); }
    if b.traceReplays.Some? { ReplayIsAt(b, i); }
  }

  lemma {:induction false} FlatMapNothing<A, B>(f: (nat, A) -> seq<B>, s: seq<A>)
    requires forall i :: 0 <= i < |s| ==> f(i, s[i]) == []
    ensures FlatMap(f, s) == []
  {
    if s != [] {
      var n := |s| - 1;
      forall i | 0 <= i < n ensures f(i, s[..n][i]) == [] {
        assert f(i, s[i]) == [];
      }
      FlatMapNothing(f, s[..n]);
    }
  }

  lemma SameLogs(b: Block, m: Mappers)
    requires Aligned(b) && OneSource(b)
    ensures AllRawLogs(HungAll(b), b.logs, m) == DirectLogs(b, m) && (b.logs.Some? ==> RawLogs(HungAll(b), m) == [])
  {
    var hung := HungAll(b);
    var f := HungLogs(m);
    var g := ReceiptLogs(m);
    if b.receipts.Some? {
      forall i | 0 <= i < |hung| ensures f(i, hung[i]) == g(i, b.receipts.value[i]) {
        HungIsAt(b, i);
      }
      SameFlatMap(f, hung, g, b.receipts.value);
      assert Map(m.log, []) == [];
    } else {
      forall i | 0 <= i < |hung| ensures f(i, hung[i]) == [] {
        HungIsAt(b, i);
      }
      FlatMapNothing(f, hung);
    }
  }

  lemma SameTraces(b: Block, m: Mappers)
    requires Aligned(b) && OneSource(b)
    ensures RawTraces(b.transactions, HungAll(b), m) == DirectTraces(b, m)
  {
    var txs, hung := b.transactions, HungAll(b);
    var f := HungTraces(m, txs);
    if b.debugFrames.Some? {
      forall i | 0 <= i < |hung| ensures f(i, hung[i]) == FrameTraces(m)(i, b.debugFrames.value[i]) {
        FramesOnly(b, m, i);
      }
      SameFlatMap(f, hung, FrameTraces(m), b.debugFrames.value);
    } else if b.traceReplays.Some? {
      forall i | 0 <= i < |hung| ensures f(i, hung[i]) == ReplayTraces(m, txs)(i, b.traceReplays.value[i]) {
        ReplaysOnly(b, m, i);
      }
      SameFlatMap(f, hung, ReplayTraces(m, txs), b.traceReplays.value);
    } else {
      forall i | 0 <= i < |hung| ensures f(i, hung[i]) == [] {
        HungIsAt(b, i);
        assert hung[i].frame == None && hung[i].replay == None;
        assert f(i, hung[i]) == TracesOf(m, IndexAt(txs, i), hung[i]);
      }
      FlatMapNothing(f, hung);
    }
  }

  lemma ReplaysOnly(b: Block, m: Mappers, i: nat)
    requires Aligned(b) && i < |b.transactions| && b.traceReplays.Some?
    ensures b.debugFrames == None ==>
              TracesOf(m, IndexAt(b.transactions, i), HungAll(b)[i])
              == ReplayTraces(m, b.transactions)(i, b.traceReplays.value[i])
    ensures b.debugStateDiffs == None ==>
              DiffsOf(m, IndexAt(b.transactions, i), HungAll(b)[i])
              == ReplayDiffs(m, b.transactions)(i, b.traceReplays.value[i])
  {
    HungIsAt(b, i);
    ReplayIsAt(b, i);
    assert AlignedAt(b, i);
    var h := HungAll(b)[i];
    assert h.replay == Some(b.traceReplays.value[i]) && IndexAt(b.transactions, i) == i;
    assert b.debugFrames == None ==> h.frame == None;
    assert b.debugStateDiffs == None ==> h.diff == None;
    assert TracesAt(m, i, []) == [];
    var replay := b.traceReplays.value[i];
    assert ReplayTraces(m, b.transactions)(i, replay) == TracesAt(m, i, replay.trace.GetOr([]));
    assert ReplayDiffs(m, b.transactions)(i, replay)
        == if replay.stateDiff == None then [] else Changes(m.replayDiff(replay.stateDiff.value, i));
    assert b.debugFrames == None ==> TracesOf(m, i, h) == TracesAt(m, i, replay.trace.GetOr([]));
    assert b.debugStateDiffs == None ==> DiffsOf(m, i, h) == if replay.stateDiff == None then [] else Changes(m.replayDiff(replay.stateDiff.value, i));
  }

  lemma FramesOnly(b: Block, m: Mappers, i: nat)
    requires Aligned(b) && OneSource(b) && i < |b.transactions| && b.debugFrames.Some?
    ensures TracesOf(m, IndexAt(b.transactions, i), HungAll(b)[i]) == FrameTraces(m)(i, b.debugFrames.value[i])
  {
    HungIsAt(b, i);
    assert AlignedAt(b, i);
    assert b.traceReplays.Some? ==> b.traceReplays.value[i] in b.traceReplays.value;
  }

  lemma DiffsOnly(b: Block, m: Mappers, i: nat)
    requires Aligned(b) && OneSource(b) && i < |b.transactions| && b.debugStateDiffs.Some?
    ensures DiffsOf(m, IndexAt(b.transactions, i), HungAll(b)[i]) == DebugDiffs(m)(i, b.debugStateDiffs.value[i])
  {
    HungIsAt(b, i);
    assert AlignedAt(b, i);
    assert b.traceReplays.Some? ==> b.traceReplays.value[i] in b.traceReplays.value;
  }

  lemma SameDiffs(b: Block, m: Mappers)
    requires Aligned(b) && OneSource(b)
    ensures RawDiffs(b.transactions, HungAll(b), m) == DirectDiffs(b, m)
  {
    var txs, hung := b.transactions, HungAll(b);
    var f := HungDiffs(m, txs);
    if b.debugStateDiffs.Some? {
      forall i | 0 <= i < |hung| ensures f(i, hung[i]) == DebugDiffs(m)(i, b.debugStateDiffs.value[i]) {
        DiffsOnly(b, m, i);
      }
      SameFlatMap(f, hung, DebugDiffs(m), b.debugStateDiffs.value);
    } else if b.traceReplays.Some? {
      forall i | 0 <= i < |hung| ensures f(i, hung[i]) == ReplayDiffs(m, txs)(i, b.traceReplays.value[i]) {
        ReplaysOnly(b, m, i);
      }
      SameFlatMap(f, hung, ReplayDiffs(m, txs), b.traceReplays.value);
    } else {
      forall i | 0 <= i < |hung| ensures f(i, hung[i]) == [] {
        HungIsAt(b, i);
        assert hung[i].diff == None && hung[i].replay == None;
        assert f(i, hung[i]) == DiffsOf(m, IndexAt(txs, i), hung[i]);
      }
      FlatMapNothing(f, hung);
    }
  }

  lemma SameTransactions(b: Block, m: Mappers)
    requires Aligned(b)
    ensures RawTransactions(b.transactions, HungAll(b), m) == DirectTransactions(b, m)
  {
    forall i | 0 <= i < |b.transactions|
      ensures RawTransactions(b.transactions, HungAll(b), m)[i] == DirectTransactions(b, m)[i]
    {
      HungIsAt(b, i);
    }
  }

  lemma NothingFails(b: Block, o: Options)
    requires Aligned(b) && OneSource(b)
    ensures CanHang(b) && !DirectFails(b, o)
  {
    forall i | 0 <= i < |b.transactions| ensures HangsWell(b, i) && AlignedAt(b, i) {
      HungIsAt(b, i);
    }
    if b.traceReplays.Some? {
      forall i | 0 <= i < |b.transactions| ensures IndexOfReplay(b.transactions, b.traceReplays.value[i]) == Some(i) {
        ReplayIsAt(b, i);
      }
      forall replay <- b.traceReplays.value ensures IndexOfReplay(b.transactions, replay).Some? {
        var i :| 0 <= i < |b.transactions| && b.traceReplays.value[i] == replay;
      }
    }
    assert ReplaysKnown(b);
    forall i | 0 <= i < |b.transactions| && At(b.receipts, i).Some?
      ensures At(b.receipts, i).value.transactionHash == b.transactions[i].hash
    {
      assert AlignedAt(b, i);
    }
  }

  /** The optional checks of the old format, on what the direct way yields. */
  predicate ChecksPass(b: Block, m: Mappers, o: Options) {
    && (o.checkCumulativeGasUsed ==> GasAddsUp(HungAll(b), 0))
    && (o.checkLogIndex ==> LogsCount(DirectLogs(b, m)))
  }

  /** For aligned blocks with one source for each kind of data the detour changes nothing. */
  lemma RoutesAgree(b: Block, m: Mappers, o: Options)
    requires Aligned(b) && OneSource(b)
    ensures CanHang(b) && Direct(b, m, o).Some?
    ensures Raw(b.header, b.transactions, HungAll(b), b.logs, m, o) == if ChecksPass(b, m, o) then Direct(b, m, o) else None
  {
    hide Aligned, OneSource, GasAddsUp, LogsCount, RawTransactions, DirectTransactions, AllRawLogs, DirectLogs, RawLogs;
    hide RawTraces, DirectTraces, RawDiffs, DirectDiffs, DirectFails, CanHang, HungAll;
    NothingFails(b, o);
    SameTransactions(b, m);
    SameLogs(b, m);
    SameTraces(b, m);
    SameDiffs(b, m);
  }

  // ---------- What the direct way yields ----------

  /** The parts that a list is flattened from. */
  lemma {:induction false} FlatMapLays<A, B>(f: (nat, A) -> seq<B>, s: seq<A>) returns (parts: seq<seq<B>>)
    ensures |parts| == |s| && (forall i :: 0 <= i < |s| ==> parts[i] == f(i, s[i])) && Lays(FlatMap(f, s), parts)
    decreases |s|
  {
    hide Lays;
    if s == [] {
      parts := [];
      LaysNone(FlatMap(f, s), parts);
    } else {
      var n := |s| - 1;
      parts := FlatMapLays(f, s[..n]);
      LaysMore(FlatMap(f, s[..n]), parts, f(n, s[n]));
      parts := parts + [f(n, s[n])];
    }
  }

  lemma {:induction false} ChangesSelects(diffs: seq<MappedDiff>)
    ensures Selects(diffs, Differs(), Changes(diffs))
  {
    hide Selects;
    if diffs == [] {
      SelectsNone(diffs, Differs());
    } else {
      var n := |diffs| - 1;
      ChangesSelects(diffs[..n]);
      SelectsMore(diffs[..n], Differs(), Changes(diffs[..n]), diffs[n]);
      assert diffs == diffs[..n] + [diffs[n]];
      assert Changes(diffs[..n]) + [] == Changes(diffs[..n]);
    }
  }

  lemma {:induction false} LastIsIt(txs: seq<Transaction>, hash: Hash)
    ensures var i := TxIndex(txs, hash);
            i.Some? ==> forall j :: i.value < j < |txs| ==> txs[j].hash != txs[i.value].hash
  {
    if txs != [] {
      LastIsIt(txs[..|txs| - 1], hash);
    }
  }

  lemma ReplayIndexIs(txs: seq<Transaction>, replay: Replay)
    ensures var i := IndexOfReplay(txs, replay); if i.Some? then IsOf(txs, replay, i.value) else IsLost(txs, replay)
  {
    if replay.transactionHash.Some? { LastIsIt(txs, replay.transactionHash.value); }
  }

  lemma DirectFailsIff(b: Block, o: Options)
    ensures DirectFails(b, o) <==> CannotBeNormalized(b, o)
  {
    hide IsLost, IsOf;
    forall replay ensures IndexOfReplay(b.transactions, replay) == None <==> IsLost(b.transactions, replay) {
      ReplayIndexIs(b.transactions, replay);
      NotBoth(b.transactions, replay);
    }
    assert !ReceiptsMatch(b) <==> exists i :: 0 <= i < |b.transactions| && b.receipts.Some? && i < |b.receipts.value|
                                              && b.receipts.value[i].transactionHash != b.transactions[i].hash by {
      if !ReceiptsMatch(b) {
        var i :| 0 <= i < |b.transactions| && At(b.receipts, i).Some? && At(b.receipts, i).value.transactionHash != b.transactions[i].hash;
        assert b.receipts.value[i].transactionHash != b.transactions[i].hash;
      }
      if i :| 0 <= i < |b.transactions| && b.receipts.Some? && i < |b.receipts.value|
              && b.receipts.value[i].transactionHash != b.transactions[i].hash {
        assert At(b.receipts, i) == Some(b.receipts.value[i]);
      }
    }
  }

  lemma NotBoth(txs: seq<Transaction>, replay: Replay)
    ensures IsLost(txs, replay) ==> forall index: nat :: !IsOf(txs, replay, index)
  {
    forall index: nat | IsOf(txs, replay, index) ensures !IsLost(txs, replay) {
      assert txs[index] in txs;
    }
  }

  lemma DirectTracesAre(b: Block, m: Mappers)
    requires b.debugFrames.Some? || ReplaysKnown(b)
    ensures TracesAreMapped(b, m, DirectTraces(b, m))
  {
    hide Lays, FlatMap, IsOf;
    if b.debugFrames.Some? {
      var parts := FlatMapLays(FrameTraces(m), b.debugFrames.value);
      assert AreFrames(m, b.debugFrames.value, parts);
    } else {
      var txs, replays := b.transactions, b.traceReplays.GetOr([]);
      var parts := FlatMapLays(ReplayTraces(m, txs), replays);
      forall i | 0 <= i < |parts| ensures ReplayIsTraced(txs, m, replays[i], parts[i]) {
        ReplayIndexIs(txs, replays[i]);
        assert IndexOfReplay(txs, replays[i]).Some? by { assert replays[i] in replays; }
        assert IsOf(txs, replays[i], IndexOfReplay(txs, replays[i]).value);
      }
      assert AreReplays(txs, m, replays, parts);
    }
  }

  lemma ReplayDiffsAre(m: Mappers, txs: seq<Transaction>, i: nat, replay: Replay)
    ensures ReplayDiffs(m, txs)(i, replay)
         == if replay.stateDiff == None then []
            else Changes(m.replayDiff(replay.stateDiff.value, IndexOfReplay(txs, replay).GetOr(0)))
  {
  }

  lemma DirectDiffsAre(b: Block, m: Mappers)
    requires b.debugStateDiffs.Some? || ReplaysKnown(b)
    ensures DiffsAreMapped(b, m, DirectDiffs(b, m))
  {
    hide Lays, FlatMap, IsOf, Selects, Changes;
    if b.debugStateDiffs.Some? {
      var parts := FlatMapLays(DebugDiffs(m), b.debugStateDiffs.value);
      assert AreDebugDiffs(m, b.debugStateDiffs.value, parts);
    } else {
      var txs, replays := b.transactions, b.traceReplays.GetOr([]);
      var parts := FlatMapLays(ReplayDiffs(m, txs), replays);
      forall i | 0 <= i < |parts| ensures ReplayIsDiffed(txs, m, replays[i], parts[i]) {
        ReplayIndexIs(txs, replays[i]);
        assert IndexOfReplay(txs, replays[i]).Some? by { assert replays[i] in replays; }
        var index := IndexOfReplay(txs, replays[i]).value;
        assert IsOf(txs, replays[i], index);
        ReplayDiffsAre(m, txs, i, replays[i]);
        if replays[i].stateDiff.Some? { ChangesSelects(m.replayDiff(replays[i].stateDiff.value, index)); }
        assert AreChanges(m, replays[i].stateDiff, index, parts[i]);
      }
      assert AreReplayDiffs(txs, m, replays, parts);
    }
  }

  lemma DirectLogsAre(b: Block, m: Mappers)
    requires b.receipts.Some? ==> b.logs.GetOr([]) == []
    ensures LogsAreMapped(b, m, DirectLogs(b, m))
  {
    hide Lays, FlatMap;
    NoReceiptLogs(m);
    var parts := FlatMapLays(ReceiptLogs(m), b.receipts.GetOr([]));
    assert [] + FlatMap(ReceiptLogs(m), b.receipts.GetOr([])) == FlatMap(ReceiptLogs(m), b.receipts.GetOr([]));
    assert AreReceiptLogs(m, b.receipts.GetOr([]), parts);
  }

  /** Whatever the direct way yields holds what a normalized block has to hold. */
  lemma DirectIsNormalized(b: Block, m: Mappers, o: Options)
    ensures var r := Direct(b, m, o); r.Some? ==> IsNormalized(b, m, o, r.value)
  {
    hide DirectLogs, DirectTraces, DirectDiffs, ReplaysKnown, LogsAreMapped, TracesAreMapped, DiffsAreMapped;
    if !DirectFails(b, o) {
      DirectLogsAre(b, m);
      if o.withTraces { DirectTracesAre(b, m); }
      if o.withStateDiffs { DirectDiffsAre(b, m); }
      assert TransactionsAreMapped(b, m, DirectTransactions(b, m));
    }
  }

  // ---------- What comes from the old format ----------

  lemma TracedIs(m: Mappers, index: nat, h: Hangers)
    ensures IsTraced(m, index, h, TracesOf(m, index, h))
  {
  }

  lemma DiffedIs(m: Mappers, index: nat, h: Hangers)
    ensures IsDiffed(m, index, h, DiffsOf(m, index, h))
  {
    hide Selects, Changes;
    if h.diff == None && h.replay.Some? && h.replay.value.stateDiff.Some? {
      ChangesSelects(m.replayDiff(h.replay.value.stateDiff.value, index));
    }
  }

  lemma HungAre(m: Mappers, txs: seq<Transaction>, i: nat, h: Hangers)
    requires i < |txs|
    ensures HungTraces(m, txs)(i, h) == TracesOf(m, txs[i].transactionIndex, h)
    ensures HungDiffs(m, txs)(i, h) == DiffsOf(m, txs[i].transactionIndex, h)
  {
  }

  lemma RawTracesAre(txs: seq<Transaction>, hung: seq<Hangers>, m: Mappers) returns (parts: seq<seq<string>>)
    requires |txs| == |hung|
    ensures Lays(RawTraces(txs, hung, m), parts) && AreHungTraces(txs, hung, m, parts)
  {
    hide Lays, FlatMap, TracesOf, IsTraced;
    parts := FlatMapLays(HungTraces(m, txs), hung);
    forall i | 0 <= i < |parts| ensures IsTraced(m, txs[i].transactionIndex, hung[i], parts[i]) {
      TracedIs(m, txs[i].transactionIndex, hung[i]);
      HungAre(m, txs, i, hung[i]);
    }
  }

  lemma RawDiffsAre(txs: seq<Transaction>, hung: seq<Hangers>, m: Mappers) returns (parts: seq<seq<MappedDiff>>)
    requires |txs| == |hung|
    ensures Lays(RawDiffs(txs, hung, m), parts) && AreHungDiffs(txs, hung, m, parts)
  {
    hide Lays, FlatMap, DiffsOf, IsDiffed;
    parts := FlatMapLays(HungDiffs(m, txs), hung);
    forall i | 0 <= i < |parts| ensures IsDiffed(m, txs[i].transactionIndex, hung[i], parts[i]) {
      DiffedIs(m, txs[i].transactionIndex, hung[i]);
      HungAre(m, txs, i, hung[i]);
    }
  }

  lemma RawLogsAre(hung: seq<Hangers>, m: Mappers) returns (parts: seq<seq<MappedLog>>)
    ensures Lays(RawLogs(hung, m), parts) && AreHungLogs(m, hung, parts)
  {
    hide Lays, FlatMap;
    parts := FlatMapLays(HungLogs(m), hung);
    forall i | 0 <= i < |parts| ensures parts[i] == if hung[i].receipt == None then [] else Map(m.log, hung[i].receipt.value.logs) {
      assert parts[i] == HungLogs(m)(i, hung[i]);
    }
  }

  lemma OneMoreHung(hung: seq<Hangers>, n: nat)
    requires n + 1 == |hung|
    ensures (exists h <- hung :: HasLogs(h)) <==> (exists h <- hung[..n] :: HasLogs(h)) || HasLogs(hung[n])
  {
    hide HasLogs;
    assert hung == hung[..n] + [hung[n]];
  }

  /** There are logs exactly when a receipt has some. */
  lemma {:induction false} NoLogsIff(hung: seq<Hangers>, m: Mappers)
    ensures RawLogs(hung, m) != [] <==> exists h <- hung :: HasLogs(h)
  {
    hide HasLogs, HungLogs;
    if hung != [] {
      var n := |hung| - 1;
      NoLogsIff(hung[..n], m);
      HungLogsAre(m, n, hung[n]);
      OneMoreHung(hung, n);
      assert RawLogs(hung, m) == RawLogs(hung[..n], m) + HungLogs(m)(n, hung[n]);
    }
  }

  lemma HungLogsAre(m: Mappers, i: nat, h: Hangers)
    ensures HungLogs(m)(i, h) == if h.receipt == None then [] else Map(m.log, h.receipt.value.logs)
    ensures HungLogs(m)(i, h) != [] <==> HasLogs(h)
  {
  }

  /** The logs are those that the old format brings, and there is only one such list. */
  lemma AllLogsAre(hung: seq<Hangers>, logs: Option<seq<string>>, m: Mappers)
    requires logs.Some? ==> RawLogs(hung, m) == []
    ensures HungLogsAreMapped(hung, logs, m, AllRawLogs(hung, logs, m))
  {
    hide FlatMap, Lays;
    if logs == None {
      var parts := RawLogsAre(hung, m);
      assert AllRawLogs(hung, logs, m) == RawLogs(hung, m) by { assert Map(m.log, []) == []; }
    }
  }

  lemma OneListOfLogs(hung: seq<Hangers>, logs: Option<seq<string>>, m: Mappers, all: seq<MappedLog>, others: seq<MappedLog>)
    requires HungLogsAreMapped(hung, logs, m, all) && HungLogsAreMapped(hung, logs, m, others)
    ensures all == others
  {
    hide Lays;
    if logs == None {
      var parts :| Lays(all, parts) && AreHungLogs(m, hung, parts);
      var parts' :| Lays(others, parts') && AreHungLogs(m, hung, parts');
      forall i | 0 <= i < |parts| ensures parts[i] == parts'[i] {
        assert hung[i].receipt.Some? ==> AreMapped(m.log, hung[i].receipt.value.logs, parts[i]);
      }
      assert parts == parts';
      LaidIsUnique(all, others, parts);
    }
  }

  lemma MiscountedIff(logs: seq<MappedLog>)
    ensures Miscounted(logs) <==> !LogsCount(logs)
  {
  }

  lemma RawFailsIff(header: string, txs: seq<Transaction>, hung: seq<Hangers>, logs: Option<seq<string>>, m: Mappers, o: Options)
    requires |txs| == |hung|
    ensures Raw(header, txs, hung, logs, m, o) == None <==> CannotComeFromOld(hung, logs, m, o)
  {
    hide RawLogs, AllRawLogs, RawTransactions, RawTraces, RawDiffs, HungLogsAreMapped, Miscounted, LogsCount, HasLogs;
    NoLogsIff(hung, m);
    var all := AllRawLogs(hung, logs, m);
    MiscountedIff(all);
    if !(logs.Some? && exists h <- hung :: HasLogs(h)) {
      AllLogsAre(hung, logs, m);
      forall others | HungLogsAreMapped(hung, logs, m, others) ensures others == all {
        OneListOfLogs(hung, logs, m, all, others);
      }
    }
  }

  /** Whatever comes from the old format holds all that was hung onto the transactions, and nothing else. */
  lemma RawIsFromOld(header: string, txs: seq<Transaction>, hung: seq<Hangers>, logs: Option<seq<string>>, m: Mappers, o: Options)
    requires |txs| == |hung|
    ensures var r := Raw(header, txs, hung, logs, m, o); r.Some? ==> IsFromOld(header, txs, hung, logs, m, o, r.value)
  {
    hide RawLogs, AllRawLogs, RawTraces, RawDiffs, HungLogsAreMapped, LogsCount, HasLogs, Lays, AreHungTraces, AreHungDiffs, GasAddsUp;
    if Raw(header, txs, hung, logs, m, o).Some? {
      AllLogsAre(hung, logs, m);
      var traced := RawTracesAre(txs, hung, m);
      var changed := RawDiffsAre(txs, hung, m);
    }
  }

  // ---------- The code of both ways ----------

  lemma FlatMapMore<A, B>(f: (nat, A) -> seq<B>, s: seq<A>, i: nat)
    requires i < |s|
    ensures FlatMap(f, s[..i + 1]) == FlatMap(f, s[..i]) + f(i, s[i])
  {
    assert s[..i + 1][..i] == s[..i];
  }

  method PushLogs(m: Mappers, logs: seq<string>) returns (mapped: seq<MappedLog>)
    ensures mapped == Map(m.log, logs)
  {
    mapped := [];
    for i := 0 to |logs|
      invariant mapped == Map(m.log, logs[..i])
    {
      mapped := mapped + [m.log(logs[i])];
    }
    assert logs[..|logs|] == logs;
  }

  method MapTransactions(b: Block, m: Mappers) returns (ok: bool, mapped: seq<string>)
    ensures ok <==> ReceiptsMatch(b)
    ensures ok ==> mapped == DirectTransactions(b, m)
  {
    mapped := [];
    for i := 0 to |b.transactions|
      invariant |mapped| == i && forall j :: 0 <= j < i ==> mapped[j] == m.transaction(b.transactions[j].body, At(b.receipts, j))
      invariant forall j :: 0 <= j < i && At(b.receipts, j).Some? ==>
                  At(b.receipts, j).value.transactionHash == b.transactions[j].hash
    {
      var tx, receipt := b.transactions[i], At(b.receipts, i);
      if receipt.Some? && tx.hash != receipt.value.transactionHash { return false, mapped; }
      mapped := mapped + [m.transaction(tx.body, receipt)];
    }
    return true, mapped;
  }

  method FlatMapLoop<A, B>(f: (nat, A) -> seq<B>, s: seq<A>) returns (r: seq<B>)
    ensures r == FlatMap(f, s)
  {
    r := [];
    for i := 0 to |s|
      invariant r == FlatMap(f, s[..i])
    {
      FlatMapMore(f, s, i);
      r := r + f(i, s[i]);
    }
    assert s[..|s|] == s;
  }

  method PushTraces(m: Mappers, index: nat, traces: seq<string>) returns (mapped: seq<string>)
    ensures mapped == TracesAt(m, index, traces)
  {
    mapped := [];
    for i := 0 to |traces|
      invariant |mapped| == i && forall j :: 0 <= j < i ==> mapped[j] == m.trace(traces[j], index)
    {
      mapped := mapped + [m.trace(traces[i], index)];
    }
  }

  method PushChanges(diffs: seq<MappedDiff>) returns (changes: seq<MappedDiff>)
    ensures changes == Changes(diffs)
  {
    changes := [];
    for i := 0 to |diffs|
      invariant changes == Changes(diffs[..i])
    {
      assert diffs[..i + 1][..i] == diffs[..i];
      if !diffs[i].same {
        changes := changes + [diffs[i]];
      }
    }
    assert diffs[..|diffs|] == diffs;
  }

  /** The traces of all replays, unless one belongs to no transaction. */
  method MapReplayTraces(txs: seq<Transaction>, replays: seq<Replay>, m: Mappers) returns (ok: bool, mapped: seq<string>)
    ensures ok <==> forall replay <- replays :: IndexOfReplay(txs, replay).Some?
    ensures ok ==> mapped == FlatMap(ReplayTraces(m, txs), replays)
  {
    mapped := [];
    for i := 0 to |replays|
      invariant forall j :: 0 <= j < i ==> IndexOfReplay(txs, replays[j]).Some?
      invariant mapped == FlatMap(ReplayTraces(m, txs), replays[..i])
    {
      var index := IndexOfReplay(txs, replays[i]);
      if index == None { return false, mapped; }
      FlatMapMore(ReplayTraces(m, txs), replays, i);
      var more := PushTraces(m, index.value, replays[i].trace.GetOr([]));
      mapped := mapped + more;
    }
    assert replays[..|replays|] == replays;
    return true, mapped;
  }

  lemma NoReplays(m: Mappers, txs: seq<Transaction>)
    ensures FlatMap(ReplayDiffs(m, txs), []) == []
  {
  }

  method MapReplayDiffs(txs: seq<Transaction>, replays: seq<Replay>, m: Mappers) returns (ok: bool, mapped: seq<MappedDiff>)
    ensures ok <==> forall replay <- replays :: IndexOfReplay(txs, replay).Some?
    ensures ok ==> mapped == FlatMap(ReplayDiffs(m, txs), replays)
  {
    hide FlatMap, Changes, TxIndex, ReplayDiffs;
    assert FlatMap(ReplayDiffs(m, txs), []) == [] by { NoReplays(m, txs); }
    mapped := [];
    for i := 0 to |replays|
      invariant forall j :: 0 <= j < i ==> IndexOfReplay(txs, replays[j]).Some?
      invariant mapped == FlatMap(ReplayDiffs(m, txs), replays[..i])
    {
      var index := IndexOfReplay(txs, replays[i]);
      if index == None { return false, mapped; }
      FlatMapMore(ReplayDiffs(m, txs), replays, i);
      ReplayDiffsAre(m, txs, i, replays[i]);
      if replays[i].stateDiff.Some? {
        var more := PushChanges(m.replayDiff(replays[i].stateDiff.value, index.value));
        mapped := mapped + more;
      } else {
        assert mapped + [] == mapped;
      }
    }
    assert replays[..|replays|] == replays;
    return true, mapped;
  }

  method MapRpcBlock(b: Block, m: Mappers, o: Options) returns (r: Option<Mapped>)
    ensures r == Direct(b, m, o)
    ensures r == None <==> CannotBeNormalized(b, o)
    ensures r.Some? ==> IsNormalized(b, m, o, r.value)
  {
    hide ReceiptsMatch, DirectTransactions, IsNormalized, CannotBeNormalized, FlatMap;
    DirectFailsIff(b, o);
    DirectIsNormalized(b, m, o);
    var ok, transactions := MapTransactions(b, m);
    if !ok { return None; }
    var logs := PushLogs(m, b.logs.GetOr([]));
    if b.receipts.Some? {
      if logs != [] { return None; }
      var more := FlatMapLoop(ReceiptLogs(m), b.receipts.value);
      logs := logs + more;
    }
    assert logs == DirectLogs(b, m) by { NoReceiptLogs(m); }
    var traces, diffs := None, None;
    if o.withTraces {
      var list;
      if b.debugFrames.Some? {
        list := FlatMapLoop(FrameTraces(m), b.debugFrames.value);
      } else {
        ok, list := MapReplayTraces(b.transactions, b.traceReplays.GetOr([]), m);
        if !ok { return None; }
      }
      traces := Some(list);
    }
    if o.withStateDiffs {
      var list;
      if b.debugStateDiffs.Some? {
        list := FlatMapLoop(DebugDiffs(m), b.debugStateDiffs.value);
      } else {
        ok, list := MapReplayDiffs(b.transactions, b.traceReplays.GetOr([]), m);
        if !ok { return None; }
      }
      diffs := Some(list);
    }
    return Some(Mapped(m.header(b.header), transactions, logs, traces, diffs));
  }

  lemma NoReceiptLogs(m: Mappers)
    ensures FlatMap(ReceiptLogs(m), []) == []
  {
  }

  predicate AllHaveReceipts(txs: seq<Transaction>, receipts: seq<Receipt>) {
    forall i :: 0 <= i < |txs| ==> ReceiptOf(receipts, txs[i].hash).Some?
  }

  predicate AllHaveReplays(txs: seq<Transaction>, replays: seq<Replay>) {
    && (forall replay <- replays :: replay.transactionHash.Some?)
    && forall i :: 0 <= i < |txs| ==> ReplayOf(replays, txs[i].hash).Some?
  }

  predicate AllFramesFit(txs: seq<Transaction>, frames: seq<Option<Frame>>) {
    forall i :: 0 <= i < |txs| && i < |frames| && frames[i].Some? ==> Fits(frames[i].value.txHash, txs[i].hash)
  }

  predicate AllDiffsFit(txs: seq<Transaction>, diffs: seq<Option<DebugDiff>>) {
    forall i :: 0 <= i < |txs| && i < |diffs| && diffs[i].Some? ==> Fits(diffs[i].value.txHash, txs[i].hash)
  }

  method HangReceipts(txs: seq<Transaction>, receipts: seq<Receipt>) returns (ok: bool)
    requires forall i, j :: 0 <= i < j < |txs| ==> txs[i] != txs[j]
    modifies txs`receipt_
    ensures ok <==> AllHaveReceipts(txs, receipts)
    ensures ok ==> forall i :: 0 <= i < |txs| ==> txs[i].receipt_ == ReceiptOf(receipts, txs[i].hash)
  {
    for n := 0 to |txs|
      invariant forall i :: 0 <= i < n ==> ReceiptOf(receipts, txs[i].hash).Some? && txs[i].receipt_ == ReceiptOf(receipts, txs[i].hash)
    {
      var receipt := ReceiptOf(receipts, txs[n].hash);
      if receipt == None { return false; }
      txs[n].receipt_ := receipt;
    }
    return true;
  }

  method HangReplays(txs: seq<Transaction>, replays: seq<Replay>) returns (ok: bool)
    requires forall i, j :: 0 <= i < j < |txs| ==> txs[i] != txs[j]
    modifies txs`traceReplay_
    ensures ok <==> AllHaveReplays(txs, replays)
    ensures ok ==> forall i :: 0 <= i < |txs| ==> txs[i].traceReplay_ == ReplayOf(replays, txs[i].hash)
  {
    if exists replay <- replays :: replay.transactionHash == None { return false; }
    for n := 0 to |txs|
      invariant forall i :: 0 <= i < n ==> ReplayOf(replays, txs[i].hash).Some? && txs[i].traceReplay_ == ReplayOf(replays, txs[i].hash)
    {
      var replay := ReplayOf(replays, txs[n].hash);
      if replay == None { return false; }
      txs[n].traceReplay_ := replay;
    }
    return true;
  }

  method HangFrames(txs: seq<Transaction>, frames: seq<Option<Frame>>) returns (ok: bool)
    requires forall i, j :: 0 <= i < j < |txs| ==> txs[i] != txs[j]
    modifies txs`debugFrame_
    ensures ok <==> AllFramesFit(txs, frames)
    ensures ok ==> forall i :: 0 <= i < |txs| ==> txs[i].debugFrame_ == At(Some(frames), i).GetOr(None)
  {
    for n := 0 to |txs|
      invariant forall i :: 0 <= i < n ==> txs[i].debugFrame_ == At(Some(frames), i).GetOr(None)
      invariant forall i :: 0 <= i < n && i < |frames| && frames[i].Some? ==> Fits(frames[i].value.txHash, txs[i].hash)
    {
      var frame := At(Some(frames), n).GetOr(None);
      if frame.Some? && !Fits(frame.value.txHash, txs[n].hash) { return false; }
      txs[n].debugFrame_ := frame;
    }
    return true;
  }

  method HangDiffs(txs: seq<Transaction>, diffs: seq<Option<DebugDiff>>) returns (ok: bool)
    requires forall i, j :: 0 <= i < j < |txs| ==> txs[i] != txs[j]
    modifies txs`debugStateDiff_
    ensures ok <==> AllDiffsFit(txs, diffs)
    ensures ok ==> forall i :: 0 <= i < |txs| ==> txs[i].debugStateDiff_ == At(Some(diffs), i).GetOr(None)
  {
    for n := 0 to |txs|
      invariant forall i :: 0 <= i < n ==> txs[i].debugStateDiff_ == At(Some(diffs), i).GetOr(None)
      invariant forall i :: 0 <= i < n && i < |diffs| && diffs[i].Some? ==> Fits(diffs[i].value.txHash, txs[i].hash)
    {
      var diff := At(Some(diffs), n).GetOr(None);
      if diff.Some? && !Fits(diff.value.txHash, txs[n].hash) { return false; }
      txs[n].debugStateDiff_ := diff;
    }
    return true;
  }

  lemma {:induction false} ReceiptStands(receipts: seq<Receipt>, hash: Hash) returns (i: nat)
    requires ReceiptOf(receipts, hash).Some?
    ensures i < |receipts| && receipts[i] == ReceiptOf(receipts, hash).value
    ensures forall j :: i < j < |receipts| ==> receipts[j].transactionHash != hash
  {
    i := |receipts| - 1;
    if receipts[i].transactionHash != hash {
      i := ReceiptStands(receipts[..i], hash);
    }
  }

  lemma ReceiptIsThere(receipts: seq<Receipt>, hash: Hash)
    ensures ReceiptOf(receipts, hash).Some? <==> HasReceipt(receipts, hash)
    ensures ReceiptOf(receipts, hash).Some? ==> IsReceiptOf(receipts, hash, ReceiptOf(receipts, hash).value)
  {
    if ReceiptOf(receipts, hash).Some? {
      var i := ReceiptStands(receipts, hash);
    }
  }

  lemma {:induction false} ReplayStands(replays: seq<Replay>, hash: Hash) returns (i: nat)
    requires ReplayOf(replays, hash).Some?
    ensures i < |replays| && replays[i] == ReplayOf(replays, hash).value
    ensures forall j :: i < j < |replays| ==> replays[j].transactionHash != Some(hash)
  {
    i := |replays| - 1;
    if replays[i].transactionHash != Some(hash) {
      i := ReplayStands(replays[..i], hash);
    }
  }

  lemma ReplayIsThere(replays: seq<Replay>, hash: Hash)
    ensures ReplayOf(replays, hash).Some? <==> HasReplay(replays, hash)
    ensures ReplayOf(replays, hash).Some? ==> IsReplayOf(replays, hash, ReplayOf(replays, hash).value)
  {
    if ReplayOf(replays, hash).Some? {
      var i := ReplayStands(replays, hash);
    }
  }

  /** The same, list by list. */
  ghost predicate PartsHang(b: Block, i: nat)
    requires i < |b.transactions|
  {
    var hash := b.transactions[i].hash;
    && (b.receipts.Some? ==> ReceiptOf(b.receipts.value, hash).Some?)
    && (b.traceReplays.Some? ==> ReplayOf(b.traceReplays.value, hash).Some?)
    && (b.debugFrames.Some? && i < |b.debugFrames.value| && b.debugFrames.value[i].Some? ==>
          Fits(b.debugFrames.value[i].value.txHash, hash))
    && (b.debugStateDiffs.Some? && i < |b.debugStateDiffs.value| && b.debugStateDiffs.value[i].Some? ==>
          Fits(b.debugStateDiffs.value[i].value.txHash, hash))
  }

  lemma ListByList(b: Block, i: nat)
    requires i < |b.transactions|
    ensures PartsHang(b, i) <==> PartsFit(b, i)
  {
    hide HasReceipt, HasReplay, IsReceiptOf, IsReplayOf;
    assert forall own: Option<Hash> :: Fits(own, b.transactions[i].hash) <==> own in {None, Some(b.transactions[i].hash)};
    var hash := b.transactions[i].hash;
    if b.receipts.Some? { ReceiptIsThere(b.receipts.value, hash); }
    if b.traceReplays.Some? { ReplayIsThere(b.traceReplays.value, hash); }
  }

  lemma WhenOneHangs(b: Block, i: nat)
    requires i < |b.transactions|
    ensures HangsWell(b, i) <==> PartsHang(b, i)
  {
  }

  lemma WhenItHangs(b: Block)
    ensures CanHang(b) <==> ListsFit(b)
  {
    hide HangsWell, PartsFit, PartsHang;
    forall i | 0 <= i < |b.transactions| ensures HangsWell(b, i) <==> PartsFit(b, i) {
      WhenOneHangs(b, i);
      ListByList(b, i);
    }
  }

  lemma FitListByList(b: Block)
    ensures ListsFit(b) <==>
              && (b.logs.Some? ==> b.receipts == None)
              && (b.receipts.Some? ==> AllHaveReceipts(b.transactions, b.receipts.value))
              && (b.traceReplays.Some? ==> AllHaveReplays(b.transactions, b.traceReplays.value))
              && (b.debugFrames.Some? ==> AllFramesFit(b.transactions, b.debugFrames.value))
              && (b.debugStateDiffs.Some? ==> AllDiffsFit(b.transactions, b.debugStateDiffs.value))
  {
    hide PartsFit, Fits, ReceiptOf, ReplayOf;
    forall i | 0 <= i < |b.transactions| ensures PartsHang(b, i) <==> PartsFit(b, i) {
      ListByList(b, i);
    }
    forall i | 0 <= i < |b.transactions|
               && (b.receipts.Some? ==> AllHaveReceipts(b.transactions, b.receipts.value))
               && (b.traceReplays.Some? ==> AllHaveReplays(b.transactions, b.traceReplays.value))
               && (b.debugFrames.Some? ==> AllFramesFit(b.transactions, b.debugFrames.value))
               && (b.debugStateDiffs.Some? ==> AllDiffsFit(b.transactions, b.debugStateDiffs.value))
      ensures PartsFit(b, i)
    {
      assert PartsHang(b, i);
    }
    if ListsFit(b) {
      forall i | 0 <= i < |b.transactions|
        ensures b.receipts.Some? ==> ReceiptOf(b.receipts.value, b.transactions[i].hash).Some?
        ensures b.traceReplays.Some? ==> ReplayOf(b.traceReplays.value, b.transactions[i].hash).Some?
        ensures b.debugFrames.Some? && i < |b.debugFrames.value| && b.debugFrames.value[i].Some? ==>
                  Fits(b.debugFrames.value[i].value.txHash, b.transactions[i].hash)
        ensures b.debugStateDiffs.Some? && i < |b.debugStateDiffs.value| && b.debugStateDiffs.value[i].Some? ==>
                  Fits(b.debugStateDiffs.value[i].value.txHash, b.transactions[i].hash)
      {
        assert PartsHang(b, i);
      }
    }
  }

  lemma HungIs(b: Block, i: nat, before: Hangers)
    requires i < |b.transactions| && ListsFit(b)
    ensures IsHungOnto(b, i, before, HungOnto(b, i, before))
  {
    hide HasReceipt, HasReplay, ReceiptOf, ReplayOf, IsReceiptOf, IsReplayOf;
    assert PartsFit(b, i);
    var hash := b.transactions[i].hash;
    if b.receipts.Some? { ReceiptIsThere(b.receipts.value, hash); }
    if b.traceReplays.Some? { ReplayIsThere(b.traceReplays.value, hash); }
  }

  /** Hangs what comes with the block onto its transactions. */
  method ToRawBlock(b: Block) returns (ok: bool)
    requires forall i, j :: 0 <= i < j < |b.transactions| ==> b.transactions[i] != b.transactions[j]
    modifies b.transactions
    ensures ok <==> ListsFit(b)
    ensures ok ==> forall i :: 0 <= i < |b.transactions| ==>
              && b.transactions[i].Hung() == HungOnto(b, i, old(b.transactions[i].Hung()))
              && IsHungOnto(b, i, old(b.transactions[i].Hung()), b.transactions[i].Hung())
  {
    hide ListsFit, AllHaveReceipts, AllHaveReplays, AllFramesFit, AllDiffsFit, ReceiptOf, ReplayOf, Fits, IsHungOnto;
    FitListByList(b);
    if ListsFit(b) {
      forall i | 0 <= i < |b.transactions| ensures IsHungOnto(b, i, b.transactions[i].Hung(), HungOnto(b, i, b.transactions[i].Hung())) {
        HungIs(b, i, b.transactions[i].Hung());
      }
    }
    var txs := b.transactions;
    if b.logs.Some? && b.receipts.Some? { return false; }
    if b.receipts.Some? {
      ok := HangReceipts(txs, b.receipts.value);
      if !ok { return; }
    }
    if b.traceReplays.Some? {
      ok := HangReplays(txs, b.traceReplays.value);
      if !ok { return; }
    }
    if b.debugFrames.Some? {
      ok := HangFrames(txs, b.debugFrames.value);
      if !ok { return; }
    }
    if b.debugStateDiffs.Some? {
      ok := HangDiffs(txs, b.debugStateDiffs.value);
      if !ok { return; }
    }
    ok := true;
  }

  ghost function HungNow(txs: seq<Transaction>): (hung: seq<Hangers>)
    reads txs
    ensures |hung| == |txs|
  {
    seq(|txs|, i requires 0 <= i < |txs| reads txs => txs[i].Hung())
  }

  method TracesOfTransaction(m: Mappers, tx: Transaction) returns (traces: seq<string>)
    ensures traces == TracesOf(m, tx.transactionIndex, tx.Hung())
  {
    if tx.debugFrame_.Some? { return m.frame(tx.transactionIndex, tx.debugFrame_.value); }
    if tx.traceReplay_.Some? && tx.traceReplay_.value.trace.Some? {
      traces := PushTraces(m, tx.transactionIndex, tx.traceReplay_.value.trace.value);
      return;
    }
    return [];
  }

  method DiffsOfTransaction(m: Mappers, tx: Transaction) returns (diffs: seq<MappedDiff>)
    ensures diffs == DiffsOf(m, tx.transactionIndex, tx.Hung())
  {
    if tx.debugStateDiff_.Some? { return m.debugDiff(tx.transactionIndex, tx.debugStateDiff_.value); }
    if tx.traceReplay_.Some? && tx.traceReplay_.value.stateDiff.Some? {
      diffs := PushChanges(m.replayDiff(tx.traceReplay_.value.stateDiff.value, tx.transactionIndex));
      return;
    }
    return [];
  }

  method AreCounted(logs: seq<MappedLog>) returns (ok: bool)
    ensures ok <==> LogsCount(logs)
  {
    for i := 0 to |logs|
      invariant forall j :: 0 <= j < i ==> logs[j].logIndex == j
    {
      if logs[i].logIndex != i { return false; }
    }
    return true;
  }

  method MapRawBlock(header: string, txs: seq<Transaction>, logs: Option<seq<string>>, m: Mappers, o: Options)
      returns (r: Option<Mapped>)
    ensures r == Raw(header, txs, HungNow(txs), logs, m, o)
    ensures r == None <==> CannotComeFromOld(HungNow(txs), logs, m, o)
    ensures r.Some? ==> IsFromOld(header, txs, HungNow(txs), logs, m, o, r.value)
  {
    hide IsFromOld, CannotComeFromOld, FlatMap, Map, TracesOf, DiffsOf, GasAddsUp, LogsCount;
    ghost var hung := HungNow(txs);
    RawFailsIff(header, txs, hung, logs, m, o);
    RawIsFromOld(header, txs, hung, logs, m, o);
    RawNothing(txs, hung, m);
    var mapped, rawLogs, traces, diffs := [], [], [], [];
    var total: nat := 0;
    for i := 0 to |txs|
      invariant |mapped| == i && forall j :: 0 <= j < i ==> mapped[j] == m.transaction(txs[j].body, hung[j].receipt)
      invariant rawLogs == RawLogs(hung[..i], m)
      invariant o.withTraces ==> traces == RawTraces(txs, hung[..i], m)
      invariant o.withStateDiffs ==> diffs == RawDiffs(txs, hung[..i], m)
      invariant o.checkCumulativeGasUsed ==> GasAddsUp(hung, 0) == GasAddsUp(hung[i..], total)
    {
      var tx := txs[i];
      RawStep(txs, hung, m, i, total);
      mapped := mapped + [m.transaction(tx.body, tx.receipt_)];
      if tx.receipt_.Some? {
        var more := PushLogs(m, tx.receipt_.value.logs);
        rawLogs := rawLogs + more;
        if o.checkCumulativeGasUsed {
          if tx.receipt_.value.cumulativeGasUsed != total + tx.receipt_.value.gasUsed { return None; }
          total := tx.receipt_.value.cumulativeGasUsed;
        }
      }
      if o.withTraces {
        var more := TracesOfTransaction(m, tx);
        traces := traces + more;
      }
      if o.withStateDiffs {
        var more := DiffsOfTransaction(m, tx);
        diffs := diffs + more;
      }
    }
    RawAll(txs, hung, m, total);
    if logs.Some? {
      if rawLogs != [] { return None; }
      rawLogs := PushLogs(m, logs.value);
    }
    assert rawLogs == AllRawLogs(hung, logs, m) && mapped == RawTransactions(txs, hung, m);
    if o.checkLogIndex {
      var counted := AreCounted(rawLogs);
      if !counted { return None; }
    }
    return Some(Mapped(m.header(header), mapped, rawLogs, if o.withTraces then Some(traces) else None,
                       if o.withStateDiffs then Some(diffs) else None));
  }

  lemma RawNothing(txs: seq<Transaction>, hung: seq<Hangers>, m: Mappers)
    ensures RawLogs(hung[..0], m) == [] && RawTraces(txs, hung[..0], m) == [] && RawDiffs(txs, hung[..0], m) == []
    ensures hung[0..] == hung && Map(m.log, []) == []
  {
  }

  lemma RawAll(txs: seq<Transaction>, hung: seq<Hangers>, m: Mappers, total: nat)
    ensures hung[..|hung|] == hung && GasAddsUp(hung[|hung|..], total)
  {
  }

  lemma RawStep(txs: seq<Transaction>, hung: seq<Hangers>, m: Mappers, i: nat, total: nat)
    requires i < |txs| == |hung|
    ensures RawLogs(hung[..i + 1], m)
         == RawLogs(hung[..i], m) + if hung[i].receipt == None then [] else Map(m.log, hung[i].receipt.value.logs)
    ensures RawTraces(txs, hung[..i + 1], m) == RawTraces(txs, hung[..i], m) + TracesOf(m, txs[i].transactionIndex, hung[i])
    ensures RawDiffs(txs, hung[..i + 1], m) == RawDiffs(txs, hung[..i], m) + DiffsOf(m, txs[i].transactionIndex, hung[i])
    ensures hung[i].receipt == None ==> GasAddsUp(hung[i..], total) == GasAddsUp(hung[i + 1..], total)
    ensures hung[i].receipt.Some? ==>
              var receipt := hung[i].receipt.value;
              GasAddsUp(hung[i..], total)
              == (receipt.cumulativeGasUsed == total + receipt.gasUsed && GasAddsUp(hung[i + 1..], receipt.cumulativeGasUsed))
  {
    FlatMapMore(HungLogs(m), hung, i);
    FlatMapMore(HungTraces(m, txs), hung, i);
    FlatMapMore(HungDiffs(m, txs), hung, i);
    assert hung[i..][1..] == hung[i + 1..];
  }

  /** A block that is stored in the old format and read back. */
  method MapThroughRaw(b: Block, m: Mappers, o: Options) returns (r: Option<Mapped>)
    requires forall i :: 0 <= i < |b.transactions| ==> b.transactions[i].Hung() == Nothing
    requires Aligned(b) && OneSource(b)
    modifies b.transactions
    ensures r == if ChecksPass(b, m, o) then Direct(b, m, o) else None
    ensures r.Some? ==> IsNormalized(b, m, o, r.value)
  {
    hide Aligned, OneSource, Raw, Direct, ChecksPass, CanHang, ListsFit, IsHungOnto, IsNormalized, IsFromOld, CannotComeFromOld;
    RoutesAgree(b, m, o);
    DirectIsNormalized(b, m, o);
    ObjectsDiffer(b);
    WhenItHangs(b);
    var _ := ToRawBlock(b);
    assert HungNow(b.transactions) == HungAll(b);
    r := MapRawBlock(b.header, b.transactions, b.logs, m, o);
  }

  lemma ObjectsDiffer(b: Block)
    requires Aligned(b)
    ensures forall i, j :: 0 <= i < j < |b.transactions| ==> b.transactions[i] != b.transactions[j]
  {
  }
}
