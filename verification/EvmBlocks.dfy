/**
 Blocks of the EVM as they come from a node, and what a normalized block has to hold.  What happens to single
 fields is left to given functions.
 */
module EvmBlocks {
  import opened Wrappers
  import opened Selections

  type Hash = string

  datatype Receipt = Receipt(transactionHash: Hash, gasUsed: nat, cumulativeGasUsed: nat, logs: seq<string>, body: string)
  datatype Replay = Replay(transactionHash: Option<Hash>, trace: Option<seq<string>>, stateDiff: Option<string>)
  datatype Frame = Frame(txHash: Option<Hash>, result: string)
  datatype DebugDiff = DebugDiff(txHash: Option<Hash>, result: string)

  datatype MappedLog = MappedLog(logIndex: nat, body: string)
  datatype MappedDiff = MappedDiff(same: bool, body: string)

  /** The field by field mappings. */
  datatype Mappers = Mappers(header: string -> string,
                             transaction: (string, Option<Receipt>) -> string,
                             log: string -> MappedLog,
                             frame: (nat, Frame) -> seq<string>,
                             trace: (string, nat) -> string,
                             debugDiff: (nat, DebugDiff) -> seq<MappedDiff>,
                             replayDiff: (string, nat) -> seq<MappedDiff>)

  datatype Options = Options(withTraces: bool, withStateDiffs: bool, checkLogIndex: bool, checkCumulativeGasUsed: bool)

  datatype Mapped = Mapped(header: string, transactions: seq<string>, logs: seq<MappedLog>,
                           traces: Option<seq<string>>, stateDiffs: Option<seq<MappedDiff>>)

  class Transaction {
    const hash: Hash
    const transactionIndex: nat
    const body: string
    var receipt_: Option<Receipt>
    var traceReplay_: Option<Replay>
    var debugFrame_: Option<Frame>
    var debugStateDiff_: Option<DebugDiff>

    constructor (hash: Hash, transactionIndex: nat, body: string)
      ensures this.hash == hash && this.transactionIndex == transactionIndex && this.body == body
      ensures Hung() == Nothing
    {
      this.hash, this.transactionIndex, this.body := hash, transactionIndex, body;
      receipt_, traceReplay_, debugFrame_, debugStateDiff_ := None, None, None, None;
    }

    function Hung(): Hangers
      reads this
    {
      Hangers(receipt_, traceReplay_, debugFrame_, debugStateDiff_)
    }
  }

  /** What the old format hangs onto a transaction. */
  datatype Hangers = Hangers(receipt: Option<Receipt>, replay: Option<Replay>, frame: Option<Frame>, diff: Option<DebugDiff>)

  const Nothing := Hangers(None, None, None, None)

  datatype Block = Block(header: string, transactions: seq<Transaction>,
                         receipts: Option<seq<Receipt>>, logs: Option<seq<string>>, traceReplays: Option<seq<Replay>>,
                         debugFrames: Option<seq<Option<Frame>>>, debugStateDiffs: Option<seq<Option<DebugDiff>>>)

  // ---------- What a normalized block holds ----------

  ghost predicate AreMapped<A, B>(f: A -> B, s: seq<A>, r: seq<B>) {
    |r| == |s| && forall i :: 0 <= i < |s| ==> r[i] == f(s[i])
  }

  /** The traces of the transaction at `index`. */
  ghost predicate AreTraces(m: Mappers, traces: seq<string>, index: nat, r: seq<string>) {
    |r| == |traces| && forall i :: 0 <= i < |traces| ==> r[i] == m.trace(traces[i], index)
  }

  function Differs(): MappedDiff -> bool {
    (diff: MappedDiff) => !diff.same
  }

  /** Of a mapped state diff all entries but those of kind `=`, in order. */
  ghost predicate AreChanges(m: Mappers, stateDiff: Option<string>, index: nat, r: seq<MappedDiff>) {
    if stateDiff == None then r == [] else Selects(m.replayDiff(stateDiff.value, index), Differs(), r)
  }

  /** The replay belongs to the transaction at `index`; of several with its hash the last one counts. */
  ghost predicate IsOf(txs: seq<Transaction>, replay: Replay, index: nat) {
    && index < |txs| && replay.transactionHash == Some(txs[index].hash)
    && forall j :: index < j < |txs| ==> txs[j].hash != txs[index].hash
  }

  /** A transaction is mapped with the receipt at its position, which must be its own. */
  ghost predicate TransactionIsMapped(b: Block, m: Mappers, i: nat, mapped: string)
    requires i < |b.transactions|
  {
    if b.receipts.Some? && i < |b.receipts.value| then
      && b.receipts.value[i].transactionHash == b.transactions[i].hash
      && mapped == m.transaction(b.transactions[i].body, Some(b.receipts.value[i]))
    else mapped == m.transaction(b.transactions[i].body, None)
  }

  ghost predicate TransactionsAreMapped(b: Block, m: Mappers, mapped: seq<string>) {
    |mapped| == |b.transactions| && forall i :: 0 <= i < |mapped| ==> TransactionIsMapped(b, m, i, mapped[i])
  }

  ghost predicate AreReceiptLogs(m: Mappers, receipts: seq<Receipt>, parts: seq<seq<MappedLog>>) {
    |parts| == |receipts| && forall i :: 0 <= i < |parts| ==> AreMapped(m.log, receipts[i].logs, parts[i])
  }

  /** All logs of all receipts, or else all logs of the block. */
  ghost predicate LogsAreMapped(b: Block, m: Mappers, mapped: seq<MappedLog>) {
    if b.receipts == None then AreMapped(m.log, b.logs.GetOr([]), mapped)
    else exists parts :: Lays(mapped, parts) && AreReceiptLogs(m, b.receipts.value, parts)
  }

  ghost predicate AreFrames(m: Mappers, frames: seq<Option<Frame>>, parts: seq<seq<string>>) {
    |parts| == |frames| && forall i :: 0 <= i < |parts| ==> parts[i] == if frames[i] == None then [] else m.frame(i, frames[i].value)
  }

  ghost predicate ReplayIsTraced(txs: seq<Transaction>, m: Mappers, replay: Replay, part: seq<string>) {
    exists index: nat :: IsOf(txs, replay, index) && AreTraces(m, replay.trace.GetOr([]), index, part)
  }

  ghost predicate AreReplays(txs: seq<Transaction>, m: Mappers, replays: seq<Replay>, parts: seq<seq<string>>) {
    |parts| == |replays| && forall i :: 0 <= i < |parts| ==> ReplayIsTraced(txs, m, replays[i], parts[i])
  }

  /** All frames with their position, or else all traces with the position of their transaction. */
  ghost predicate TracesAreMapped(b: Block, m: Mappers, mapped: seq<string>) {
    exists parts :: Lays(mapped, parts) &&
      if b.debugFrames.Some? then AreFrames(m, b.debugFrames.value, parts)
      else AreReplays(b.transactions, m, b.traceReplays.GetOr([]), parts)
  }

  ghost predicate AreDebugDiffs(m: Mappers, diffs: seq<Option<DebugDiff>>, parts: seq<seq<MappedDiff>>) {
    |parts| == |diffs| && forall i :: 0 <= i < |parts| ==> parts[i] == if diffs[i] == None then [] else m.debugDiff(i, diffs[i].value)
  }

  ghost predicate ReplayIsDiffed(txs: seq<Transaction>, m: Mappers, replay: Replay, part: seq<MappedDiff>) {
    exists index: nat :: IsOf(txs, replay, index) && AreChanges(m, replay.stateDiff, index, part)
  }

  ghost predicate AreReplayDiffs(txs: seq<Transaction>, m: Mappers, replays: seq<Replay>, parts: seq<seq<MappedDiff>>) {
    |parts| == |replays| && forall i :: 0 <= i < |parts| ==> ReplayIsDiffed(txs, m, replays[i], parts[i])
  }

  /** All debug diffs as they are, or else what has changed in each replay. */
  ghost predicate DiffsAreMapped(b: Block, m: Mappers, mapped: seq<MappedDiff>) {
    exists parts :: Lays(mapped, parts) &&
      if b.debugStateDiffs.Some? then AreDebugDiffs(m, b.debugStateDiffs.value, parts)
      else AreReplayDiffs(b.transactions, m, b.traceReplays.GetOr([]), parts)
  }

  ghost predicate IsNormalized(b: Block, m: Mappers, o: Options, r: Mapped) {
    && r.header == m.header(b.header)
    && TransactionsAreMapped(b, m, r.transactions) && LogsAreMapped(b, m, r.logs)
    && (if o.withTraces then r.traces.Some? && TracesAreMapped(b, m, r.traces.value) else r.traces == None)
    && (if o.withStateDiffs then r.stateDiffs.Some? && DiffsAreMapped(b, m, r.stateDiffs.value) else r.stateDiffs == None)
  }

  ghost predicate IsLost(txs: seq<Transaction>, replay: Replay) {
    forall tx <- txs :: replay.transactionHash != Some(tx.hash)
  }

  /** A receipt of another transaction, logs from two sources, or a replay that is needed and belongs to no transaction. */
  ghost predicate CannotBeNormalized(b: Block, o: Options) {
    || (exists i :: 0 <= i < |b.transactions| && b.receipts.Some? && i < |b.receipts.value|
                    && b.receipts.value[i].transactionHash != b.transactions[i].hash)
    || (b.receipts.Some? && b.logs.Some? && b.logs.value != [])
    || (((o.withTraces && b.debugFrames == None) || (o.withStateDiffs && b.debugStateDiffs == None))
        && b.traceReplays.Some? && exists replay <- b.traceReplays.value :: IsLost(b.transactions, replay))
  }

  // ---------- The old format ----------

  /** Of several receipts for a transaction the last one counts. */
  ghost predicate IsReceiptOf(receipts: seq<Receipt>, hash: Hash, r: Receipt) {
    exists i :: 0 <= i < |receipts| && receipts[i] == r && r.transactionHash == hash &&
      forall j :: i < j < |receipts| ==> receipts[j].transactionHash != hash
  }

  ghost predicate IsReplayOf(replays: seq<Replay>, hash: Hash, r: Replay) {
    exists i :: 0 <= i < |replays| && replays[i] == r && r.transactionHash == Some(hash) &&
      forall j :: i < j < |replays| ==> replays[j].transactionHash != Some(hash)
  }

  /** What hangs on transaction `i` afterwards; what was there before stays where the block brings nothing. */
  ghost predicate IsHungOnto(b: Block, i: nat, before: Hangers, h: Hangers)
    requires i < |b.transactions|
  {
    var hash := b.transactions[i].hash;
    && (if b.receipts.Some? then h.receipt.Some? && IsReceiptOf(b.receipts.value, hash, h.receipt.value) else h.receipt == before.receipt)
    && (if b.traceReplays.Some? then h.replay.Some? && IsReplayOf(b.traceReplays.value, hash, h.replay.value) else h.replay == before.replay)
    && h.frame == (if b.debugFrames == None then before.frame
                   else if i < |b.debugFrames.value| then b.debugFrames.value[i] else None)
    && h.diff == (if b.debugStateDiffs == None then before.diff
                  else if i < |b.debugStateDiffs.value| then b.debugStateDiffs.value[i] else None)
  }

  ghost predicate HasReceipt(receipts: seq<Receipt>, hash: Hash) {
    exists r <- receipts :: r.transactionHash == hash
  }

  ghost predicate HasReplay(replays: seq<Replay>, hash: Hash) {
    exists r <- replays :: r.transactionHash == Some(hash)
  }

  /** Whatever the block brings holds something for transaction `i`, and nothing of another one at its position. */
  ghost predicate PartsFit(b: Block, i: nat)
    requires i < |b.transactions|
  {
    var hash := b.transactions[i].hash;
    && (b.receipts.Some? ==> HasReceipt(b.receipts.value, hash))
    && (b.traceReplays.Some? ==> HasReplay(b.traceReplays.value, hash))
    && (b.debugFrames.Some? && i < |b.debugFrames.value| && b.debugFrames.value[i].Some? ==>
          b.debugFrames.value[i].value.txHash in {None, Some(hash)})
    && (b.debugStateDiffs.Some? && i < |b.debugStateDiffs.value| && b.debugStateDiffs.value[i].Some? ==>
          b.debugStateDiffs.value[i].value.txHash in {None, Some(hash)})
  }

  /** What the lists must hold for the block to be converted. */
  ghost predicate ListsFit(b: Block) {
    && (b.logs.Some? ==> b.receipts == None)
    && (b.traceReplays.Some? ==> forall replay <- b.traceReplays.value :: replay.transactionHash.Some?)
    && forall i :: 0 <= i < |b.transactions| ==> PartsFit(b, i)
  }

  // ---------- What a block holds when it comes from the old format ----------

  ghost predicate AreHungLogs(m: Mappers, hung: seq<Hangers>, parts: seq<seq<MappedLog>>) {
    |parts| == |hung| && forall i :: 0 <= i < |parts| ==>
      if hung[i].receipt == None then parts[i] == [] else AreMapped(m.log, hung[i].receipt.value.logs, parts[i])
  }

  ghost predicate HasLogs(h: Hangers) {
    h.receipt.Some? && h.receipt.value.logs != []
  }

  ghost predicate HungLogsAreMapped(hung: seq<Hangers>, logs: Option<seq<string>>, m: Mappers, mapped: seq<MappedLog>) {
    if logs.Some? then AreMapped(m.log, logs.value, mapped) else exists parts :: Lays(mapped, parts) && AreHungLogs(m, hung, parts)
  }

  /** The frame of the transaction, or else the traces of its replay. */
  ghost predicate IsTraced(m: Mappers, index: nat, h: Hangers, part: seq<string>) {
    if h.frame.Some? then part == m.frame(index, h.frame.value)
    else AreTraces(m, if h.replay.Some? then h.replay.value.trace.GetOr([]) else [], index, part)
  }

  /** The debug diff of the transaction, or else what has changed in its replay. */
  ghost predicate IsDiffed(m: Mappers, index: nat, h: Hangers, part: seq<MappedDiff>) {
    if h.diff.Some? then part == m.debugDiff(index, h.diff.value)
    else AreChanges(m, if h.replay.Some? then h.replay.value.stateDiff else None, index, part)
  }

  ghost predicate AreHungTraces(txs: seq<Transaction>, hung: seq<Hangers>, m: Mappers, parts: seq<seq<string>>)
    requires |txs| == |hung|
  {
    |parts| == |txs| && forall i :: 0 <= i < |parts| ==> IsTraced(m, txs[i].transactionIndex, hung[i], parts[i])
  }

  ghost predicate AreHungDiffs(txs: seq<Transaction>, hung: seq<Hangers>, m: Mappers, parts: seq<seq<MappedDiff>>)
    requires |txs| == |hung|
  {
    |parts| == |txs| && forall i :: 0 <= i < |parts| ==> IsDiffed(m, txs[i].transactionIndex, hung[i], parts[i])
  }

  ghost predicate IsFromOld(header: string, txs: seq<Transaction>, hung: seq<Hangers>, logs: Option<seq<string>>, m: Mappers, o: Options, r: Mapped)
    requires |txs| == |hung|
  {
    && r.header == m.header(header)
    && |r.transactions| == |txs| && (forall i :: 0 <= i < |txs| ==> r.transactions[i] == m.transaction(txs[i].body, hung[i].receipt))
    && HungLogsAreMapped(hung, logs, m, r.logs)
    && (if o.withTraces then r.traces.Some? && exists parts :: Lays(r.traces.value, parts) && AreHungTraces(txs, hung, m, parts)
        else r.traces == None)
    && (if o.withStateDiffs then r.stateDiffs.Some? && exists parts :: Lays(r.stateDiffs.value, parts) && AreHungDiffs(txs, hung, m, parts)
        else r.stateDiffs == None)
  }

  /** Each receipt's running total is the one before it plus its own gas. */
  predicate GasAddsUp(hung: seq<Hangers>, total: nat)
    decreases |hung|
  {
    if hung == [] then true
    else if hung[0].receipt == None then GasAddsUp(hung[1..], total)
    else
      var r := hung[0].receipt.value;
      r.cumulativeGasUsed == total + r.gasUsed && GasAddsUp(hung[1..], r.cumulativeGasUsed)
  }

  ghost predicate Miscounted(logs: seq<MappedLog>) {
    exists i :: 0 <= i < |logs| && logs[i].logIndex != i
  }

  /** Gas that does not add up, logs from two sources, or logs that are not numbered 0, 1, 2, ... */
  ghost predicate CannotComeFromOld(hung: seq<Hangers>, logs: Option<seq<string>>, m: Mappers, o: Options) {
    || (o.checkCumulativeGasUsed && !GasAddsUp(hung, 0))
    || (logs.Some? && exists h <- hung :: HasLogs(h))
    || (o.checkLogIndex && exists all :: HungLogsAreMapped(hung, logs, m, all) && Miscounted(all))
  }
}
