# Verified models of the SDK's core algorithms

The SDK reads blocks of several chains, normalizes them, links the items of a block and hands the blocks to an
indexer that writes to a database. This project models the parts where that is hard to get right, in Dafny, and
proves what they are for. Each file is a module; `dafny verify dfyconfig.toml` checks them all.

**Solana instructions and logs** (`CallAddresses`, `LogBrackets`, `Instructions`, `CompleteLogs`, `LogWalk`,
`LogStories`, `TransactionWalk`, `TransactionStories`, `InstructionParser`, `LogParser`, `RawLogs`, `LogExamples`). A transaction comes as a flat list of
instructions and a flat log. The traversal walks both at once and gives each instruction its place in the call tree,
its error and its log texts. A log is a word of brackets: `invoke` opens, `success` and `failed` close. The model keeps
the traversal's own form, mutually recursive methods over shared cursors, and carries an invariant that relates what
has been emitted to the brackets read so far. Beside it stands a flat machine, `LogWalk`, with one cursor and no
recursion, whose only stack is the open brackets of the log: the recursive methods follow it step by step, so what is
proved of the machine, above all how it can fail, holds of them. A failure is either a parsing error, after which the
transaction is traversed again without its log, or a plain assertion, which ends the block. What a log has to be like
for the traversal to go by it is said a third time, of instructions and messages alone: a log may leave calls out, and
may be cut, and still tell a story of the instructions; the machine gets through exactly the logs that do.

**Batches, forks and finality** (`BatchProcessor`, `ChangeLog`, `HotDatabase`, `BlockHistory`, `Indexing`,
`GroupedFinality`). The processor keeps the heads it has reached; the database keeps hot blocks, and for each of
them the changes that take it back. The two are modelled apart and then together, over any run of batches, forks
and restarts. Tables, rows and the data handler are values and functions: the handler is any function from rows and
blocks to operations.

**Trees as addresses** (`KeyOrder`, `ObjectRelations`). Traces and instructions are sorted by address and linked by
loops that scan until the first item outside. One model stands for the EVM and the Solana layer, which differ in names.
`Selections` says, by positions, what it means for a list to hold exactly some items of another, in order.

**EVM** (`EvmBlocks`, `EvmRoutes`, `CronosRepair`, `Bloom`, `Multicall`). Two ways to the same normalized block, the repair of blocks
with phantom transactions, the log filter, and the paging of calls. The mappings of single fields are functions
given from outside.

**Bitcoin** (`ByteOrder`, `TransactionCodec`, `MerkleTree`, `BlockRoots`). Serialization, the Merkle root, and what the
two commit a block to. Hashes are functions given from outside; where a theorem needs that they tell certain values
apart, it names just the values that occur in the two blocks compared. A parser, which the repository does not have,
is the partner of the encoder.

**Others** (`TypeOrder`, `BinaryHeap`, `Borsh`). The order in which generated types are printed, the priority queue, and
the buffers of the Borsh codec.

## What came out

- `typeorm/typeorm-store/src/database.ts:246-261`. The comment promises a `hot_block` row for every block of a group;
  the code writes one for the last block only. When finality moves into a group and a fork then leads back to the final
  block, taking back the group also takes back final blocks, whose data are lost. `BlockHistory.BatchHistory` says
  exactly when a batch leaves the right blocks in effect, and the tables are always those of the blocks in effect
  (`HotDatabase.Database.TransactHot`). `GroupedFinality.FinalBlockLost` is a case with 200 blocks and a handler that
  writes a row for each block: the final block ends up without a row. `Indexing.Indexer.Run` shows that it cannot
  happen with fewer than 200 blocks in a batch.
- `typeorm/typeorm-store/src/database.ts:216`. A batch without blocks whose final block lies above the head is
  refused by this database, while the processor (`processor/batch-processor/src/run.ts:229-230`) would move its head up.
- `util/util-internal-binary-heap/heap.js:83-84`. Resorting a single element starts at position 2^31 - 1
  (`BinaryHeap.StartsInside`: only then). `heap.js:58` shifts a signed 32-bit number, so children are found in heaps of
  up to 2^30 elements (`BinaryHeap.ChildFits`).
- `solana/solana-objects/src/relations.ts:35-46`. The loop looks for the instructions around a log message from the
  message's own address on, and finds only the one at that very address (`ObjectRelations.HoldsIsEqual`).
- `solana/solana-normalization/src/instruction-parser.ts:269`. An `invoke` inside of an open bracket, met when all
  instructions of the current group have been emitted, ends in a plain assertion, not in the traversal without log.
  `TransactionWalk.NoInstructionIff` says that exactly such logs do. How many `invoke` messages there are does not
  decide it: `LogExamples.OneCallTooMany` and `LogExamples.WrongLevel` fail, the latter with as many `invoke` messages
  as instructions, while `LogExamples.OthersLog` has more of them and falls back. No other plain assertion ends a
  transaction that could do without its log (`TransactionWalk.LogLessVerdict`). The check in line 91 never fails. A call
  that the log leaves out does not keep the parse from going by the log (`LogExamples.CallIsLeftOut`), and
  `TransactionStories.FirstPassIff` says which logs the parse goes by.
- `bitcoin/bitcoin-rpc/src/verification.ts:66-68`. Repeating the last of an odd number of transactions keeps the root
  (`MerkleTree.RepeatedLeafKeepsRoot`). `MerkleTree.RootsOfAnyLengths` says exactly which lists share a root without a
  collision; blocks with as many transactions are told apart (`BlockRoots.RootBindsTransactions`).

## Model

| member | source | states |
|---|---|---|
| CallAddresses.PreorderIsNumbered | evm/evm-normalization/src/mapping.ts:41-51 | Flattening any forest of call frames numbers the calls step by step: each address is its predecessor's next sibling, an ancestor's next sibling, or its first child. |
| CallAddresses.NumberedIsPreorder | solana/solana-normalization/src/instruction-parser.ts:311-323 | Conversely, every numbering built by the step rule is the preorder of a forest, which the lemma constructs. |
| CallAddresses.NumberedIffForest | evm/evm-normalization/src/mapping.ts:41-51 | A list of addresses is a top-level numbering exactly when it is the preorder of some forest of calls. |
| CallAddresses.NumberedIncreases | solana/solana-normalization/src/instruction-parser.ts:311-323 | Addresses strictly increase in lexicographic order, so none is given twice. |
| CallAddresses.AncestorComesFirst | solana/solana-normalization/src/instruction-parser.ts:311-323 | Every prefix of an address has been given before, so parents are emitted before their children. |
| CallAddresses.SiblingComesFirst | solana/solana-normalization/src/instruction-parser.ts:311-323 | Siblings are numbered 0, 1, 2, ... without gaps: a call that is not the first has its preceding sibling before it. |
| CallAddresses.HeightsDetermineNumbering | solana/solana-normalization/src/instruction-parser.ts:262-266 | The stack heights alone determine all addresses. |
| LogBrackets.BalancedIffTree | solana/solana-normalization/src/instruction-parser.ts:94-240 | A log leaves no bracket open exactly when it is the print of a well-formed tree of calls, with equal program ids at both ends and the nesting depth in each `invoke`. |
| LogBrackets.ScanPrint | solana/solana-normalization/src/instruction-parser.ts:205-240 | Reading the print of a tree anywhere in a log comes back to the brackets open before it. |
| LogBrackets.EveryInvokeIsABracket | solana/solana-normalization/src/instruction-parser.ts:94-166 | Every `invoke` read is an open or a closed bracket, and nothing else is. |
| LogBrackets.OpenBracketsAreAtDepth | solana/solana-normalization/src/instruction-parser.ts:106-111 | Open brackets stand at increasing positions, the i-th one claiming depth i + 1. |
| InstructionParser.InstructionTreeTraversal.AddressAfter | solana/solana-normalization/src/instruction-parser.ts:311-322 | Popping numbers and advancing the last one yields the next address of that depth, or fails if the depth grows by more than one. |
| InstructionParser.InstructionTreeTraversal.Push | solana/solana-normalization/src/instruction-parser.ts:303-339 | Emits exactly the current instruction under the next address, or fails and changes nothing; says which assertion it is that fails. |
| InstructionParser.InstructionTreeTraversal.Call | solana/solana-normalization/src/instruction-parser.ts:94-136 | Ends where the flat walk ends from here, mentioned or not, or fails as it does; keeps the attribution of log to instructions, restores the open brackets, makes progress, and never loses what was emitted. `TransactionStories.FirstPassIff` says which logs the walk gets through. |
| InstructionParser.InstructionTreeTraversal.Invoke | solana/solana-normalization/src/instruction-parser.ts:138-166 | The same from just behind an `invoke`: the instruction claims that bracket and takes its result. |
| InstructionParser.InstructionTreeTraversal.FinishInvoke | solana/solana-normalization/src/instruction-parser.ts:144-165 | Closes the bracket with the result's error and passes the inner calls left, or marks the instruction when the log was cut; fails just as the walk does, also at an unexpected end. |
| InstructionParser.InstructionTreeTraversal.EatInvokeLessSubCalls | solana/solana-normalization/src/instruction-parser.ts:168-203 | Emits the inner calls the log does not mention, all deeper than the parent, and stops exactly at the next call at or above its level; every claim stays in place. |
| InstructionParser.InstructionTreeTraversal.TakeInstructionMessages | solana/solana-normalization/src/instruction-parser.ts:205-240 | Takes the running call's messages up to its result or the end of the log; inner calls take theirs; comes to the same end as the walk. |
| InstructionParser.InstructionTreeTraversal.DropNonInvokeMessages | solana/solana-normalization/src/instruction-parser.ts:242-260 | Drops exactly the texts up to the next bracket or cut, without changing what is open or claimed. |
| InstructionParser.InstructionTreeTraversal.FinishLogLess | solana/solana-normalization/src/instruction-parser.ts:262-266 | Emits all that is left with its own heights, or fails with the reason of the first instruction that does not fit. |
| InstructionParser.InstructionTreeTraversal.Traverse | solana/solana-normalization/src/instruction-parser.ts:73-92 | One group: success and failure are those of the walk, and on success every instruction is emitted once and in order. |
| InstructionParser.ItemMapping.TraverseInstructions | solana/solana-normalization/src/mapping.ts:122-140 | All groups of a transaction in order, with the fate of the groups walked one after the other. |
| InstructionParser.ItemMapping.ProcessTransaction | solana/solana-normalization/src/mapping.ts:80-120 | The outcome is the verdict of two walks, with the log and without; the parse goes by the log exactly when the log tells of all instructions, those it leaves out included, at the depths they get, and then used all of it (or up to the cut); otherwise it leaves the earlier items, one entry per instruction and no log entry. |
| InstructionParser.TransactionIsAForest | solana/solana-normalization/src/mapping.ts:122-140 | After any successful parse every instruction is emitted once, in order, under the preorder addresses of a forest. |
| InstructionParser.WalkDecidesAddresses | solana/solana-normalization/src/instruction-parser.ts:303-323 | The addresses are those that the depths of the walk decide, with the log or without. |
| InstructionParser.HeightsDecideAddresses | solana/solana-normalization/src/instruction-parser.ts:303-323 | With all heights given the addresses are those of the pass without log, whatever the log says. |
| InstructionParser.WholeLogIsShared | solana/solana-normalization/src/instruction-parser.ts:94-240 | After an untruncated parse the log is the print of a tree; each `invoke` is claimed by exactly one instruction, in order, with its program, depth and error; instructions the log does not mention are marked exactly up to the failed one. |
| InstructionParser.EntryFollowsItsBracket | solana/solana-normalization/src/instruction-parser.ts:209-222 | Each log entry carries its text, and the address and program of the innermost open bracket; log indexes strictly increase. |
| InstructionParser.TextsInsideAreReported | solana/solana-normalization/src/instruction-parser.ts:205-260 | Of the log that was read, a text is reported exactly when it stands inside a bracket. |
| LogWalk.StarvesIff | solana/solana-normalization/src/instruction-parser.ts:268-271 | A walk fails for want of an instruction exactly when it comes to an `invoke` inside of an open bracket with all instructions of the group emitted. |
| LogWalk.NestedNeverDeep | solana/solana-normalization/src/instruction-parser.ts:303-323 | In a group whose heights describe a tree, missing ones included, no height assertion fails, whatever the log says. |
| LogWalk.KnownIsEnough | solana/solana-normalization/src/instruction-parser.ts:325-333 | If all accounts of a group are known, no log makes it fail for an account. |
| LogWalk.CutLogIff | solana/solana-normalization/src/instruction-parser.ts:262-266 | On a cut log a group gets through exactly when its heights describe a tree and its accounts are known. |
| LogStories.StoryWalks | solana/solana-normalization/src/instruction-parser.ts:94-240 | Whatever list and log tell inside of a call, calls left out before a mentioned one or after the last one of a finished call, texts, results and a cut, the walk goes through to its end and puts every instruction at the depth told. |
| LogStories.WalkIsStory | solana/solana-normalization/src/instruction-parser.ts:94-240 | Conversely, a walk that gets through has told such a story, which the lemma constructs. |
| LogWalk.TreeWalks | solana/solana-normalization/src/instruction-parser.ts:205-240 | On a complete log the walk consumes exactly the print of a call tree and one instruction for each of its calls. |
| TransactionWalk.NoInstructionIff | solana/solana-normalization/src/mapping.ts:80-120 | A transaction ends for want of an instruction exactly when the first pass gets to some group and in it to such an `invoke`. |
| TransactionWalk.LogLessVerdict | solana/solana-normalization/src/mapping.ts:80-120 | A transaction that can be traversed without log succeeds, or ends for want of an instruction; no height need be given. |
| TransactionWalk.CutLogIffLess | solana/solana-normalization/src/mapping.ts:103-111 | The second pass succeeds exactly when every group can be traversed without log. |
| TransactionWalk.CompleteVerdict | solana/solana-normalization/src/mapping.ts:80-96 | A log that mentions every call is used up in the first pass. |
| TransactionStories.GroupIff | solana/solana-normalization/src/instruction-parser.ts:73-92 | A group gets through with given depths, up to a given message, exactly when the log tells so: of its call and all others, or of nothing but lines up to the next one; beyond the failed instruction there is one instruction and no message. |
| TransactionStories.FirstPassIff | solana/solana-normalization/src/mapping.ts:80-96 | The first pass gets through with given depths exactly when the log tells of the groups one after the other and nothing but a cut is left. |
| TransactionStories.LogIsGivenUpIff | solana/solana-normalization/src/mapping.ts:97-111 | A transaction that could do without its log is parsed without it exactly when the log neither tells of its instructions nor asks for more of them. |
| LogExamples.OneCallTooMany | solana/solana-normalization/src/instruction-parser.ts:268-271 | One instruction, and a log with an inner call: the plain assertion. |
| LogExamples.WrongLevel | solana/solana-normalization/src/instruction-parser.ts:268-271 | As many `invoke` messages as instructions, but one at another level: the plain assertion. |
| LogExamples.OthersLog | solana/solana-normalization/src/mapping.ts:97-111 | More `invoke` messages than instructions, all of another program: the traversal without log. |
| LogExamples.CallIsLeftOut | solana/solana-normalization/src/instruction-parser.ts:118-135 | A call that the log leaves out, before one that it mentions: the parse goes by the log. |
| LogParser.ParseIsReading | solana/solana-normalization/src/log-parser.ts:138-146 | The parser finds a structured line exactly when the text has the shape of that line's pattern, so the order of the patterns does not matter. |
| LogParser.OneKind | solana/solana-normalization/src/log-parser.ts:12-115 | No text fits two patterns, or one pattern in two ways. |
| LogParser.KeptVerbatim | solana/solana-normalization/src/log-parser.ts:117-146 | A text is kept verbatim exactly when it fits no pattern. |
| LogParser.ParseUndoesPrint | solana/solana-normalization/src/log-parser.ts:12-115 | Parsing undoes printing for every structured line with a base58 program id and text free of line breaks. |
| RawLogs.MessageIsTold | solana/solana-normalization/src/instruction-parser.ts:35-37 | A line becomes a message exactly when it has the shape that stands for this message; the number of compute units available is all that gets lost. |
| RawLogs.CutIsCut | solana/solana-normalization/src/mapping.ts:108-111 | The text the second pass is given is read as a cut. |
| RawLogs.EntryIsALine | solana/solana-normalization/src/instruction-parser.ts:209-222 | Every log entry repeats the text of its line, under program and depth of the `invoke` line that opened the innermost bracket around it. |
| RawLogs.LineIsReported | solana/solana-normalization/src/instruction-parser.ts:205-260 | Of the lines read, a text becomes an entry exactly when some bracket is open around it. |
| RawLogs.InvokeLineIsShared | solana/solana-normalization/src/instruction-parser.ts:94-166 | Of a log read to its end, every `invoke` line belongs to an instruction of that program and depth, which ends the way a later line of the program says. |
| RawLogs.CompleteTextIsUsedUp | solana/solana-normalization/src/mapping.ts:80-96 | A log that mentions every call, written line by line, is read back and used up. |
| BatchProcessor.FindRollbackIndex | processor/batch-processor/src/run.ts:311-340 | On ascending chains the two-pointer loop returns the highest common block below the first height where the chains disagree; on any input a common block or -1. |
| BatchProcessor.ForkLowersHead | processor/batch-processor/src/run.ts:89-100 | A fork that contradicts the head strictly lowers it. |
| BatchProcessor.ProcessorState.HandleFork | processor/batch-processor/src/run.ts:89-100 | Keeps exactly the common prefix, never drops the finalized head, and fails exactly when no block is common although one is final. |
| BatchProcessor.Processor.AssertBlocksContinuity | processor/batch-processor/src/run.ts:365-373 | Accepts exactly the batches that ascend from the head. |
| BatchProcessor.Processor.BeginBatch | processor/batch-processor/src/run.ts:196-241 | Which batches are skipped or refused, and what the database is told: the new finalized head is the highest final block of the batch, or the known one. |
| BatchProcessor.Processor.DeliverSlices | processor/batch-processor/src/run.ts:243-250 | However the database slices the batch, the handler gets every block once and in order, and the heads are the last blocks of the slices that reach above the final ones. |
| BatchProcessor.Processor.EndHotBatch | processor/batch-processor/src/run.ts:253-260 | The new heads: final ones dropped, slice heads added; they ascend above the finalized head, and after a batch with blocks the head is its last block. |
| BatchProcessor.Processor.ProcessBatch | processor/batch-processor/src/run.ts:191-283 | Refused exactly when it does not continue the head (or is not final for a database without hot blocks), and then nothing changes; otherwise the heads move exactly as stated, and a batch without blocks leaves the head or moves it up to the final block. |
| BatchProcessor.Processor.Run | processor/batch-processor/src/run.ts:139-158 | Any run of batches and forks is a trace of such steps in which the heads always ascend above the finalized head, finality never decreases, and only a refused event ends the run. |
| BatchProcessor.SliceHeadsAscend | processor/batch-processor/src/run.ts:236-250 | The slice heads ascend, are blocks from the first unfinalized one on, and end with the last block of the batch. |
| BatchProcessor.NewHeadsValid | processor/batch-processor/src/run.ts:253-260 | For any slicing the kept and the new heads together ascend above the new finalized head. |
| BatchProcessor.NewHead | processor/batch-processor/src/run.ts:253-260 | For any slicing the head is then exactly the last block of the batch. |
| BatchProcessor.EmptyBatchHead | processor/batch-processor/src/run.ts:229-230 | A batch without blocks leaves the head alone or moves it to the block reported final. |
| BatchProcessor.EmptyBatchRises | processor/batch-processor/src/run.ts:253-260 | It never moves the head down. |
| ChangeLog.InsertIff | typeorm/typeorm-store/src/store.ts:141-159 | An insert succeeds exactly when every entity fits its table and has an id of its own that is new. |
| ChangeLog.InsertMeans | typeorm/typeorm-store/src/store.ts:141-159 | Afterwards each entity has a row of its fields over the default values, and all other rows are as before. |
| ChangeLog.UpsertIff | typeorm/typeorm-store/src/store.ts:79-133 | An upsert succeeds exactly when every entity fits its table. |
| ChangeLog.UpsertKeys | typeorm/typeorm-store/src/store.ts:79-133 | It adds exactly the rows that were not there. |
| ChangeLog.UpsertGives | typeorm/typeorm-store/src/store.ts:79-133 | A column of a row holds what the last entity with this id and column gives. |
| ChangeLog.UpsertKeeps | typeorm/typeorm-store/src/store.ts:79-133 | A column for which nothing is given keeps its value, or gets the default one in a new row; other rows are as before. |
| ChangeLog.RemoveMeans | typeorm/typeorm-store/src/store.ts:166-195 | Exactly the rows of the given ids are gone. |
| ChangeLog.ExecuteConcat | typeorm/typeorm-store/src/database.ts:234-262 | The operations of a call take effect one after the other, and fail together. |
| ChangeLog.UndoOperation | typeorm/typeorm-store/src/hot.ts:103-181 | The changes recorded before an insert, upsert or delete, repeated ids included, take it back exactly. |
| ChangeLog.UndoScript | typeorm/typeorm-store/src/hot.ts:251-306 | Taking back the recorded changes of any sequence of operations, the latest first, restores the tables. |
| HotDatabase.Database.RollbackBlock | typeorm/typeorm-store/src/hot.ts:251-306 | Taking back the latest hot block leaves the tables of a run without its part. |
| HotDatabase.Database.CommitGroups | typeorm/typeorm-store/src/database.ts:246-261 | The unfinalized blocks are handed out in groups of a hundredth of them, each under the name of its last block, and all can be taken back; fails only if the handler cannot get through them. |
| HotDatabase.Database.DeleteHotBlocks | typeorm/typeorm-store/src/database.ts:326-331 | Exactly the hot blocks up to the final height are forgotten; the others can still be taken back. |
| HotDatabase.Database.WriteBatch | typeorm/typeorm-store/src/database.ts:228-270 | Orphans are taken back, final blocks handled in one go, the others in groups; the tables are always those of a run over the surviving parts. |
| HotDatabase.Database.TransactHot | typeorm/typeorm-store/src/database.ts:203-271 | Commits or changes nothing; says exactly when each error occurs; a commit leaves the status, hot blocks and applied parts stated, and the tables are the replay of the applied parts, operation by operation as `ChangeLog` says key by key. |
| BlockHistory.KeptBelowBase | typeorm/typeorm-store/src/database.ts:226-232 | What survives a rollback lies at or below the base block, and ends with it if that was hot. |
| BlockHistory.TakenBack | typeorm/typeorm-store/src/database.ts:226-232 | A rollback removes exactly the blocks above the base if and only if the base is hot or no hot part holds a final block. |
| BlockHistory.BatchHistory | typeorm/typeorm-store/src/database.ts:203-271 | The blocks in effect after a batch are those up to its base followed by its own if and only if that condition holds. |
| BlockHistory.BatchInOrder | typeorm/typeorm-store/src/database.ts:203-271 | The applied blocks stay ascending, and final parts hold no block above the status. |
| BlockHistory.BatchParts | typeorm/typeorm-store/src/database.ts:234-262 | The handler's calls for a batch put together are the batch. |
| BlockHistory.BatchSingles | typeorm/typeorm-store/src/database.ts:250-252 | Fewer than 200 hot blocks get a part each. |
| Indexing.SameHeads | processor/batch-processor/src/run.ts:236-260 | The heads the processor notes are the hot blocks the database notes. |
| Indexing.BatchInStep | processor/batch-processor/src/run.ts:236-260 | If processor and database were in step before a batch they are after it, although each computes its heads on its own. |
| Indexing.BatchDone | typeorm/typeorm-store/src/database.ts:203-271 | All that follows from one commit: in step, in order, and the history is exact if and only if the batch was intact. |
| Indexing.Indexer.ProcessBatch | processor/batch-processor/src/run.ts:191-283 | One batch through both sides: when it is refused, by whom, and otherwise the new state of both; the database never reports a foreign process. |
| Indexing.Indexer.HandleFork | processor/batch-processor/src/run.ts:89-100 | The processor falls back, the database keeps its blocks until the next batch. |
| Indexing.Indexer.Reconnect | processor/batch-processor/src/run.ts:84-87 | A restart takes over all hot blocks of the database, and no head is lost. |
| Indexing.Indexer.Run | processor/batch-processor/src/run.ts:120-158 | Any run of batches, forks and restarts is a trace of accepted steps up to one that is rejected for a stated reason; with fewer than 200 blocks in a batch the tables are those of a plain run over the surviving blocks. |
| GroupedFinality.FinalBlockLost | typeorm/typeorm-store/src/database.ts:246-261 | With a handler that writes a row for each block: the blocks 0 to 199, then finality of block 0, then a fork at block 1, and the final block has no row, though the same chain in any other calls would have written it. |
| GroupedFinality.RowsFollow | typeorm/typeorm-store/src/database.ts:234-262 | However blocks are split into calls, this handler leaves the rows of exactly these blocks. |
| KeyOrder.AddressCompare | evm/evm-objects/src/relations.ts:58-64 | The loop computes the comparison by the first difference, then by length. |
| KeyOrder.CompareIsBefore | evm/evm-objects/src/relations.ts:58-64 | The comparison is the lexicographic order, both ways. |
| KeyOrder.SortStrictly | evm/evm-objects/src/relations.ts:6-8 | Items with different keys end up with strictly increasing keys. |
| KeyOrder.OneOrder | evm/evm-objects/src/relations.ts:6-8 | There is one way to put different keys in order. |
| ObjectRelations.InsideBetween | evm/evm-objects/src/relations.ts:30-40 | Between a call and one inside of it there are only calls inside of it: a plain fact about lexicographic order, on which the early `break` rests. |
| ObjectRelations.ScanFindsInside | evm/evm-objects/src/relations.ts:30-40 | Hence scanning until the first call outside finds exactly the calls inside, whatever is missing in between. |
| ObjectRelations.LinkInner | solana/solana-objects/src/relations.ts:22-32 | The inner loop sets the children of one call and makes it the parent of those one level down, and of no others. |
| ObjectRelations.LinkCalls | evm/evm-objects/src/relations.ts:23-41 | Both loops: children, parents, transactions, and the calls of each transaction. |
| ObjectRelations.IndexTransactions | evm/evm-objects/src/relations.ts:10-13 | The array finds for each index the last transaction that has it. |
| ObjectRelations.HoldsIsEqual | solana/solana-objects/src/relations.ts:37-44 | From the lower bound on, an instruction holds a message's address only if it has that very address. |
| ObjectRelations.AttachLogs | solana/solana-objects/src/relations.ts:35-46 | Each message is attached to exactly the instruction at its own address, in the order of the messages. |
| ObjectRelations.Block.SetUpRelations | solana/solana-objects/src/relations.ts:5-46 | In whatever order the items of a block arrive: transactions ascend by index and messages by transaction and log index, calls by address, as permutations; each call has exactly the messages it wrote, in log order, each message its writer or none, each transaction its calls, and calls are linked. |
| ObjectRelations.ChildrenMean | evm/evm-objects/src/relations.ts:30-40 | A call is among another's children exactly when its address lies inside. |
| ObjectRelations.ParentsMean | evm/evm-objects/src/relations.ts:34-36 | A call is another's parent exactly when it is one level up; without such a call there is none. |
| ObjectRelations.LinksRebuildForest | evm/evm-objects/src/relations.ts:23-41 | The links of a flattened forest, read alone, give back that forest. |
| ObjectRelations.ShuffledForest | evm/evm-objects/src/relations.ts:5-41 | Whatever order the calls of a forest arrive in, their links rebuild it; here the roots are the transactions themselves. |
| ObjectRelations.ShuffledForests | solana/solana-objects/src/relations.ts:5-33 | The same for a forest below each transaction: whatever order the calls of a block arrive in, the links of the calls of each transaction rebuild its forest. |
| EvmRoutes.MapRpcBlock | evm/evm-normalization/src/mapping.ts:661-747 | The mapped block holds each transaction with its own receipt, all logs in order, each trace with the index of its replay's transaction, and of replayed state diffs every entry but the unchanged ones, in order; said by positions. It fails exactly on a receipt of another transaction, logs from two sources, or a needed replay of no transaction. |
| EvmRoutes.ToRawBlock | evm/evm-normalization/src/raw.ts:34-83 | Hangs onto each transaction the last receipt and replay with its hash and the frame and diff at its position, leaves what the block does not bring, and fails exactly when something does not fit. |
| EvmRoutes.MapRawBlock | evm/evm-normalization/src/mapping.ts:750-820 | The mapped block holds what hangs on the transactions, in their order: receipts, their logs (or those of the block), frames or else traces, debug diffs or else what has changed in a replay. It fails exactly when the gas does not add up, logs have two sources or are miscounted, as far as this is checked. |
| EvmRoutes.WhenItHangs | evm/evm-normalization/src/raw.ts:39-80 | The conversion succeeds exactly when logs and receipts do not both come, each replay has a hash, each transaction has a receipt and a replay if there are any, and no frame or diff is of another transaction. |
| EvmRoutes.DirectIsNormalized | evm/evm-normalization/src/mapping.ts:661-747 | The direct normalization holds what a normalized block has to hold, without reference to how it is computed. |
| EvmRoutes.RawIsFromOld | evm/evm-normalization/src/mapping.ts:750-820 | So does the normalization of the old format. |
| EvmRoutes.RoutesAgree | evm/evm-normalization/src/mapping.ts:661-820 | For aligned blocks with one source for each kind of data the detour over the old format changes nothing, whenever the optional checks pass. |
| EvmRoutes.MapThroughRaw | evm/evm-normalization/src/raw.ts:34-83 | The same for the two methods run one after the other, whose result holds what a normalized block has to hold. |
| CronosRepair.FindPhantoms | evm/evm-rpc/src/rpc.ts:506-593 | Fails exactly when a receipt of the block's transactions has no status. Otherwise nothing is found exactly when two suspects dispute a used nonce, or no suspect lacked effect: found are those without success whose nonce was not used up, or was by another one that succeeded. |
| CronosRepair.PhantomsAreStripped | evm/evm-rpc/src/rpc.ts:541-591 | The verdicts on the candidates come to exactly that, for every block. |
| CronosRepair.LeftAreSettled | evm/evm-rpc/src/rpc.ts:541-591 | Unless there is a dispute, whoever is left without success has used its nonce up, and no other one left that succeeded or is a suspect has the same sender and nonce. |
| CronosRepair.SuccessStays | evm/evm-rpc/src/rpc.ts:507-513 | A transaction with a successful receipt is never stripped: it is no candidate, by definition. |
| CronosRepair.ConsumedNonceStays | evm/evm-rpc/src/rpc.ts:541-591 | Every nonce that was used up keeps a transaction. |
| CronosRepair.OrderDoesNotMatter | evm/evm-rpc/src/rpc.ts:541-591 | The verdict, being defined on the set of candidates, does not depend on the order of the transactions; the content is in `FindPhantoms`, by which the loop yields this verdict. |
| CronosRepair.Block.StripPhantoms | evm/evm-rpc/src/rpc.ts:605-634 | Changes nothing when a status is missing or there is a dispute; otherwise exactly those that had an effect stay, in order, those left have settled who used which nonce, and transactions, receipts and logs alike are renumbered. |
| CronosRepair.Block.RecoverReceipts | evm/evm-rpc/src/rpc.ts:653-731 | Succeeds exactly when the node answers for every missing transaction with a receipt of this block; receipts then line up one to one with transactions. |
| CronosRepair.SortLinesUp | evm/evm-rpc/src/rpc.ts:717-723 | Sorting one receipt for each transaction by position lines them up. |
| CronosRepair.Consecutive | evm/evm-rpc/src/rpc.ts:717-723 | Strictly increasing numbers that are exactly those below n are 0, 1, 2, ... |
| Bloom.AddToBloom | evm/evm-rpc/src/verification.ts:762-771 | The filter of the entries so far becomes the filter of one more entry, with all bit indexes in range. |
| Bloom.BitIsNumber | evm/evm-rpc/src/verification.ts:764-767 | A bit is chosen by the number of two bytes of the hash modulo 2048, counted from the end of the filter. |
| Bloom.LogsBloom | evm/evm-rpc/src/verification.ts:774-785 | The filter holds exactly the bits of all addresses and topics. |
| Bloom.IsBloomSuperset | evm/evm-rpc/src/verification.ts:793-800 | True exactly when the bits of one filter are among those of the other. |
| Bloom.InclusionByBytes | evm/evm-rpc/src/verification.ts:796-798 | Masking byte by byte is inclusion bit by bit. |
| Bloom.InclusionIsOrder | evm/evm-rpc/src/verification.ts:793-800 | Inclusion is a partial order. |
| Bloom.OneSummary | evm/evm-rpc/src/verification.ts:774-785 | The filter depends only on the set of entries. |
| Bloom.BloomOfAll | evm/evm-rpc/src/verification.ts:774-785 | The filter of two lists of logs, one after the other, is the bitwise union of their filters. |
| Bloom.EntryTestsPresent | evm/evm-rpc/src/verification.ts:762-771 | Every added entry tests present: one direction of what it means to hold exactly the bits of the entries. |
| Multicall.SplitSlice | evm/evm-typegen/src/multicall.ts:166-176 | The pages are contiguous, as few as possible, at most of the given size, and differ by at most one call. |
| Multicall.SplitArray | evm/evm-typegen/src/multicall.ts:178-186 | The pages put together are the calls, so results line up with them. |
| Multicall.Aggregate | evm/evm-typegen/src/multicall.ts:66-79 | However the calls are paged, every call gets its own answer, in order. |
| Multicall.StepSplits | evm/evm-typegen/src/multicall.ts:170-174 | A page of the rounded size leaves exactly one page less to make, with shares as even as before. |
| TransactionCodec.VarIntBack | bitcoin/bitcoin-rpc/src/verification.ts:34-53 | A length is read back whatever follows it, so it tells where it ends. |
| TransactionCodec.VarIntIsShortest | bitcoin/bitcoin-rpc/src/verification.ts:34-53 | Of all bytes that are read as this length these are the fewest, and the only ones so few. |
| TransactionCodec.VarIntsDiffer | bitcoin/bitcoin-rpc/src/verification.ts:34-53 | No length is the beginning of another one. |
| TransactionCodec.EncodeTransaction | bitcoin/bitcoin-rpc/src/verification.ts:149-181 | The parts collected by the encoder make up the serialization. |
| TransactionCodec.ParseUndoesEncoding | bitcoin/bitcoin-rpc/src/verification.ts:95-181 | A parser undoes the encoding, with and without witnesses, for every transaction with an input and fields in range (BIP 144); what it finds is every field of the transaction with defaults filled in, and a stack for each input exactly when some input other than the coinbase has a witness, the coinbase's own excepted. |
| TransactionCodec.OutpointBytes | bitcoin/bitcoin-rpc/src/verification.ts:95-105 | The outpoint is the id with its bytes reversed and the position, or the fixed one of a coinbase. |
| TransactionCodec.EncodingIsInjective | bitcoin/bitcoin-rpc/src/verification.ts:95-181 | Two transactions have the same bytes exactly when they agree on all that is encoded. |
| ByteOrder.LittleEndianBack | bitcoin/bitcoin-rpc/src/verification.ts:22-32 | A number in range comes back from its little-endian bytes. |
| MerkleTree.MerkleRoot | bitcoin/bitcoin-rpc/src/verification.ts:59-78 | The loop with duplication of odd ends computes the level by level root, or zero for no leaves. |
| MerkleTree.RootIsTopNode | bitcoin/bitcoin-rpc/src/verification.ts:59-78 | It equals the top-down recursion over height and position. |
| MerkleTree.HeightIsLog | bitcoin/bitcoin-rpc/src/verification.ts:65-75 | The height is the logarithm of the number of leaves, rounded up. |
| MerkleTree.PathLeadsToRoot | bitcoin/bitcoin-rpc/src/verification.ts:59-78 | Every leaf has a path of as many hashes as the tree is high, and climbing it recomputes the root. |
| MerkleTree.RootTellsApart | bitcoin/bitcoin-rpc/src/verification.ts:59-78 | Unless the two trees collide at some node, lists of one length have the same root exactly when they are the same. |
| MerkleTree.RootsOfAnyLengths | bitcoin/bitcoin-rpc/src/verification.ts:59-78 | Unless nodes collide, lists of any two lengths have the same root exactly when the lower tree, its missing children filled in, is what the higher one is at that height. |
| MerkleTree.PaddedKeepsRoot | bitcoin/bitcoin-rpc/src/verification.ts:65-75 | Filling in every missing right child at once, down to a power of two leaves, has the root that duplicating level by level has. |
| MerkleTree.RepeatedLeafKeepsRoot | bitcoin/bitcoin-rpc/src/verification.ts:66-68 | For instance, repeating the last of an odd number of leaves keeps the root. |
| BlockRoots.TransactionsRoot | bitcoin/bitcoin-rpc/src/verification.ts:194-211 | Fails exactly when some transaction has another id than it claims; otherwise yields the root over the ids. |
| BlockRoots.FindCommitment | bitcoin/bitcoin-rpc/src/verification.ts:235-246 | The commitment is the 32 bytes behind the tag in the last output whose script begins with both; there is none exactly when no output does. |
| BlockRoots.WitnessCommitment | bitcoin/bitcoin-rpc/src/verification.ts:219-229 | Nothing without a commitment in the coinbase, else the seal of witness root and reserved value. |
| BlockRoots.ReservedIs | bitcoin/bitcoin-rpc/src/verification.ts:248-256 | The reserved value is the first witness item of the coinbase if that has 32 bytes, and zero otherwise. |
| BlockRoots.RootBindsTransactions | bitcoin/bitcoin-rpc/src/verification.ts:149-211 | Blocks with as many transactions have the same root exactly when their transactions agree but for witnesses, unless hashes collide. |
| BlockRoots.SealBindsWitnesses | bitcoin/bitcoin-rpc/src/verification.ts:213-229 | The witness commitment binds the witnesses of all but the coinbase, and the reserved value, in the same sense. |
| TypeOrder.Search.Visit | solana/solana-typegen/src/typegen.ts:518-527 | The search stays a path of nodes being visited with everything finished in place, ends on cyclic graphs, and fails only if some reference has no definition. |
| TypeOrder.ReferencesOccur | solana/solana-typegen/src/typegen.ts:493-516 | What a type refers to are exactly the defined types that occur anywhere in it. |
| TypeOrder.OrderTypes | solana/solana-typegen/src/typegen.ts:489-534 | Succeeds exactly when all references are defined; every definition appears once, after those it refers to unless these lead back to it. |
| TypeOrder.AllVisited | solana/solana-typegen/src/typegen.ts:529-531 | When nothing is left unvisited the result holds every name once, each in its place. |
| TypeOrder.InOrder | solana/solana-typegen/src/typegen.ts:518-533 | Names in place make definitions in order. |
| BinaryHeap.Heap.Push | util/util-internal-binary-heap/heap.js:20-36 | Keeps the heap and adds the element. |
| BinaryHeap.Heap.Pop | util/util-internal-binary-heap/heap.js:39-49 | Keeps the heap and takes out what `Peek` showed, an element that comes after no other. |
| BinaryHeap.Heap.SiftDown | util/util-internal-binary-heap/heap.js:52-77 | Moving the hole down makes a heap from this position on, and keeps the elements. |
| BinaryHeap.Heap.Resort | util/util-internal-binary-heap/heap.js:80-90 | Makes a heap of any array that does not have exactly one element, and keeps the elements. |
| BinaryHeap.Heap.Drain | util/util-internal-binary-heap/heap.js:39-49 | Popping until nothing is left yields a sorted permutation. |
| BinaryHeap.TopIsMinimal | util/util-internal-binary-heap/heap.js:15-17 | The top comes after nothing. |
| BinaryHeap.StartsInside | util/util-internal-binary-heap/heap.js:83-84 | A calculation with 32-bit shifts: resorting starts at the parent of the last element exactly when there is more than one, and beyond the array for a single element. |
| Borsh.Sink.Allocate | solana/borsh/src/sink.ts:28-34 | Growing keeps the content and at least doubles the buffer. |
| Borsh.Sink.PutU128 | solana/borsh/src/sink.ts:84-87 | Writing two halves is writing 16 bytes, modulo 2^128 for every number. |
| Borsh.Sink.PutI128 | solana/borsh/src/sink.ts:89-93 | The same for the shifted remainder, whose sign follows the dividend: two's complement for every number. |
| Borsh.Sink.Put | solana/borsh/src/sink.ts:36-129 | Appends the little-endian form of any item, through any growth. |
| Borsh.Sink.PutAll | solana/borsh/src/sink.ts:22-129 | The content is the concatenation of the forms. |
| Borsh.Src.TakeNumber | solana/borsh/src/src.ts:15-61 | Reads the number, or fails beyond the end and stays where it is. |
| Borsh.Src.TakeWide | solana/borsh/src/src.ts:63-73 | Two halves read, the upper one signed or not, are the 16-byte number read. |
| Borsh.Src.Take | solana/borsh/src/src.ts:15-108 | Reads any bytes as an item of the expected kind, or fails exactly when they end too early. |
| Borsh.Halves | solana/borsh/src/sink.ts:84-93 | The bytes of the two halves are those of the whole, negative numbers included. |
| Borsh.TwoHalves | solana/borsh/src/src.ts:63-73 | The numbers of the two halves make up the number of the whole, also with a sign. |
| Borsh.ItemComesBack | solana/borsh/src/sink.ts:36-129 | Reading undoes writing for every item in range, whatever follows. |
| Borsh.WriteAndRead | solana/borsh/src/src.ts:15-114 | Any sequence of items written into a buffer of any capacity is read back. |

## Left out

- InstructionParser.InstructionTreeTraversal.Call: the sets of programs and the transaction state that only decide whether a warning is logged; the journal does nothing here.
- InstructionParser.ItemMapping.ProcessTransaction: block header, rewards, balances, token balances and the details of a parsing error; an error message that is empty counts as no error, as in the original.
- LogParser.ParseIsReading: numbers beyond 2^53, which lose precision in the original.
- BatchProcessor.Processor.ProcessBatch: the database is any sequence of slices that covers the batch; metrics and handlers that fail half-way are not modelled.
- ChangeLog.UndoOperation: rows that the database deletes along with others (`ON DELETE CASCADE`), and the restriction of updates to the columns given.
- ChangeLog.UpsertGives: several entities are upserted one after the other; the database refuses an id that is repeated within one statement, and a statement also fills columns that only some of its entities give.
- HotDatabase.Database.TransactHot: the template registry, retries, isolation levels, sentinel rows, and databases for final blocks only; it assumes that a hash tells the height of a block.
- Indexing.Indexer.ProcessBatch: assumes that block hashes tell heights, and that the database calls the block before the first one "0x".
- ObjectRelations.Block.SetUpRelations: assumes different addresses, and that the bisection finds the lower bound (its code is not part of this model); state diffs, balances, and the list of logs of an EVM transaction are linked like calls and left out.
- EvmRoutes.MapRpcBlock: the mappings of single fields, which are total functions here.
- CronosRepair.Block.RecoverReceipts: assumes that the node answers with the receipt it was asked for, since the code checks only the block; receipts are not sorted when none is missing.
- CronosRepair.Block.StripPhantoms: the node's nonces are a function; logs of different receipts are different objects.
- Bloom.LogsBloom: keccak is any function that yields at least six bytes.
- Multicall.SplitSlice: numbers so large that the division loses precision, and an open end.
- TransactionCodec.EncodeTransaction: numbers out of range, which the original refuses to write; amounts are integers.
- BlockRoots.SealBindsWitnesses: double SHA-256 is any function; hexadecimal text stands for its bytes.
- BinaryHeap.Heap.Resort: arrays with exactly one element, see `BinaryHeap.StartsInside`, or more than 2^30.
- BinaryHeap.Heap.Pop: heaps beyond 2^30 elements, see `BinaryHeap.ChildFits`.
- Borsh.Sink.Put: floats, which are written and read in different byte orders, and base58; UTF-8 is any encoding of text that can be undone.
- Block hashes, receipts and transaction tries of the EVM, RLP and optional trailing fields: library code around field lists.
- Solana's archive of account dictionaries, the Hyperliquid archives, the GraphQL model and its validation, the descriptions of ABI types: each would add members that follow from reading one loop.
- Retries with smaller batches, RPC, HTTP, storage, metrics, command lines and code printing.
