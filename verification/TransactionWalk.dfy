/**
 Whole transactions walked group by group: what becomes of a transaction, and when its log is too long.
 */
module TransactionWalk {
  import opened Wrappers
  import opened LogBrackets
  import opened Instructions
  import opened CompleteLogs
  import opened LogWalk

  datatype InnerInstructions = InnerInstructions(index: nat, instructions: seq<RpcInstruction>)

  datatype RpcTransaction = RpcTransaction(
    context: TransactionContext,
    instructions: seq<RpcInstruction>,
    innerInstructions: seq<InnerInstructions>,
    logMessages: seq<Message>)

  function InnerOf(packs: seq<InnerInstructions>, index: nat): seq<RpcInstruction> {
    if packs == [] then []
    else (if packs[0].index == index then packs[0].instructions else []) + InnerOf(packs[1..], index)
  }

  /** Top-level instruction `i` and its inner calls. */
  function Group(tx: RpcTransaction, i: nat): seq<RpcInstruction>
    requires i < |tx.instructions|
  {
    [tx.instructions[i].(stackHeight := Some(1))] + InnerOf(tx.innerInstructions, i)
  }

  /** The instructions of the first `n` groups. */
  function Executed(tx: RpcTransaction, n: nat): seq<RpcInstruction>
    requires n <= |tx.instructions|
  {
    if n == 0 then [] else Executed(tx, n - 1) + Group(tx, n - 1)
  }

  // ---------- The fate of a transaction ----------

  function CourseOf(tx: RpcTransaction, i: nat, msgs: seq<Message>): Course
    requires i < |tx.instructions|
  {
    Course(tx.context, Group(tx, i), msgs)
  }

  function GroupFate(tx: RpcTransaction, i: nat, msgs: seq<Message>, q: nat): (fate: Fate)
    requires i < |tx.instructions| && q <= |msgs|
    ensures fate.Through? ==> q <= fate.q <= |msgs| && |fate.hs| == |Group(tx, i)|
  {
    CourseFate(CourseOf(tx, i, msgs), i, q)
  }

  /** The first `n` groups, with a log that is read on from one to the next. */
  function FateUpTo(tx: RpcTransaction, n: nat, msgs: seq<Message>): (fate: Fate)
    requires n <= |tx.instructions|
    ensures fate.Through? ==> fate.q <= |msgs| && |fate.hs| == |Executed(tx, n)|
  {
    if n == 0 then Through(0, [])
    else
      match FateUpTo(tx, n - 1, msgs)
      case Stuck(failure) => Stuck(failure)
      case Through(q, hs) =>
        match GroupFate(tx, n - 1, msgs, q)
        case Stuck(failure) => Stuck(failure)
        case Through(end, more) => Through(end, hs + more)
  }

  lemma {:induction false} StuckStays(tx: RpcTransaction, i: nat, n: nat, msgs: seq<Message>)
    requires i <= n <= |tx.instructions| && FateUpTo(tx, i, msgs).Stuck?
    ensures FateUpTo(tx, n, msgs) == FateUpTo(tx, i, msgs)
  {
    if i < n { StuckStays(tx, i, n - 1, msgs); }
  }

  /** With its own log, which must be used up. */
  function FirstPass(tx: RpcTransaction): Fate {
    match FateUpTo(tx, |tx.instructions|, tx.logMessages)
    case Stuck(failure) => Stuck(failure)
    case Through(q, hs) =>
      if Ended(tx.logMessages, q) then Through(q, hs) else Stuck(ParsingError("not all log messages where consumed"))
  }

  function SecondPass(tx: RpcTransaction): Fate {
    FateUpTo(tx, |tx.instructions|, [Truncate])
  }

  /** A parsing error leads to a second pass without log, any other failure is final. */
  function Verdict(tx: RpcTransaction): Outcome {
    match FirstPass(tx)
    case Through(_, _) => Ok
    case Stuck(AssertionError(at)) => Fail(AssertionError(at))
    case Stuck(ParsingError(_)) =>
      match SecondPass(tx)
      case Through(_, _) => Ok
      case Stuck(failure) => Fail(failure)
  }

  // ---------- Without a log ----------

  /** Whether a group can be traversed without any log. */
  ghost predicate GroupIsLogLess(tx: RpcTransaction, i: nat)
    requires i < |tx.instructions|
  {
    && (forall src <- Group(tx, i) :: tx.context.Knows(src))
    && if i <= tx.context.erroredInstruction then WellNested(Group(tx, i)) else |Group(tx, i)| == 1
  }

  ghost predicate IsLogLess(tx: RpcTransaction) {
    forall i :: 0 <= i < |tx.instructions| ==> GroupIsLogLess(tx, i)
  }

  /** A cut log lets a group through exactly when it needs none. */
  lemma CutGroupIff(tx: RpcTransaction, i: nat, msgs: seq<Message>, q: nat)
    requires i < |tx.instructions| && q <= |msgs| && Truncated(msgs, q)
    ensures GroupFate(tx, i, msgs, q).Through? <==> GroupIsLogLess(tx, i)
    ensures GroupFate(tx, i, msgs, q).Through? ==> GroupFate(tx, i, msgs, q) == Through(q, GivenHeights(Group(tx, i)))
    ensures GroupFate(tx, i, msgs, q) != Stuck(AssertionError(NoInstruction))
  {
    hide Walk, TransactionContext.Knows, WellNested, OpenAt;
    var k := CourseOf(tx, i, msgs);
    CutLogIff(k, q);
    StarvesHere(k, Cursor(q, []));
    WalkOn(k, Cursor(q, []));
    CutLogEndsAtOnce(k, q);
    assert |k.list| == 1 ==> forall src <- k.list :: src == k.list[0];
    assert k.list[0] in k.list;
  }

  lemma HeightsConcat(a: seq<RpcInstruction>, b: seq<RpcInstruction>)
    ensures GivenHeights(a + b) == GivenHeights(a) + GivenHeights(b)
  {
  }

  lemma {:induction false} CutLogIffLess(tx: RpcTransaction, n: nat)
    requires n <= |tx.instructions|
    ensures FateUpTo(tx, n, [Truncate]).Through? <==> forall i :: 0 <= i < n ==> GroupIsLogLess(tx, i)
    ensures FateUpTo(tx, n, [Truncate]).Through? ==> FateUpTo(tx, n, [Truncate]) == Through(0, GivenHeights(Executed(tx, n)))
    ensures FateUpTo(tx, n, [Truncate]) != Stuck(AssertionError(NoInstruction))
  {
    hide GroupIsLogLess, GroupFate;
    if n > 0 {
      CutLogIffLess(tx, n - 1);
      CutGroupIff(tx, n - 1, [Truncate], 0);
      HeightsConcat(Executed(tx, n - 1), Group(tx, n - 1));
    }
  }

  // ---------- What may fail ----------

  /** Between two groups no bracket is open unless the log has been cut. */
  predicate Between(msgs: seq<Message>, q: nat) {
    Truncated(msgs, q) || OpenAt(msgs, q) == []
  }

  lemma GroupEndsBetween(tx: RpcTransaction, i: nat, msgs: seq<Message>, q: nat)
    requires i < |tx.instructions| && q <= |msgs| && Between(msgs, q) && GroupFate(tx, i, msgs, q).Through?
    ensures Between(msgs, GroupFate(tx, i, msgs, q).q)
  {
    hide Walk, OpenAt;
    if i <= tx.context.erroredInstruction {
      WalkEndsClosed(CourseOf(tx, i, msgs), Cursor(q, []));
    }
  }

  lemma LogLessGroup(tx: RpcTransaction, i: nat, msgs: seq<Message>, q: nat)
    requires i < |tx.instructions| && q <= |msgs| && Between(msgs, q) && GroupIsLogLess(tx, i)
    ensures match GroupFate(tx, i, msgs, q)
            case Through(_, _) => true
            case Stuck(failure) => failure.ParsingError? || failure.at == NoInstruction
  {
    hide Walk, OpenAt, TransactionContext.Knows, WellNested;
    var k := CourseOf(tx, i, msgs);
    if Truncated(msgs, q) {
      CutGroupIff(tx, i, msgs, q);
    } else if i <= tx.context.erroredInstruction {
      NestedNeverDeep(k, Cursor(q, []));
      KnownIsEnough(k, Cursor(q, []));
    } else {
      assert k.list[0] in k.list;
    }
  }

  lemma {:induction false} LogLessUpTo(tx: RpcTransaction, n: nat, msgs: seq<Message>)
    requires n <= |tx.instructions| && IsLogLess(tx)
    ensures match FateUpTo(tx, n, msgs)
            case Through(q, _) => Between(msgs, q)
            case Stuck(failure) => failure.ParsingError? || failure.at == NoInstruction
  {
    hide GroupIsLogLess, GroupFate;
    if n > 0 {
      LogLessUpTo(tx, n - 1, msgs);
      var before := FateUpTo(tx, n - 1, msgs);
      if before.Through? {
        LogLessGroup(tx, n - 1, msgs, before.q);
        if GroupFate(tx, n - 1, msgs, before.q).Through? { GroupEndsBetween(tx, n - 1, msgs, before.q); }
      }
    }
  }

  /** A transaction that needs no log fails only when its log asks for more calls than there are, heights given or not. */
  lemma LogLessVerdict(tx: RpcTransaction)
    requires IsLogLess(tx)
    ensures Verdict(tx) in {Ok, Fail(AssertionError(NoInstruction))}
    ensures SecondPass(tx).Through?
  {
    hide FateUpTo, GroupIsLogLess;
    LogLessUpTo(tx, |tx.instructions|, tx.logMessages);
    CutLogIffLess(tx, |tx.instructions|);
  }

  // ---------- Running out of instructions ----------

  /** The walk gets to group `i`, and within it to an inner call in the log with no instruction left for it. */
  ghost predicate RunsOut(tx: RpcTransaction, i: nat, q: nat, path: seq<Cursor>) {
    && i < |tx.instructions| && i <= tx.context.erroredInstruction
    && FateUpTo(tx, i, tx.logMessages).Through? && FateUpTo(tx, i, tx.logMessages).q == q
    && LeadsToStarving(CourseOf(tx, i, tx.logMessages), Cursor(q, []), path)
  }

  lemma {:induction false} RunsOutIff(tx: RpcTransaction, n: nat)
    requires n <= |tx.instructions|
    ensures FateUpTo(tx, n, tx.logMessages) == Stuck(AssertionError(NoInstruction))
            <==> exists i: nat, q: nat, path :: i < n && RunsOut(tx, i, q, path)
  {
    hide LeadsToStarving, Walk, Group, Obstacle;
    if n > 0 {
      RunsOutIff(tx, n - 1);
      var before := FateUpTo(tx, n - 1, tx.logMessages);
      if before.Through? && n - 1 <= tx.context.erroredInstruction {
        var k := CourseOf(tx, n - 1, tx.logMessages);
        assert k.list != [] by { GroupNotEmpty(tx, n - 1); }
        StarvesIff(k, Cursor(before.q, []));
        if path :| LeadsToStarving(k, Cursor(before.q, []), path) {
          assert RunsOut(tx, n - 1, before.q, path);
        }
      }
      if before.Through? && n - 1 > tx.context.erroredInstruction {
        NoLackBeyond(tx, n - 1, tx.logMessages, before.q);
      }
      if i: nat, q: nat, path :| i < n && RunsOut(tx, i, q, path) {
        if i < n - 1 { assert i < n - 1 && RunsOut(tx, i, q, path); }
      }
    }
  }

  lemma GroupNotEmpty(tx: RpcTransaction, i: nat)
    requires i < |tx.instructions|
    ensures Group(tx, i) != [] && Group(tx, i)[0].stackHeight == Some(1)
  {
  }

  lemma NoLackBeyond(tx: RpcTransaction, i: nat, msgs: seq<Message>, q: nat)
    requires i < |tx.instructions| && i > tx.context.erroredInstruction && q <= |msgs|
    ensures GroupFate(tx, i, msgs, q) != Stuck(AssertionError(NoInstruction))
  {
  }

  /**
   The plain assertion on a missing instruction ends a transaction exactly when the walk over its log comes to
   an `invoke` inside an open bracket after all instructions of the group have been emitted.
   */
  lemma NoInstructionIff(tx: RpcTransaction)
    ensures Verdict(tx) == Fail(AssertionError(NoInstruction)) <==> exists i: nat, q: nat, path :: RunsOut(tx, i, q, path)
  {
    hide RunsOut, FateUpTo;
    RunsOutIff(tx, |tx.instructions|);
    CutLogIffLess(tx, |tx.instructions|);
    if i: nat, q: nat, path :| RunsOut(tx, i, q, path) {
      assert i < |tx.instructions| by { RunsOutWhere(tx, i, q, path); }
    }
  }

  lemma RunsOutWhere(tx: RpcTransaction, i: nat, q: nat, path: seq<Cursor>)
    requires RunsOut(tx, i, q, path)
    ensures i < |tx.instructions|
  {
  }

  // ---------- A log that mentions every call ----------

  /** From group `i` on, the calls of `t` are all there is, in the transaction and in its log. */
  ghost predicate Complete(tx: RpcTransaction, i: nat, t: LogTree, quiet: bool)
    requires i <= |tx.instructions|
    decreases |tx.instructions| - i
  {
    if i == |tx.instructions| then t == End
    else
      && (if i <= tx.context.erroredInstruction then
            && t.Call? && |Group(tx, i)| == 1 + CallCount(t.body)
            && Performs(tx.context, Call(t.programId, t.body, t.error, End), 0, Group(tx, i), quiet)
          else |Group(tx, i)| == 1 && tx.context.Knows(Group(tx, i)[0]))
      && Complete(tx, i + 1, After(tx.context, i, t), quiet)
  }

  /** The log left over when group `i` has been handled. */
  function After(context: TransactionContext, i: nat, t: LogTree): LogTree {
    if i <= context.erroredInstruction && t.Call? then t.next else t
  }

  ghost predicate LeftToDo(tx: RpcTransaction, i: nat, t: LogTree, quiet: bool, q: nat)
    requires i <= |tx.instructions|
  {
    var msgs := tx.logMessages;
    && Complete(tx, i, t, quiet) && WellFormed(t, None) && Fragment(msgs, q, Print(t, 0)) && q + |Print(t, 0)| == |msgs|
    && ScanTo(msgs, q).Brackets? && OpenAt(msgs, q) == []
  }

  /** The log of the transaction mentions every call, as the tree `t`. */
  ghost predicate LogIsComplete(tx: RpcTransaction, t: LogTree, quiet: bool) {
    Complete(tx, 0, t, quiet) && WellFormed(t, None) && tx.logMessages == Print(t, 0)
  }

  /** The call of a whole group is walked through, and the log is back at the top level. */
  lemma GroupWalks(k: Course, i: nat, t: LogTree, quiet: bool, q: nat)
    requires i <= k.tx.erroredInstruction && GroupAhead(k.tx, k.list, k.msgs, i, t, quiet, q)
    requires k.list[0].stackHeight == Some(1) && q <= |k.msgs| && ScanTo(k.msgs, q).Brackets? && OpenAt(k.msgs, q) == []
    ensures var q' := q + Span(k.tx, i, t);
            && q' <= |k.msgs| && Walk(k, Cursor(q, [])).Through? && Walk(k, Cursor(q, [])).q == q'
            && ScanTo(k.msgs, q').Brackets? && OpenAt(k.msgs, q') == []
  {
    hide Walk, Ahead, Print, CallCount, ScanTo, OpenAt, Stops, TransactionContext.Knows, WellFormed, GroupAhead, Move, Span;
    hide Inside, Fragment;
    GroupIsAhead(k.tx, k.list, k.msgs, i, t, quiet, q);
    GroupCalls(k, i, t, quiet, q);
    RootWalks(k, q, t.programId);
    var end := TreeWalks(k, t.body, 1, quiet, t.programId, Cursor(q + 1, [1]));
    AheadStops(k.tx, k.list, k.msgs, t.body, 1, quiet, t.programId, 1, q + 1);
    InsideMeans(k, end, 1, t.programId);
    ResultWalks(k, end, 1, t.programId, quiet);
    EndWalks(k, end.(q := end.q + 1));
  }

  lemma RootWalks(k: Course, q: nat, program: string)
    requires k.list != [] && k.tx.Knows(k.list[0]) && k.list[0].stackHeight == Some(1)
    requires k.tx.accounts[k.list[0].programIdIndex] == program
    requires q < |k.msgs| && k.msgs[q] == Invoke(program, 1) && ScanTo(k.msgs, q).Brackets? && OpenAt(k.msgs, q) == []
    ensures Inside(k, Cursor(q + 1, [1]), 1, program) && Walk(k, Cursor(q, [])) == Walk(k, Cursor(q + 1, [1]))
    ensures OpenAt(k.msgs, q + 1) == [q]
  {
    hide Walk, ScanTo, OpenAt, Finish, Close, Inside;
    InvokeOpens(k.msgs, q);
    assert [] + [q] == [q] && [] + [1] == [1];
    RunsFirst(k, q, program);
    WalkOn(k, Cursor(q, []));
  }

  lemma EndWalks(k: Course, c: Cursor)
    requires Within(k, c) && |c.hs| == |k.list| > 0 && OpenAt(k.msgs, c.q) == []
    ensures Walk(k, c) == Through(c.q, c.hs)
  {
    hide OpenAt, Enter, Close;
  }

  lemma GroupCalls(k: Course, i: nat, t: LogTree, quiet: bool, q: nat)
    requires i <= k.tx.erroredInstruction && GroupAhead(k.tx, k.list, k.msgs, i, t, quiet, q)
    ensures t.Call? && |k.list| == 1 + CallCount(t.body) && Span(k.tx, i, t) == 2 + |Print(t.body, 1)|
  {
  }

  lemma RunsFirst(k: Course, q: nat, program: string)
    requires k.list != [] && q < |k.msgs| && k.msgs[q] == Invoke(program, 1)
    requires ScanTo(k.msgs, q + 1).Brackets? && OpenAt(k.msgs, q + 1) == [q]
    ensures Inside(k, Cursor(q + 1, [1]), 1, program)
  {
  }

  lemma DoGroup(tx: RpcTransaction, i: nat, t: LogTree, quiet: bool, q: nat)
    requires i < |tx.instructions| && LeftToDo(tx, i, t, quiet, q)
    ensures q <= |tx.logMessages|
    ensures var fate := GroupFate(tx, i, tx.logMessages, q); fate.Through? && fate.q == q + Span(tx.context, i, t)
    ensures LeftToDo(tx, i + 1, After(tx.context, i, t), quiet, q + Span(tx.context, i, t))
  {
    hide WellFormed, Fragment, Print, Performs, Walk, ScanTo, OpenAt, CallCount, TransactionContext.Knows;
    GroupNotEmpty(tx, i);
    FragmentWithin(tx.logMessages, q, Print(t, 0));
    if i <= tx.context.erroredInstruction {
      var k := CourseOf(tx, i, tx.logMessages);
      GroupIsAhead(tx.context, Group(tx, i), tx.logMessages, i, t, quiet, q);
      GroupWalks(k, i, t, quiet, q);
    }
  }

  lemma FragmentWithin(msgs: seq<Message>, q: nat, text: seq<Message>)
    requires Fragment(msgs, q, text)
    ensures q + |text| <= |msgs|
  {
  }

  lemma StartComplete(tx: RpcTransaction, t: LogTree, quiet: bool)
    requires LogIsComplete(tx, t, quiet)
    ensures LeftToDo(tx, 0, t, quiet, 0)
  {
    hide Complete, WellFormed, Print;
    ScanNone(tx.logMessages);
    assert tx.logMessages[0..|tx.logMessages|] == tx.logMessages;
  }

  lemma {:induction false} CompleteUpTo(tx: RpcTransaction, t: LogTree, quiet: bool, n: nat) returns (rest: LogTree, q: nat)
    requires LogIsComplete(tx, t, quiet) && n <= |tx.instructions|
    ensures var fate := FateUpTo(tx, n, tx.logMessages); fate.Through? && fate.q == q
    ensures LeftToDo(tx, n, rest, quiet, q)
  {
    hide LogIsComplete, LeftToDo, GroupFate;
    if n == 0 {
      rest, q := t, 0;
      StartComplete(tx, t, quiet);
    } else {
      rest, q := CompleteUpTo(tx, t, quiet, n - 1);
      DoGroup(tx, n - 1, rest, quiet, q);
      rest, q := After(tx.context, n - 1, rest), q + Span(tx.context, n - 1, rest);
    }
  }

  /** A log that mentions every call is used up in the first pass. */
  lemma CompleteVerdict(tx: RpcTransaction, t: LogTree, quiet: bool)
    requires LogIsComplete(tx, t, quiet)
    ensures FirstPass(tx).Through? && FirstPass(tx).q == |tx.logMessages| && Verdict(tx) == Ok
  {
    hide LogIsComplete, FateUpTo;
    var rest, q := CompleteUpTo(tx, t, quiet, |tx.instructions|);
  }
}
