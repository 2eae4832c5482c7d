/**
 Logs that do not fit their transaction.  Whether there are more `invoke` messages than instructions does
 not decide what happens; see `NoInstructionIff` for what does.
 */
module LogExamples {
  import opened Wrappers
  import opened LogBrackets
  import opened Instructions
  import opened LogWalk
  import opened LogStories
  import opened TransactionWalk
  import opened TransactionStories
  import opened InstructionParser

  function Calling(programIdIndex: nat): RpcInstruction {
    RpcInstruction(programIdIndex, [], "", None)
  }

  /** Top-level calls of the programs A and B, given by their numbers, all of them executed. */
  function Executing(programs: seq<nat>, log: seq<Message>): RpcTransaction {
    RpcTransaction(TransactionContext(0, ["A", "B"], |programs|, true),
                   seq(|programs|, i requires 0 <= i < |programs| => Calling(programs[i])), [], log)
  }

  lemma NoMessages(log: seq<Message>)
    ensures ScanTo(log, 0).Brackets? && OpenAt(log, 0) == []
  {
    ScanNone(log);
  }

  /** A call of A whose log tells of an inner call. */
  lemma InnerCallIsMissing(tx: RpcTransaction)
    requires tx.instructions != [] && tx.innerInstructions == [] && tx.instructions[0] == Calling(0)
    requires tx.context.accounts == ["A", "B"] && tx.context.erroredInstruction >= 0
    requires |tx.logMessages| > 1 && tx.logMessages[0] == Invoke("A", 1) && tx.logMessages[1].Invoke?
    ensures Verdict(tx) == Fail(AssertionError(NoInstruction))
  {
    var k := CourseOf(tx, 0, tx.logMessages);
    var start, inside := Cursor(0, []), Cursor(1, [1]);
    NoMessages(k.msgs);
    InvokeOpens(k.msgs, 0);
    assert k.list == [Calling(0).(stackHeight := Some(1))];
    assert Move(k, start) == On(inside) && Starves(k, inside);
    assert LeadsToStarving(k, start, [start, inside]);
    assert FateUpTo(tx, 0, tx.logMessages) == Through(0, []);
    assert RunsOut(tx, 0, 0, [start, inside]);
    NoInstructionIff(tx);
  }

  /** One instruction, and a log that has two. */
  method OneCallTooMany() returns (r: Outcome)
    ensures r == Fail(AssertionError(NoInstruction))
  {
    var items := new ItemMapping();
    var tx := Executing([0], [Invoke("A", 1), Invoke("B", 2)]);
    InnerCallIsMissing(tx);
    var dropped;
    ghost var parse;
    r, dropped, parse := items.ProcessTransaction(tx);
  }

  /** As many `invoke` messages as instructions, but B is no inner call of A. */
  method WrongLevel() returns (r: Outcome)
    ensures r == Fail(AssertionError(NoInstruction))
  {
    var items := new ItemMapping();
    var tx := Executing([0, 1], [Invoke("A", 1), Invoke("B", 2), InvokeResult("B", None), InvokeResult("A", None)]);
    InnerCallIsMissing(tx);
    var dropped;
    ghost var parse;
    r, dropped, parse := items.ProcessTransaction(tx);
  }

  lemma OthersLogIsLeft(tx: RpcTransaction)
    requires tx == Executing([0], [Invoke("B", 1), Invoke("B", 1)])
    ensures Verdict(tx) == Ok && FirstPass(tx).Stuck?
  {
    var log := tx.logMessages;
    var k := CourseOf(tx, 0, log);
    NoMessages(log);
    assert k.list == [Calling(0).(stackHeight := Some(1))];
    assert Move(k, Cursor(0, [])) == On(Cursor(0, [1]));
    WalkOn(k, Cursor(0, []));
    WalkOn(k, Cursor(0, [1]));
    assert Move(k, Cursor(0, [1])) == Over(Through(0, [1]));
    assert FateUpTo(tx, 0, log) == Through(0, []) && FateUpTo(tx, 1, log) == GroupFate(tx, 0, log, 0);
    assert GroupIsLogLess(tx, 0);
    CutLogIffLess(tx, 1);
  }

  /** More `invoke` messages than instructions, none of them the call's own: the log is given up. */
  method OthersLog() returns (r: Outcome, ghost parse: Parse)
    ensures r == Ok && !parse.byLog
  {
    var items := new ItemMapping();
    var tx := Executing([0], [Invoke("B", 1), Invoke("B", 1)]);
    OthersLogIsLeft(tx);
    var dropped;
    r, dropped, parse := items.ProcessTransaction(tx);
  }

  /** The call of A is not mentioned. */
  lemma FirstIsUnheard(tx: RpcTransaction)
    requires tx == Executing([0, 1], [Invoke("B", 1), InvokeResult("B", None)])
    ensures GoesOnWith(tx, 1, [], 0, [1], 0)
  {
    var k := CourseOf(tx, 0, tx.logMessages);
    assert k.list == [Calling(0).(stackHeight := Some(1))];
    assert Unheard(k, [1], 0, 0);
    assert [1][0..] == [1];
  }

  /** The call of B is. */
  lemma SecondIsHeard(tx: RpcTransaction)
    requires tx == Executing([0, 1], [Invoke("B", 1), InvokeResult("B", None)])
    ensures GoesOnWith(tx, 2, [1], 0, [1, 1], 2)
  {
    var k := CourseOf(tx, 1, tx.logMessages);
    assert k.list == [Calling(1).(stackHeight := Some(1))];
    assert Heard(k, [1], Runs(0, Quiet, 0, Quiet), 0);
    assert [1, 1][|[1]|..] == [1];
  }

  lemma LeftOutIsTold(tx: RpcTransaction)
    requires tx == Executing([0, 1], [Invoke("B", 1), InvokeResult("B", None)])
    ensures ToldByLog(tx, [1, 1])
  {
    hide GoesOnWith, Executing;
    FirstIsUnheard(tx);
    SecondIsHeard(tx);
    TwoGroups(tx);
    assert Told(tx, 0, [], 0);
    assert Told(tx, 1, [1], 0) && Told(tx, 2, [1, 1], 2);
  }

  lemma TwoGroups(tx: RpcTransaction)
    requires tx == Executing([0, 1], [Invoke("B", 1), InvokeResult("B", None)])
    ensures |tx.instructions| == 2 && |tx.logMessages| == 2
  {
  }

  /** A call that the log does not mention does not keep the parser from going by the log. */
  method CallIsLeftOut() returns (r: Outcome, ghost parse: Parse)
    ensures r == Ok && parse.byLog && DepthsOf(parse.addrs) == [1, 1]
  {
    var items := new ItemMapping();
    var tx := Executing([0, 1], [Invoke("B", 1), InvokeResult("B", None)]);
    LeftOutIsTold(tx);
    FirstPassIff(tx, [1, 1]);
    var dropped;
    r, dropped, parse := items.ProcessTransaction(tx);
  }
}
