/**
 When a transaction is parsed by its log: exactly when the log tells, group after group, of its instructions.
 Said of instructions, messages and depths alone.
 */
module TransactionStories {
  import opened Wrappers
  import opened LogBrackets
  import opened Instructions
  import opened CompleteLogs
  import opened LogWalk
  import opened LogStories
  import opened TransactionWalk

  predicate IsLine(msgs: seq<Message>, q: nat) {
    q < |msgs| && (msgs[q].Text? || msgs[q].ComputeUnits?)
  }

  /** The log goes on with the call of the group, and tells of all its instructions up to a cut. */
  ghost predicate Heard(k: Course, hs: seq<nat>, t: Story, q: nat) {
    && (t.CutIn? || (t.Runs? && t.next == Quiet && Count(t) == |k.list|)) && t.before == 0
    && Tells(k, hs, t, 0, "", 0, q)
  }

  /** The log goes on with something else; the `n` lines up to the next call or result belong to nobody. */
  ghost predicate Unheard(k: Course, hs: seq<nat>, n: nat, q: nat) {
    && !Invokes(k.msgs, q, ProgramOf(k, 0)) && RestGiven(k, hs, 0)
    && q + n <= |k.msgs| && (forall j :: q <= j < q + n ==> IsLine(k.msgs, j)) && !IsLine(k.msgs, q + n)
  }

  /** The instructions of group `i` stand at the depths `hs`, and the log tells so from `q` to `end`. */
  ghost predicate GroupTold(k: Course, i: nat, hs: seq<nat>, q: nat, end: nat) {
    && |hs| == |k.list| && IsTree(hs)
    && if i <= k.tx.erroredInstruction then
         || (exists t :: Heard(k, hs, t, q) && end == q + Size(t))
         || (exists n :: Unheard(k, hs, n, q) && end == q + n)
       else |hs| == 1 && Stands(k, hs, 0, 1) && end == q
  }

  /** The walk is between two groups, or at the cut. */
  ghost predicate AtTopLevel(msgs: seq<Message>, q: nat) {
    q <= |msgs| && (Truncated(msgs, q) || (ScanTo(msgs, q).Brackets? && OpenAt(msgs, q) == []))
  }

  ghost predicate IsGroup(k: Course, q: nat) {
    k.list != [] && k.list[0].stackHeight == Some(1) && AtTopLevel(k.msgs, q)
  }

  // ---------- A group without messages ----------

  lemma LineStaysAbove(msgs: seq<Message>, q: nat)
    requires AtTopLevel(msgs, q) && IsLine(msgs, q)
    ensures AtTopLevel(msgs, q + 1)
  {
    hide ScanTo;
    ScanNext(msgs, q);
  }

  lemma {:induction false} LinesArePassed(msgs: seq<Message>, q: nat) returns (n: nat)
    requires AtTopLevel(msgs, q)
    ensures AfterTexts(msgs, q) == q + n <= |msgs| && AtTopLevel(msgs, q + n)
    ensures (forall j :: q <= j < q + n ==> IsLine(msgs, j)) && !IsLine(msgs, q + n)
    decreases |msgs| - q
  {
    hide ScanTo, OpenAt;
    n := 0;
    if IsLine(msgs, q) {
      LineStaysAbove(msgs, q);
      n := LinesArePassed(msgs, q + 1);
      n := n + 1;
    }
  }

  lemma {:induction false} LinesAreAll(msgs: seq<Message>, q: nat, n: nat)
    requires q + n <= |msgs| && (forall j :: q <= j < q + n ==> IsLine(msgs, j)) && !IsLine(msgs, q + n)
    ensures AfterTexts(msgs, q) == q + n
    decreases n
  {
    if n > 0 {
      assert IsLine(msgs, q);
      LinesAreAll(msgs, q + 1, n - 1);
    }
  }

  /** A group that the log does not mention is finished without it. */
  lemma UnheardWalks(k: Course, q: nat)
    requires IsGroup(k, q) && !Invokes(k.msgs, q, ProgramOf(k, 0))
    ensures AtTopLevel(k.msgs, AfterTexts(k.msgs, q))
    ensures Walk(k, Cursor(q, [])).Through?
            <==> k.list[0].programIdIndex < |k.tx.accounts| && Finish(k, []).At?
    ensures Walk(k, Cursor(q, [])).Through? ==> Walk(k, Cursor(q, [])) == Through(AfterTexts(k.msgs, q), Finish(k, []).hs)
  {
    hide Walk, ScanTo, OpenAt, Finish, TransactionContext.Knows;
    var n := LinesArePassed(k.msgs, q);
    var c := Cursor(q, []);
    WalkOn(k, c);
    FinishFirst(k);
    assert k.list[0].programIdIndex >= |k.tx.accounts| ==> !Walk(k, c).Through?;
    if k.list[0].programIdIndex < |k.tx.accounts| {
      if Truncated(k.msgs, q) {
        assert Move(k, c) == Finished(k, c);
      } else {
        assert Move(k, c) == Emitted(k, q + n, [], 1);
        if Move(k, c).On? {
          var d := Cursor(q + n, [1]);
          assert Move(k, c).c == d;
          WalkOn(k, d);
          assert Move(k, d) == Finished(k, d);
        }
      }
    }
  }

  lemma FinishFirst(k: Course)
    requires k.list != [] && k.list[0].stackHeight == Some(1)
    ensures match Obstacle(k, 0, 1, 1) case Some(failure) => Finish(k, []) == Lost(failure) case None => Finish(k, []) == Finish(k, [1])
  {
    assert [] + [1] == [1];
  }

  lemma GivenIsKnown(k: Course, hs: seq<nat>)
    requires k.list != [] && RestGiven(k, hs, 0)
    ensures k.list[0].programIdIndex < |k.tx.accounts|
  {
    assert Stands(k, hs, 0, HeightOr2(k.list[0]));
  }

  lemma UnheardIff(k: Course, q: nat, hs: seq<nat>, end: nat)
    requires IsGroup(k, q) && !Invokes(k.msgs, q, ProgramOf(k, 0))
    ensures Walk(k, Cursor(q, [])) == Through(end, hs)
            <==> |hs| == |k.list| && IsTree(hs) && exists n :: Unheard(k, hs, n, q) && end == q + n
    ensures Walk(k, Cursor(q, [])) == Through(end, hs) ==> AtTopLevel(k.msgs, end)
  {
    hide Walk, ScanTo, OpenAt, RestGiven, Finish;
    UnheardWalks(k, q);
    if Finish(k, []).At? {
      FinishedIsRest(k, []);
    }
    if |hs| == |k.list| && IsTree(hs) {
      if n :| Unheard(k, hs, n, q) && end == q + n {
        assert hs[..0] == [];
        FinishesRest(k, hs, 0);
        LinesAreAll(k.msgs, q, n);
        GivenIsKnown(k, hs);
      }
    }
    if Walk(k, Cursor(q, [])) == Through(end, hs) {
      FinishMovesOn(k, []);
      var n := LinesArePassed(k.msgs, q);
      assert Unheard(k, hs, n, q);
    }
  }

  // ---------- A group with messages ----------

  lemma HeardMeans(k: Course, hs: seq<nat>, t: Story, q: nat)
    requires Heard(k, hs, t, q)
    ensures var program := ProgramOf(k, 0);
            && Stands(k, hs, 0, 1) && IsInvoke(k, q, program, 1) && Tells(k, hs, t.body, 1, program, 1, q + 1)
            && IsCut(t.body) == IsCut(t) == t.CutIn?
            && (!IsCut(t) ==>
                  && Leaves(k, hs, t.left, 1, program, 1 + Count(t.body), q + 1 + Size(t.body))
                  && 1 + Count(t.body) + t.left == |hs| == |k.list| && Size(t) == 2 + Size(t.body))
            && (IsCut(t) ==> Size(t) == 1 + Size(t.body))
  {
    hide Leaves, IsSaid, RestGiven, ProgramOf, Stands, LeftOut;
    if t.Runs? {
      RunsMeans(k, hs, t, 0, "", 0, q);
    } else {
      OthersMean(k, hs, t, 0, "", 0, q);
    }
  }

  /** The call of the group is entered. */
  lemma GroupEnters(k: Course, q: nat)
    requires IsGroup(k, q) && Invokes(k.msgs, q, ProgramOf(k, 0))
    ensures Walk(k, Cursor(q, [])).Through? ==> k.tx.Knows(k.list[0]) && k.msgs[q].stackHeight == 1
    ensures k.tx.Knows(k.list[0]) && k.msgs[q].stackHeight == 1 ==>
              var c := Cursor(q + 1, [1]);
              Inside(k, c, 1, ProgramOf(k, 0)) && Walk(k, Cursor(q, [])) == Walk(k, c) && OpenAt(k.msgs, q + 1) == [q]
  {
    hide Walk, ScanTo, OpenAt, Inside, Finish;
    WalkOn(k, Cursor(q, []));
    if k.tx.Knows(k.list[0]) && k.msgs[q].stackHeight == 1 {
      RootWalks(k, q, ProgramOf(k, 0));
    }
  }

  /** ... and left. */
  lemma GroupLeaves(k: Course, q: nat, c: Cursor, hs: seq<nat>)
    requires Within(k, c) && Inside(k, c, 1, ProgramOf(k, 0)) && OpenAt(k.msgs, c.q) == [q] && IsResult(k, c.q, ProgramOf(k, 0))
    requires Eat(k, c.hs, 1, !Truthy(k.msgs[c.q].error)) == At(hs)
    ensures AtTopLevel(k.msgs, c.q + 1)
    ensures Walk(k, c) == match Finish(k, hs) case At(all) => Through(c.q + 1, all) case Lost(failure) => Stuck(failure)
  {
    hide Walk, ScanTo, OpenAt, Eat, Enter, Close, Finish, RunningAt;
    ResultWalksOn(k, c, 1, ProgramOf(k, 0), hs);
    InsideMeans(k, c, 1, ProgramOf(k, 0));
    assert [q][..0] == [];
    var d := Cursor(c.q + 1, hs);
    WalkOn(k, d);
    assert Move(k, d) == Finished(k, d);
  }

  /** What does not lie below the finished call of the group cannot follow it. */
  lemma NothingRemains(k: Course, hs: seq<nat>, failed: bool)
    requires 0 < |hs| <= |k.list| && (|hs| < |k.list| ==> !LiesBelow(k.list[|hs|], 1, failed))
    ensures Finish(k, hs).At? <==> |hs| == |k.list|
    ensures Finish(k, hs).At? ==> Finish(k, hs).hs == hs
  {
  }

  lemma HeardWalks(k: Course, q: nat, hs: seq<nat>, t: Story)
    requires IsGroup(k, q) && |hs| == |k.list| && IsTree(hs) && Heard(k, hs, t, q)
    ensures Invokes(k.msgs, q, ProgramOf(k, 0)) && Walk(k, Cursor(q, [])) == Through(q + Size(t), hs)
  {
    hide Walk, ScanTo, OpenAt, Eat, Finish, IsTree, Tells, Size, Count, IsCut, ProgramOf, Inside, LeftBelow;
    HeardMeans(k, hs, t, q);
    GroupEnters(k, q);
    var program, p := ProgramOf(k, 0), 1 + Count(t.body);
    assert hs[..1] == [1];
    StoryWalks(k, hs, t.body, 1, program, 1, q + 1);
    if !IsCut(t) {
      var c := Cursor(q + 1 + Size(t.body), hs[..p]);
      TreePrefix(hs, p);
      EatsLeft(k, hs, p, t.left, 1, !Truthy(k.msgs[c.q].error));
      assert hs[..p + t.left] == hs;
      ReturnsWithin(k, Cursor(q + 1, [1]), c, 1, program);
      GroupLeaves(k, q, c, hs);
      NothingRemains(k, hs, false);
    }
  }

  lemma LeavesWhat(k: Course, hs: seq<nat>, left: nat, h: nat, program: string, p: nat, q: nat)
    requires IsResult(k, q, program) && LeftBelow(k, hs, p, left, h, Truthy(k.msgs[q].error))
    ensures Leaves(k, hs, left, h, program, p, q)
    ensures p + left < |k.list| ==> !LiesBelow(k.list[p + left], h, Truthy(k.msgs[q].error))
  {
  }

  lemma OneIsTree()
    ensures IsTree([1])
  {
  }

  lemma {:induction false} CutEnds(k: Course, hs: seq<nat>, t: Story, depth: nat, program: string, p: nat, q: nat)
    requires IsCut(t) && Tells(k, hs, t, depth, program, p, q)
    ensures q + Size(t) <= |k.msgs| && Truncated(k.msgs, q + Size(t))
    decreases t
  {
    hide Enters, Leaves, RestGiven, ProgramOf, IsSaid, Tells, Size, Count, IsCut, Truncated;
    if t.Runs? {
      RunsMeans(k, hs, t, depth, program, p, q);
      CutEnds(k, hs, t.next, depth, program, p + t.before + 1 + Count(t.body) + t.left, q + 2 + Size(t.body));
    } else {
      OthersMean(k, hs, t, depth, program, p, q);
      if t.Says? {
        CutEnds(k, hs, t.rest, depth, program, p, q + 1);
      } else if t.CutIn? {
        CutEnds(k, hs, t.body, depth + 1, ProgramOf(k, p + t.before), p + t.before + 1, q + 1);
      }
    }
  }

  lemma CutIsHeard(k: Course, hs: seq<nat>, body: Story, q: nat)
    requires 1 <= |hs| == |k.list| && Stands(k, hs, 0, 1) && IsInvoke(k, q, ProgramOf(k, 0), 1)
    requires IsCut(body) && Tells(k, hs, body, 1, ProgramOf(k, 0), 1, q + 1)
    ensures Heard(k, hs, CutIn(0, body), q) && Size(CutIn(0, body)) == 1 + Size(body)
  {
    hide Stands, Leaves, IsInvoke, ProgramOf, Enters;
    EntersAtOnce(k, hs, 1, 0, q);
    TellsWithin(k, hs, body, 1, ProgramOf(k, 0), 1, q + 1);
  }

  lemma RunIsHeard(k: Course, hs: seq<nat>, body: Story, q: nat)
    requires 1 <= |hs| == |k.list| && Stands(k, hs, 0, 1) && IsInvoke(k, q, ProgramOf(k, 0), 1)
    requires !IsCut(body) && Tells(k, hs, body, 1, ProgramOf(k, 0), 1, q + 1) && 1 + Count(body) <= |hs|
    requires Leaves(k, hs, |hs| - 1 - Count(body), 1, ProgramOf(k, 0), 1 + Count(body), q + 1 + Size(body))
    ensures var t := Runs(0, body, |hs| - 1 - Count(body), Quiet); Heard(k, hs, t, q) && Size(t) == 2 + Size(body)
  {
    hide Stands, LeftBelow, IsInvoke, ProgramOf;
    RunsTells(k, hs, body, |hs| - 1 - Count(body), Quiet, 0, "", 0, q);
  }

  lemma WalkIsHeard(k: Course, q: nat) returns (t: Story)
    requires IsGroup(k, q) && Invokes(k.msgs, q, ProgramOf(k, 0)) && Walk(k, Cursor(q, [])).Through?
    ensures var end := Walk(k, Cursor(q, []));
            |end.hs| == |k.list| && IsTree(end.hs) && Heard(k, end.hs, t, q) && end.q == q + Size(t) && AtTopLevel(k.msgs, end.q)
  {
    hide Walk, ScanTo, OpenAt, Eat, Finish, IsTree, Tells, Size, Count, IsCut, ProgramOf, Inside, LeftBelow, Leaves, Heard;
    GroupEnters(k, q);
    var program, c := ProgramOf(k, 0), Cursor(q + 1, [1]);
    OneIsTree();
    var body := WalkIsStory(k, 1, program, c);
    var end := Walk(k, c);
    WalkGrows(k, c);
    assert Stands(k, end.hs, 0, 1);
    if IsCut(body) {
      CutIsHeard(k, end.hs, body, q);
      CutEnds(k, end.hs, body, 1, program, 1, q + 1);
      return CutIn(0, body);
    }
    var r := BodyEnds(k, body, 1, program, c);
    var hs := CloseEats(k, 1, program, r);
    GroupLeaves(k, q, r, hs);
    EatenIsLeft(k, r.hs, 1, !Truthy(k.msgs[r.q].error));
    LeavesWhat(k, hs, |hs| - |r.hs|, 1, program, |r.hs|, r.q);
    NothingRemains(k, hs, Truthy(k.msgs[r.q].error));
    RunIsHeard(k, hs, body, q);
    t := Runs(0, body, |hs| - 1 - Count(body), Quiet);
  }

  // ---------- Whole transactions ----------

  lemma HeardInvokes(k: Course, hs: seq<nat>, t: Story, q: nat)
    requires Heard(k, hs, t, q)
    ensures Invokes(k.msgs, q, ProgramOf(k, 0))
  {
    hide Tells, Stands, Leaves, ProgramOf;
    HeardMeans(k, hs, t, q);
  }

  /** A group gets through exactly as the log tells. */
  lemma GroupIff(k: Course, i: nat, q: nat, hs: seq<nat>, end: nat)
    requires IsGroup(k, q)
    ensures CourseFate(k, i, q) == Through(end, hs) <==> GroupTold(k, i, hs, q, end)
    ensures CourseFate(k, i, q) == Through(end, hs) ==> AtTopLevel(k.msgs, end)
  {
    hide Walk, ScanTo, OpenAt, IsTree, Heard, Unheard, TransactionContext.Knows, Stands, Size;
    if i > k.tx.erroredInstruction {
      SkippedIff(k, i, q, hs, end);
    } else if Invokes(k.msgs, q, ProgramOf(k, 0)) {
      forall n ensures !Unheard(k, hs, n, q) {
        HeardOrNot(k, hs, n, q);
      }
      if Walk(k, Cursor(q, [])) == Through(end, hs) {
        var t := WalkIsHeard(k, q);
      }
      if GroupTold(k, i, hs, q, end) {
        var t :| Heard(k, hs, t, q) && end == q + Size(t);
        HeardWalks(k, q, hs, t);
      }
    } else {
      forall t ensures !Heard(k, hs, t, q) {
        if Heard(k, hs, t, q) { HeardInvokes(k, hs, t, q); }
      }
      UnheardIff(k, q, hs, end);
    }
  }

  lemma HeardOrNot(k: Course, hs: seq<nat>, n: nat, q: nat)
    requires Invokes(k.msgs, q, ProgramOf(k, 0))
    ensures !Unheard(k, hs, n, q)
  {
  }

  lemma SkippedIff(k: Course, i: nat, q: nat, hs: seq<nat>, end: nat)
    requires i > k.tx.erroredInstruction && IsGroup(k, q)
    ensures CourseFate(k, i, q) == Through(end, hs) <==> |hs| == |k.list| == 1 && IsTree(hs) && Stands(k, hs, 0, 1) && end == q
  {
    hide TransactionContext.Knows, OpenAt, ScanTo;
  }

  /** After the depths `first` of its predecessors, the `n`-th group stands at the rest of `hs`, and the log tells so. */
  ghost predicate GoesOnWith(tx: RpcTransaction, n: nat, first: seq<nat>, before: nat, hs: seq<nat>, q: nat)
    requires 0 < n <= |tx.instructions|
  {
    first <= hs && GroupTold(CourseOf(tx, n - 1, tx.logMessages), n - 1, hs[|first|..], before, q)
  }

  /** The first `n` groups stand at the depths `hs`, and the log tells so up to message `q`. */
  ghost predicate Told(tx: RpcTransaction, n: nat, hs: seq<nat>, q: nat)
    requires n <= |tx.instructions|
  {
    if n == 0 then hs == [] && q == 0
    else exists first, before: nat :: Told(tx, n - 1, first, before) && GoesOnWith(tx, n, first, before, hs, q)
  }

  lemma {:induction false} FateIff(tx: RpcTransaction, n: nat, hs: seq<nat>, q: nat)
    requires n <= |tx.instructions|
    ensures FateUpTo(tx, n, tx.logMessages) == Through(q, hs) <==> Told(tx, n, hs, q)
    ensures Told(tx, n, hs, q) ==> AtTopLevel(tx.logMessages, q)
  {
    hide GroupTold, Group, ScanTo, CourseFate;
    if n == 0 {
      ScanNone(tx.logMessages);
      assert OpenAt(tx.logMessages, 0) == [];
    } else {
      var k, before := CourseOf(tx, n - 1, tx.logMessages), FateUpTo(tx, n - 1, tx.logMessages);
      GroupNotEmpty(tx, n - 1);
      if FateUpTo(tx, n, tx.logMessages) == Through(q, hs) {
        FateIff(tx, n - 1, before.hs, before.q);
        var more := GroupFate(tx, n - 1, tx.logMessages, before.q).hs;
        assert hs[|before.hs|..] == more;
        GroupIff(k, n - 1, before.q, more, q);
        assert Told(tx, n - 1, before.hs, before.q) && GoesOnWith(tx, n, before.hs, before.q, hs, q);
      }
      if Told(tx, n, hs, q) {
        var first, b: nat :| Told(tx, n - 1, first, b) && GoesOnWith(tx, n, first, b, hs, q);
        FateIff(tx, n - 1, first, b);
        GroupIff(k, n - 1, b, hs[|first|..], q);
        assert first + hs[|first|..] == hs;
      }
    }
  }

  /** The log tells of all instructions, which stand at the depths `hs`; nothing follows but a cut. */
  ghost predicate ToldByLog(tx: RpcTransaction, hs: seq<nat>) {
    exists q: nat :: Told(tx, |tx.instructions|, hs, q) && Ended(tx.logMessages, q)
  }

  /**
   The first pass gets through exactly when the log tells of all instructions, calls that it leaves out
   included, and puts them at the depths that the log and the given heights say.
   */
  lemma FirstPassIff(tx: RpcTransaction, hs: seq<nat>)
    ensures (FirstPass(tx).Through? && FirstPass(tx).hs == hs) <==> ToldByLog(tx, hs)
  {
    hide Told, FateUpTo;
    var fate := FateUpTo(tx, |tx.instructions|, tx.logMessages);
    if fate.Through? {
      FateIff(tx, |tx.instructions|, fate.hs, fate.q);
    }
    if ToldByLog(tx, hs) {
      var q: nat :| Told(tx, |tx.instructions|, hs, q) && Ended(tx.logMessages, q);
      FateIff(tx, |tx.instructions|, hs, q);
    }
  }

  /**
   A transaction that could do without its log is parsed without it exactly when the log does not tell of its
   instructions and does not ask for more of them either.
   */
  lemma LogIsGivenUpIff(tx: RpcTransaction)
    requires IsLogLess(tx)
    ensures (FirstPass(tx).Stuck? && FirstPass(tx).failure.ParsingError?)
            <==> (forall hs :: !ToldByLog(tx, hs)) && !exists i: nat, q: nat, path :: RunsOut(tx, i, q, path)
  {
    hide FateUpTo, IsLogLess, Told, RunsOut;
    forall hs ensures (FirstPass(tx).Through? && FirstPass(tx).hs == hs) <==> ToldByLog(tx, hs) {
      FirstPassIff(tx, hs);
    }
    if FirstPass(tx).Through? {
      assert ToldByLog(tx, FirstPass(tx).hs);
    }
    LogLessVerdict(tx);
    NoInstructionIff(tx);
  }
}
