/**
 What the traversal of a group of instructions comes to, as a flat machine: two cursors that only move
 forward, the depth of the latest instruction, and the open brackets of the log in place of a call stack.
 */
module LogWalk {
  import opened Wrappers
  import opened LogBrackets
  import opened Instructions
  import opened CompleteLogs

  /** A group of instructions, the first one at the top level, and the log of its transaction. */
  datatype Course = Course(tx: TransactionContext, list: seq<RpcInstruction>, msgs: seq<Message>)

  /** `q` messages are read, and instructions emitted at the depths `hs`. */
  datatype Cursor = Cursor(q: nat, hs: seq<nat>)

  /** How far the log was read, and the depths of all instructions of the group. */
  datatype Fate = Through(q: nat, hs: seq<nat>) | Stuck(failure: Failure)

  datatype Next = On(c: Cursor) | Over(fate: Fate)

  datatype Moved = At(hs: seq<nat>) | Lost(failure: Failure)

  /** The depth of the latest instruction; the first one may be put at the top level. */
  function DepthOf(hs: seq<nat>): nat {
    if hs == [] then 1 else hs[|hs| - 1]
  }

  predicate Truncated(msgs: seq<Message>, q: nat) {
    q < |msgs| && msgs[q].Truncate?
  }

  predicate Ended(msgs: seq<Message>, q: nat) {
    q >= |msgs| || msgs[q].Truncate?
  }

  function OpenAt(msgs: seq<Message>, q: nat): (open: seq<nat>)
    ensures forall i :: 0 <= i < |open| ==> open[i] < |msgs|
  {
    if q <= |msgs| && ScanTo(msgs, q).Brackets? then ScanTo(msgs, q).open else []
  }

  /** The program of the innermost open bracket. */
  function RunningAt(msgs: seq<Message>, q: nat): string
    requires OpenAt(msgs, q) != []
  {
    ProgramAt(msgs, OpenAt(msgs, q)[|OpenAt(msgs, q)| - 1])
  }

  // ---------- Single moves ----------

  /** The first instruction stands at the top level, the others below it and at most one level deeper than the latest. */
  predicate HeightFits(list: seq<RpcInstruction>, p: nat, h: nat, d: nat)
    requires p < |list|
  {
    && 1 <= h <= d + 1 && (p == 0 <==> h == 1)
    && (list[p].stackHeight.Some? ==> list[p].stackHeight.value == h)
  }

  /** What keeps instruction `p` from being emitted at height `h`, after one at depth `d`. */
  function Obstacle(k: Course, p: nat, h: nat, d: nat): Option<Failure>
    requires p < |k.list|
  {
    if !HeightFits(k.list, p, h, d) then Some(AssertionError(BadHeight))
    else if !k.tx.Knows(k.list[p]) then Some(AssertionError(UnknownAccount))
    else None
  }

  /** A parsing problem is reported with the program of an instruction, which must be known. */
  function Complaint(tx: TransactionContext, src: RpcInstruction, msg: string): Failure {
    if src.programIdIndex < |tx.accounts| then ParsingError(msg) else AssertionError(UnknownAccount)
  }

  /** The depth of instruction `p` when it follows the finished call at `depth` without being mentioned. */
  function HeightBelow(src: RpcInstruction, depth: nat, quiet: bool): nat {
    src.stackHeight.GetOr(if quiet then 2 else depth + 1)
  }

  /** Emits instruction after instruction until one does not belong below the finished call at `depth`. */
  function Eat(k: Course, hs: seq<nat>, depth: nat, quiet: bool): Moved
    decreases |k.list| - |hs|
  {
    if |hs| >= |k.list| || Stops(k.list, |hs|, depth, quiet) then At(hs)
    else
      var h := HeightBelow(k.list[|hs|], depth, quiet);
      match Obstacle(k, |hs|, h, DepthOf(hs))
      case Some(failure) => Lost(failure)
      case None => Eat(k, hs + [h], depth, quiet)
  }

  /** Emits all instructions that are left, as far as this is possible. */
  function Finish(k: Course, hs: seq<nat>): Moved
    decreases |k.list| - |hs|
  {
    if |hs| >= |k.list| then At(hs)
    else
      var h := HeightOr2(k.list[|hs|]);
      match Obstacle(k, |hs|, h, DepthOf(hs))
      case Some(failure) => Lost(failure)
      case None => Finish(k, hs + [h])
  }

  function Finished(k: Course, c: Cursor): Next {
    match Finish(k, c.hs)
    case At(hs) => Over(Through(c.q, hs))
    case Lost(failure) => Over(Stuck(failure))
  }

  function AfterTexts(msgs: seq<Message>, q: nat): (r: nat)
    ensures r >= q && (q <= |msgs| ==> r <= |msgs|)
    decreases |msgs| - q
  {
    if q < |msgs| && (msgs[q].Text? || msgs[q].ComputeUnits?) then AfterTexts(msgs, q + 1) else q
  }

  predicate Invokes(msgs: seq<Message>, q: nat, program: string) {
    q < |msgs| && msgs[q].Invoke? && msgs[q].programId == program
  }

  /** Emits the current instruction at height `h` and goes on from message `q`. */
  function Emitted(k: Course, q: nat, hs: seq<nat>, h: nat): Next
    requires |hs| < |k.list|
  {
    match Obstacle(k, |hs|, h, DepthOf(hs))
    case Some(failure) => Over(Stuck(failure))
    case None => On(Cursor(q, hs + [h]))
  }

  /** The next call, at height `h`: the log may mention it or not. */
  function Enter(k: Course, c: Cursor, h: nat): Next {
    if |c.hs| >= |k.list| then Over(Stuck(AssertionError(NoInstruction)))
    else
      var src := k.list[|c.hs|];
      if src.stackHeight.Some? && src.stackHeight.value != h then Over(Stuck(Complaint(k.tx, src, "stack height mismatch")))
      else if src.programIdIndex >= |k.tx.accounts| then Over(Stuck(AssertionError(UnknownAccount)))
      else if Invokes(k.msgs, c.q, k.tx.accounts[src.programIdIndex]) then
        if k.msgs[c.q].stackHeight != h then Over(Stuck(ParsingError("invoke message has unexpected stack height")))
        else Emitted(k, c.q + 1, c.hs, h)
      else if Truncated(k.msgs, c.q) then Finished(k, c)
      else Emitted(k, AfterTexts(k.msgs, c.q), c.hs, h)
  }

  /** The running call reports its result. */
  function Close(k: Course, c: Cursor): Next
    requires c.q < |k.msgs| && k.msgs[c.q].InvokeResult? && OpenAt(k.msgs, c.q) != []
  {
    if k.msgs[c.q].programId != RunningAt(k.msgs, c.q)
    then Over(Stuck(ParsingError("invoke result message and instruction program ids don't match")))
    else
      match Eat(k, c.hs, |OpenAt(k.msgs, c.q)|, !Truthy(k.msgs[c.q].error))
      case At(hs) => On(Cursor(c.q + 1, hs))
      case Lost(failure) => Over(Stuck(failure))
  }

  function Move(k: Course, c: Cursor): Next {
    var open := OpenAt(k.msgs, c.q);
    if c.hs == [] then Enter(k, c, 1)
    else if open == [] || Truncated(k.msgs, c.q) then Finished(k, c)
    else if c.q >= |k.msgs| then Over(Stuck(ParsingError("unexpected end of log")))
    else
      match k.msgs[c.q]
      case Text(_, _) => On(c.(q := c.q + 1))
      case ComputeUnits(programId, _) =>
        if programId == RunningAt(k.msgs, c.q) then On(c.(q := c.q + 1))
        else Over(Stuck(ParsingError("unexpected programId in compute unit message")))
      case Invoke(_, _) => Enter(k, c, |open| + 1)
      case InvokeResult(_, _) => Close(k, c)
  }

  // ---------- The walk ----------

  predicate Within(k: Course, c: Cursor) {
    |c.hs| <= |k.list| && c.q <= |k.msgs|
  }

  lemma {:induction false} EatMovesOn(k: Course, hs: seq<nat>, depth: nat, quiet: bool)
    requires |hs| <= |k.list|
    ensures var m := Eat(k, hs, depth, quiet);
            m.At? ==> hs <= m.hs && |m.hs| <= |k.list| && Stops(k.list, |m.hs|, depth, quiet)
    decreases |k.list| - |hs|
  {
    if |hs| < |k.list| && !Stops(k.list, |hs|, depth, quiet) {
      EatMovesOn(k, hs + [HeightBelow(k.list[|hs|], depth, quiet)], depth, quiet);
    }
  }

  lemma {:induction false} FinishMovesOn(k: Course, hs: seq<nat>)
    requires |hs| <= |k.list|
    ensures var m := Finish(k, hs); m.At? ==> hs <= m.hs && |m.hs| == |k.list|
    decreases |k.list| - |hs|
  {
    if |hs| < |k.list| {
      FinishMovesOn(k, hs + [HeightOr2(k.list[|hs|])]);
    }
  }

  lemma MovesForward(k: Course, c: Cursor)
    requires Within(k, c) && Move(k, c).On?
    ensures var c' := Move(k, c).c;
            && Within(k, c') && c.hs <= c'.hs && c.q <= c'.q && |c'.hs| + c'.q > |c.hs| + c.q && c'.hs != []
  {
    hide Eat, Obstacle, Finish;
    if c.hs != [] && OpenAt(k.msgs, c.q) != [] && c.q < |k.msgs| && k.msgs[c.q].InvokeResult? {
      EatMovesOn(k, c.hs, |OpenAt(k.msgs, c.q)|, !Truthy(k.msgs[c.q].error));
    }
  }

  function Walk(k: Course, c: Cursor): Fate
    requires Within(k, c)
    decreases |k.list| + |k.msgs| - |c.hs| - c.q
  {
    match Move(k, c)
    case Over(fate) => fate
    case On(next) =>
      MovesForward(k, c);
      Walk(k, next)
  }

  /** The cursors passed on the way. */
  ghost predicate IsPath(k: Course, path: seq<Cursor>) {
    path != [] && forall i, j {:trigger path[i], path[j]} :: 0 <= i && j == i + 1 && j < |path| ==> Move(k, path[i]) == On(path[j])
  }

  /** An inner call begins in the log when all instructions have been emitted. */
  predicate Starves(k: Course, c: Cursor) {
    && |c.hs| >= |k.list| && OpenAt(k.msgs, c.q) != []
    && c.q < |k.msgs| && k.msgs[c.q].Invoke?
  }

  ghost predicate LeadsToStarving(k: Course, c: Cursor, path: seq<Cursor>) {
    IsPath(k, path) && path[0] == c && Starves(k, path[|path| - 1])
  }

  lemma {:induction false} ObstacleIsNoLack(k: Course, hs: seq<nat>, depth: nat, quiet: bool)
    requires |hs| <= |k.list|
    ensures Eat(k, hs, depth, quiet) != Lost(AssertionError(NoInstruction))
    ensures Finish(k, hs) != Lost(AssertionError(NoInstruction))
    decreases |k.list| - |hs|
  {
    if |hs| < |k.list| {
      ObstacleIsNoLack(k, hs + [HeightBelow(k.list[|hs|], depth, quiet)], depth, quiet);
      ObstacleIsNoLack(k, hs + [HeightOr2(k.list[|hs|])], depth, quiet);
    }
  }

  /** The guard of the assertion, in a single step. */
  lemma StarvesHere(k: Course, c: Cursor)
    requires Within(k, c) && k.list != []
    ensures Move(k, c) == Over(Stuck(AssertionError(NoInstruction))) <==> Starves(k, c)
  {
    hide Eat, Finish, HeightFits, TransactionContext.Knows;
    ObstacleIsNoLack(k, c.hs, |OpenAt(k.msgs, c.q)|, true);
    ObstacleIsNoLack(k, c.hs, |OpenAt(k.msgs, c.q)|, false);
  }

  /** A walk runs out of instructions exactly when it comes to such a place. */
  lemma {:induction false} StarvesIff(k: Course, c: Cursor)
    requires Within(k, c) && k.list != []
    ensures Walk(k, c) == Stuck(AssertionError(NoInstruction)) <==> exists path :: LeadsToStarving(k, c, path)
    decreases |k.list| + |k.msgs| - |c.hs| - c.q
  {
    hide Move, Starves;
    StarvesHere(k, c);
    if Starves(k, c) {
      assert LeadsToStarving(k, c, [c]);
    }
    if Move(k, c).On? {
      var next := Move(k, c).c;
      MovesForward(k, c);
      StarvesIff(k, next);
      if path :| LeadsToStarving(k, next, path) {
        assert LeadsToStarving(k, c, [c] + path);
      }
    }
    if path :| LeadsToStarving(k, c, path) {
      if |path| == 1 {
        assert Starves(k, c);
      } else {
        assert Move(k, path[0]) == On(path[1]);
        assert LeadsToStarving(k, path[1], path[1..]);
      }
    }
  }

  // ---------- Where a walk ends ----------

  lemma {:induction false} WalkEnds(k: Course, c: Cursor)
    requires Within(k, c)
    ensures Walk(k, c).Through? ==>
              var end := Walk(k, c); c.q <= end.q <= |k.msgs| && c.hs <= end.hs && |end.hs| == |k.list|
    decreases |k.list| + |k.msgs| - |c.hs| - c.q
  {
    hide OpenAt, Eat, Finish, Obstacle;
    FinishMovesOn(k, c.hs);
    if Move(k, c).On? {
      MovesForward(k, c);
      WalkEnds(k, Move(k, c).c);
    }
  }

  /** No bracket stays open unless the log is cut. */
  lemma {:induction false} WalkEndsClosed(k: Course, c: Cursor)
    requires Within(k, c) && Walk(k, c).Through?
    requires c.hs == [] ==> OpenAt(k.msgs, c.q) == [] || Truncated(k.msgs, c.q)
    ensures OpenAt(k.msgs, Walk(k, c).q) == [] || Truncated(k.msgs, Walk(k, c).q)
    decreases |k.list| + |k.msgs| - |c.hs| - c.q
  {
    hide OpenAt, Eat, Finish, Obstacle;
    if Move(k, c).On? {
      MovesForward(k, c);
      WalkEndsClosed(k, Move(k, c).c);
    }
  }

  /** What becomes of group `i`, with `q` messages read; beyond the failed instruction there must be no inner calls. */
  function CourseFate(k: Course, i: nat, q: nat): (fate: Fate)
    requires k.list != [] && q <= |k.msgs|
    ensures fate.Through? ==> q <= fate.q <= |k.msgs| && |fate.hs| == |k.list|
  {
    if i <= k.tx.erroredInstruction then
      WalkEnds(k, Cursor(q, []));
      Walk(k, Cursor(q, []))
    else if |k.list| != 1 then Stuck(Complaint(k.tx, k.list[0], "failed instructions should not have inner calls"))
    else
      match Obstacle(k, 0, 1, 1)
      case Some(failure) => Stuck(failure)
      case None => Through(q, [1])
  }

  // ---------- What never fails ----------

  /** The latest depth is no less than its given height, and no less than the number of open brackets. */
  predicate Deep(k: Course, c: Cursor) {
    && Within(k, c) && DepthOf(c.hs) >= 1 && (c.hs != [] ==> DepthOf(c.hs) >= HeightOr2(k.list[|c.hs| - 1]))
    && DepthOf(c.hs) >= |OpenAt(k.msgs, c.q)|
  }

  /** In a well-nested group a call that is not at the top level always fits, at its height or where it is taken to be. */
  lemma NestedHeightFits(list: seq<RpcInstruction>, p: nat, h: nat, d: nat)
    requires WellNested(list) && p < |list| && (p > 0 ==> d >= HeightOr2(list[p - 1]))
    requires (list[p].stackHeight.Some? ==> list[p].stackHeight.value == h) && (p == 0 <==> h == 1)
    requires p > 0 && list[p].stackHeight == None ==> 2 <= h <= d + 1
    ensures d >= 1 ==> HeightFits(list, p, h, d)
    ensures h >= HeightOr2(list[p])
  {
    if p > 0 {
      assert NestedAt(list, p);
    }
  }

  lemma {:induction false} EatNeverDeep(k: Course, hs: seq<nat>, depth: nat, quiet: bool)
    requires WellNested(k.list) && 0 < |hs| <= |k.list| && DepthOf(hs) >= HeightOr2(k.list[|hs| - 1]) && DepthOf(hs) >= depth >= 1
    ensures var m := Eat(k, hs, depth, quiet);
            && m != Lost(AssertionError(BadHeight))
            && (m.At? ==> 0 < |m.hs| <= |k.list| && DepthOf(m.hs) >= depth && DepthOf(m.hs) >= HeightOr2(k.list[|m.hs| - 1]))
    decreases |k.list| - |hs|
  {
    if |hs| < |k.list| && !Stops(k.list, |hs|, depth, quiet) {
      var h := HeightBelow(k.list[|hs|], depth, quiet);
      assert NestedAt(k.list, |hs|);
      NestedHeightFits(k.list, |hs|, h, DepthOf(hs));
      EatNeverDeep(k, hs + [h], depth, quiet);
    }
  }

  lemma {:induction false} FinishNeverDeep(k: Course, hs: seq<nat>)
    requires WellNested(k.list) && |hs| <= |k.list| && DepthOf(hs) >= 1 && (hs != [] ==> DepthOf(hs) >= HeightOr2(k.list[|hs| - 1]))
    ensures Finish(k, hs) != Lost(AssertionError(BadHeight))
    decreases |k.list| - |hs|
  {
    if |hs| < |k.list| {
      if hs != [] { assert NestedAt(k.list, |hs|); }
      NestedHeightFits(k.list, |hs|, HeightOr2(k.list[|hs|]), DepthOf(hs));
      FinishNeverDeep(k, hs + [HeightOr2(k.list[|hs|])]);
    }
  }

  /** How many brackets a message leaves open at most. */
  lemma OpenMoves(msgs: seq<Message>, q: nat)
    requires q < |msgs|
    ensures match msgs[q]
            case Invoke(_, height) => |OpenAt(msgs, q + 1)| <= height
            case InvokeResult(_, _) => |OpenAt(msgs, q + 1)| <= |OpenAt(msgs, q)|
            case _ => |OpenAt(msgs, q + 1)| <= |OpenAt(msgs, q)|
  {
    ScanNext(msgs, q);
  }

  lemma {:induction false} TextsOpenNothing(msgs: seq<Message>, q: nat)
    requires q <= |msgs|
    ensures |OpenAt(msgs, AfterTexts(msgs, q))| <= |OpenAt(msgs, q)|
    decreases |msgs| - q
  {
    hide OpenAt;
    if q < |msgs| && (msgs[q].Text? || msgs[q].ComputeUnits?) {
      OpenMoves(msgs, q);
      TextsOpenNothing(msgs, q + 1);
    }
  }

  lemma EnterNeverDeep(k: Course, c: Cursor, h: nat)
    requires WellNested(k.list) && Deep(k, c) && (c.hs == [] <==> h == 1) && 1 <= h <= DepthOf(c.hs) + 1
    requires (c.hs == [] && OpenAt(k.msgs, c.q) == []) || (c.q < |k.msgs| && k.msgs[c.q].Invoke? && h >= |OpenAt(k.msgs, c.q)|)
    ensures var next := Enter(k, c, h);
            next != Over(Stuck(AssertionError(BadHeight))) && (next.On? ==> Deep(k, next.c) && next.c.hs != [])
  {
    hide OpenAt, WellNested, Finish, Stops, TransactionContext.Knows;
    var p := |c.hs|;
    if p < |k.list| && (k.list[p].stackHeight == None || k.list[p].stackHeight.value == h) {
      NestedHeightFits(k.list, p, h, DepthOf(c.hs));
      FinishNeverDeep(k, c.hs);
      TextsOpenNothing(k.msgs, c.q);
      if c.q < |k.msgs| { OpenMoves(k.msgs, c.q); }
    }
  }

  lemma CloseNeverDeep(k: Course, c: Cursor)
    requires WellNested(k.list) && Deep(k, c) && c.hs != []
    requires c.q < |k.msgs| && k.msgs[c.q].InvokeResult? && OpenAt(k.msgs, c.q) != []
    ensures var next := Close(k, c);
            next != Over(Stuck(AssertionError(BadHeight))) && (next.On? ==> Deep(k, next.c) && next.c.hs != [])
  {
    hide OpenAt, WellNested, Stops;
    EatNeverDeep(k, c.hs, |OpenAt(k.msgs, c.q)|, !Truthy(k.msgs[c.q].error));
    OpenMoves(k.msgs, c.q);
  }

  /** Well-nested groups never fail for a height, given or missing, whatever the log says. */
  lemma {:induction false} NestedNeverDeep(k: Course, c: Cursor)
    requires WellNested(k.list) && Deep(k, c) && (c.hs == [] ==> OpenAt(k.msgs, c.q) == [])
    ensures Walk(k, c) != Stuck(AssertionError(BadHeight))
    decreases |k.list| + |k.msgs| - |c.hs| - c.q
  {
    hide OpenAt, WellNested, Enter, Close, Finish;
    FinishNeverDeep(k, c.hs);
    if c.hs == [] {
      EnterNeverDeep(k, c, 1);
    } else if OpenAt(k.msgs, c.q) != [] && c.q < |k.msgs| {
      OpenMoves(k.msgs, c.q);
      match k.msgs[c.q]
      case Invoke(_, _) => EnterNeverDeep(k, c, |OpenAt(k.msgs, c.q)| + 1);
      case InvokeResult(_, _) => CloseNeverDeep(k, c);
      case _ =>
    }
    if Move(k, c).On? {
      MovesForward(k, c);
      NestedNeverDeep(k, Move(k, c).c);
    }
  }

  ghost predicate AllKnown(k: Course) {
    forall src <- k.list :: k.tx.Knows(src)
  }

  lemma {:induction false} KnownNeverUnknown(k: Course, hs: seq<nat>, depth: nat, quiet: bool)
    requires AllKnown(k) && |hs| <= |k.list|
    ensures Eat(k, hs, depth, quiet) != Lost(AssertionError(UnknownAccount))
    ensures Finish(k, hs) != Lost(AssertionError(UnknownAccount))
    decreases |k.list| - |hs|
  {
    if |hs| < |k.list| {
      KnownNeverUnknown(k, hs + [HeightBelow(k.list[|hs|], depth, quiet)], depth, quiet);
      KnownNeverUnknown(k, hs + [HeightOr2(k.list[|hs|])], depth, quiet);
    }
  }

  /** With all accounts known none is missed. */
  lemma {:induction false} KnownIsEnough(k: Course, c: Cursor)
    requires AllKnown(k) && Within(k, c)
    ensures Walk(k, c) != Stuck(AssertionError(UnknownAccount))
    decreases |k.list| + |k.msgs| - |c.hs| - c.q
  {
    hide OpenAt, Eat, Finish, HeightFits;
    KnownNeverUnknown(k, c.hs, |OpenAt(k.msgs, c.q)|, true);
    KnownNeverUnknown(k, c.hs, |OpenAt(k.msgs, c.q)|, false);
    if |c.hs| < |k.list| { assert k.list[|c.hs|] in k.list; }
    if Move(k, c).On? {
      MovesForward(k, c);
      KnownIsEnough(k, Move(k, c).c);
    }
  }

  // ---------- Without a log ----------

  /** The given heights, and 2 where none is given. */
  function GivenHeights(list: seq<RpcInstruction>): (hs: seq<nat>)
    ensures |hs| == |list| && forall i :: 0 <= i < |list| ==> hs[i] == HeightOr2(list[i])
  {
    seq(|list|, i requires 0 <= i < |list| => HeightOr2(list[i]))
  }

  /** Instruction `j`, put at its given height after one at depth `d`, goes on with the tree. */
  ghost predicate GoesOn(k: Course, j: nat, d: nat)
    requires j < |k.list|
  {
    k.tx.Knows(k.list[j]) && HeightFits(k.list, j, HeightOr2(k.list[j]), d)
  }

  /** ... after its predecessor. */
  ghost predicate GoesOnFrom(k: Course, j: nat)
    requires 0 < j < |k.list|
  {
    GoesOn(k, j, HeightOr2(k.list[j - 1]))
  }

  /** The rest of the group, from `p` on, goes on with a tree after an instruction at depth `d`. */
  ghost predicate RestIsNested(k: Course, p: nat, d: nat) {
    (p < |k.list| ==> GoesOn(k, p, d)) && forall j :: p < j < |k.list| ==> GoesOnFrom(k, j)
  }

  lemma RestStep(k: Course, p: nat, d: nat)
    requires p <= |k.list|
    ensures RestIsNested(k, p, d)
            <==> p == |k.list| || (GoesOn(k, p, d) && RestIsNested(k, p + 1, HeightOr2(k.list[p])))
  {
    hide GoesOn;
    if p + 1 < |k.list| && RestIsNested(k, p, d) {
      assert GoesOnFrom(k, p + 1);
    }
    if p < |k.list| && GoesOn(k, p, d) && RestIsNested(k, p + 1, HeightOr2(k.list[p])) {
      forall j | p < j < |k.list| ensures GoesOnFrom(k, j) {
        if j == p + 1 { assert GoesOn(k, p + 1, HeightOr2(k.list[p])); }
      }
    }
  }

  lemma OneMoreHeight(hs: seq<nat>, list: seq<RpcInstruction>, p: nat)
    requires p <= |list|
    ensures hs + GivenHeights(list[p..])
         == if p == |list| then hs else hs + [HeightOr2(list[p])] + GivenHeights(list[p + 1..])
  {
    if p < |list| {
      assert GivenHeights(list[p..]) == [HeightOr2(list[p])] + GivenHeights(list[p + 1..]);
    }
  }

  /** Emitting all that is left succeeds exactly when it goes on describing a tree, and takes the given heights. */
  lemma {:induction false} FinishIff(k: Course, hs: seq<nat>)
    requires |hs| <= |k.list|
    ensures Finish(k, hs).At? <==> RestIsNested(k, |hs|, DepthOf(hs))
    ensures Finish(k, hs).At? ==> Finish(k, hs).hs == hs + GivenHeights(k.list[|hs|..])
    decreases |k.list| - |hs|
  {
    hide HeightFits, TransactionContext.Knows, RestIsNested, GivenHeights;
    var p := |hs|;
    OneMoreHeight(hs, k.list, p);
    RestStep(k, p, DepthOf(hs));
    if p < |k.list| {
      FinishIff(k, hs + [HeightOr2(k.list[p])]);
    }
  }

  /** From the start this is the whole group. */
  lemma NestedFromStart(k: Course)
    requires k.list != [] && k.list[0].stackHeight == Some(1)
    ensures RestIsNested(k, 0, 1) <==> WellNested(k.list) && AllKnown(k)
  {
    hide TransactionContext.Knows;
    if RestIsNested(k, 0, 1) {
      forall j | 0 < j < |k.list| ensures NestedAt(k.list, j) {
        assert GoesOnFrom(k, j);
      }
      forall src <- k.list ensures k.tx.Knows(src) {
        var j :| 0 <= j < |k.list| && k.list[j] == src;
        assert j > 0 ==> GoesOnFrom(k, j);
      }
    }
    if WellNested(k.list) && AllKnown(k) {
      assert k.list[0] in k.list;
      forall j | 0 < j < |k.list| ensures GoesOnFrom(k, j) {
        assert NestedAt(k.list, j) && k.list[j] in k.list;
      }
    }
  }

  /** A cut log leaves a group through exactly when its heights describe a tree and its accounts are known. */
  lemma CutLogIff(k: Course, q: nat)
    requires q <= |k.msgs| && Truncated(k.msgs, q) && k.list != [] && k.list[0].stackHeight == Some(1)
    ensures Walk(k, Cursor(q, [])).Through? <==> WellNested(k.list) && AllKnown(k)
    ensures Walk(k, Cursor(q, [])).Through? ==> Walk(k, Cursor(q, [])) == Through(q, GivenHeights(k.list))
  {
    hide Walk, Move, Finish, RestIsNested, WellNested, AllKnown, GivenHeights;
    CutLogFinishes(k, q);
    WalkOn(k, Cursor(q, []));
    FinishIff(k, []);
    NestedFromStart(k);
    assert k.list[0..] == k.list && [] + GivenHeights(k.list) == GivenHeights(k.list);
  }

  lemma CutLogFinishes(k: Course, q: nat)
    requires q <= |k.msgs| && Truncated(k.msgs, q) && k.list != [] && k.list[0].stackHeight == Some(1)
    ensures Move(k, Cursor(q, [])).Over?
    ensures var fate := Move(k, Cursor(q, [])).fate;
            if AllKnown(k) then fate == (match Finish(k, []) case At(hs) => Through(q, hs) case Lost(failure) => Stuck(failure))
            else fate.Through? ==> Finish(k, []) == At(fate.hs) && fate.q == q
  {
    hide OpenAt, Finish;
    var src := k.list[0];
    assert src in k.list;
    if src.programIdIndex >= |k.tx.accounts| {
      assert !k.tx.Knows(src);
    }
  }

  lemma CutLogEndsAtOnce(k: Course, q: nat)
    requires q <= |k.msgs| && Truncated(k.msgs, q) && k.list != []
    ensures Move(k, Cursor(q, [])).Over? && !Starves(k, Cursor(q, []))
  {
  }

  // ---------- With a complete log ----------

  /** Inside the running call at `depth` the walk has got to `c`. */
  ghost predicate Inside(k: Course, c: Cursor, depth: nat, program: string) {
    && Within(k, c) && c.hs != [] && DepthOf(c.hs) >= depth >= 1 && c.q <= |k.msgs| && ScanTo(k.msgs, c.q).Brackets?
    && |OpenAt(k.msgs, c.q)| == depth && RunningAt(k.msgs, c.q) == program
  }

  lemma LineWalks(k: Course, c: Cursor, depth: nat, program: string)
    requires Inside(k, c, depth, program) && c.q < |k.msgs|
    requires k.msgs[c.q].Text? || (k.msgs[c.q].ComputeUnits? && k.msgs[c.q].programId == program)
    ensures Walk(k, c) == Walk(k, c.(q := c.q + 1)) && Inside(k, c.(q := c.q + 1), depth, program)
    ensures OpenAt(k.msgs, c.q + 1) == OpenAt(k.msgs, c.q)
  {
    hide Enter, Close, Finished, Walk, ScanTo, OpenAt;
    LineKeepsOpen(k.msgs, c.q);
    WalkOn(k, c);
  }

  lemma LineKeepsOpen(msgs: seq<Message>, q: nat)
    requires q < |msgs| && ScanTo(msgs, q).Brackets? && OpenAt(msgs, q) != []
    requires msgs[q].Text? || (msgs[q].ComputeUnits? && msgs[q].programId == RunningAt(msgs, q))
    ensures ScanTo(msgs, q + 1).Brackets? && OpenAt(msgs, q + 1) == OpenAt(msgs, q)
  {
    ScanNext(msgs, q);
  }

  lemma CallWalks(k: Course, c: Cursor, depth: nat, program: string)
    requires Inside(k, c, depth, program) && c.q < |k.msgs| && |c.hs| < |k.list|
    requires k.tx.Knows(k.list[|c.hs|]) && k.list[|c.hs|].stackHeight in {Some(depth + 1), None}
    requires k.msgs[c.q] == Invoke(k.tx.accounts[k.list[|c.hs|].programIdIndex], depth + 1)
    ensures var c' := Cursor(c.q + 1, c.hs + [depth + 1]);
            && Walk(k, c) == Walk(k, c') && OpenAt(k.msgs, c.q + 1) == OpenAt(k.msgs, c.q) + [c.q]
            && Inside(k, c', depth + 1, k.tx.accounts[k.list[|c.hs|].programIdIndex])
  {
    hide Walk, Close, Finished, ScanTo;
    InvokeOpens(k.msgs, c.q);
    WalkOn(k, c);
  }

  lemma InvokeOpens(msgs: seq<Message>, q: nat)
    requires q < |msgs| && ScanTo(msgs, q).Brackets? && msgs[q].Invoke? && msgs[q].stackHeight == |OpenAt(msgs, q)| + 1
    ensures ScanTo(msgs, q + 1).Brackets? && OpenAt(msgs, q + 1) == OpenAt(msgs, q) + [q]
  {
    ScanNext(msgs, q);
  }

  lemma ResultCloses(msgs: seq<Message>, q: nat)
    requires q < |msgs| && ScanTo(msgs, q).Brackets? && msgs[q].InvokeResult? && OpenAt(msgs, q) != []
    requires msgs[q].programId == RunningAt(msgs, q)
    ensures ScanTo(msgs, q + 1).Brackets? && OpenAt(msgs, q + 1) == OpenAt(msgs, q)[..|OpenAt(msgs, q)| - 1]
  {
    ScanNext(msgs, q);
  }

  lemma WalkOn(k: Course, c: Cursor)
    requires Within(k, c)
    ensures Move(k, c).On? ==> Within(k, Move(k, c).c) && Walk(k, c) == Walk(k, Move(k, c).c)
    ensures Move(k, c).Over? ==> Walk(k, c) == Move(k, c).fate
  {
    hide Move;
    if Move(k, c).On? { MovesForward(k, c); }
  }

  lemma ResultWalks(k: Course, c: Cursor, depth: nat, program: string, quiet: bool)
    requires Inside(k, c, depth, program) && c.q < |k.msgs|
    requires k.msgs[c.q].InvokeResult? && k.msgs[c.q].programId == program
    requires Stops(k.list, |c.hs|, depth, quiet) && (quiet ==> !Truthy(k.msgs[c.q].error))
    ensures Walk(k, c) == Walk(k, c.(q := c.q + 1)) && ScanTo(k.msgs, c.q + 1).Brackets?
    ensures OpenAt(k.msgs, c.q + 1) == OpenAt(k.msgs, c.q)[..depth - 1]
  {
    hide Enter, Finished, Obstacle, Walk, ScanTo;
    ResultCloses(k.msgs, c.q);
    WalkOn(k, c);
  }

  /** Back from a call that was entered at `c`. */
  lemma BackInside(k: Course, c: Cursor, after: Cursor, depth: nat, program: string)
    requires Inside(k, c, depth, program) && Within(k, after) && after.hs != [] && DepthOf(after.hs) >= depth
    requires ScanTo(k.msgs, after.q).Brackets? && OpenAt(k.msgs, after.q) == OpenAt(k.msgs, c.q)
    ensures Inside(k, after, depth, program)
  {
    hide ScanTo, OpenAt;
  }

  lemma InsideMeans(k: Course, c: Cursor, depth: nat, program: string)
    requires Inside(k, c, depth, program)
    ensures depth >= 1 && Within(k, c) && c.hs != [] && DepthOf(c.hs) >= depth && |OpenAt(k.msgs, c.q)| == depth
  {
  }

  /** The messages and calls of `t` are walked through, one instruction for each call. */
  lemma {:induction false} TreeWalks(k: Course, t: LogTree, depth: nat, quiet: bool, program: string, c: Cursor) returns (end: Cursor)
    requires Inside(k, c, depth, program) && Ahead(k.tx, k.list, k.msgs, t, depth, quiet, program, |c.hs|, c.q)
    ensures |end.hs| == |c.hs| + CallCount(t) && end.q == c.q + |Print(t, depth)| && c.hs <= end.hs
    ensures Inside(k, end, depth, program) && Walk(k, c) == Walk(k, end) && OpenAt(k.msgs, end.q) == OpenAt(k.msgs, c.q)
    decreases t
  {
    hide Walk, Inside, Ahead, Print, CallCount, ScanTo, OpenAt, Stops, TransactionContext.Knows;
    var p := |c.hs|;
    AheadStops(k.tx, k.list, k.msgs, t, depth, quiet, program, p, c.q);
    InsideMeans(k, c, depth, program);
    match t
    case End => end := c;
    case Line(_, rest) =>
      AheadOfLine(k.tx, k.list, k.msgs, t, depth, quiet, program, p, c.q);
      LineWalks(k, c, depth, program);
      end := TreeWalks(k, rest, depth, quiet, program, c.(q := c.q + 1));
    case Call(programId, body, _, next) =>
      AheadOfCall(k.tx, k.list, k.msgs, t, depth, quiet, program, p, c.q);
      CallWalks(k, c, depth, program);
      end := TreeWalks(k, body, depth + 1, quiet, programId, Cursor(c.q + 1, c.hs + [depth + 1]));
      AheadStops(k.tx, k.list, k.msgs, body, depth + 1, quiet, programId, p + 1, c.q + 1);
      ResultWalks(k, end, depth + 1, programId, quiet);
      InsideMeans(k, end, depth + 1, programId);
      BackInside(k, c, end.(q := end.q + 1), depth, program);
      end := TreeWalks(k, next, depth, quiet, program, end.(q := end.q + 1));
  }
}
