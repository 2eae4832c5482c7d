/**
 What a log has to be like for the traversal to go by it, said of instructions and messages alone: calls may be
 left out before a call that the log mentions, and after the last one of a finished call; the log may be cut.
 */
module LogStories {
  import opened Wrappers
  import opened LogBrackets
  import opened Instructions
  import opened CompleteLogs
  import opened LogWalk

  /** How the messages of a running call and its inner calls belong together. */
  datatype Story =
    | Quiet                                                     // nothing more; the result of the call comes next
    | Says(rest: Story)                                         // a text, or compute units
    | Runs(before: nat, body: Story, left: nat, next: Story)    // an inner call, with others not mentioned around it
    | Cut                                                       // the log is cut here
    | CutIn(before: nat, body: Story)                           // ... inside of an inner call

  predicate IsCut(t: Story) {
    match t
    case Quiet => false
    case Says(rest) => IsCut(rest)
    case Runs(_, _, _, next) => IsCut(next)
    case Cut => true
    case CutIn(_, _) => true
  }

  /** The messages of the story. */
  function Size(t: Story): nat {
    match t
    case Quiet => 0
    case Says(rest) => 1 + Size(rest)
    case Runs(_, body, _, next) => 1 + Size(body) + 1 + Size(next)
    case Cut => 0
    case CutIn(_, body) => 1 + Size(body)
  }

  /** The instructions of the story, up to a cut. */
  function Count(t: Story): nat {
    match t
    case Quiet => 0
    case Says(rest) => Count(rest)
    case Runs(before, body, left, next) => before + 1 + Count(body) + left + Count(next)
    case Cut => 0
    case CutIn(before, body) => before + 1 + Count(body)
  }

  // ---------- Instructions and depths ----------

  /** The first instruction is at the top level, each other one at most one level below its predecessor. */
  ghost predicate IsTree(hs: seq<nat>) {
    forall j :: 0 <= j < |hs| ==> FitsTree(hs, j)
  }

  ghost predicate FitsTree(hs: seq<nat>, j: nat)
    requires j < |hs|
  {
    if j == 0 then hs[0] == 1 else 2 <= hs[j] <= hs[j - 1] + 1
  }

  /** Instruction `j` is known, and stands at depth `h`, as its height says if it is given. */
  ghost predicate Stands(k: Course, hs: seq<nat>, j: nat, h: nat) {
    && j < |hs| <= |k.list| && hs[j] == h && k.list[j].stackHeight in {None, Some(h)} && k.tx.Knows(k.list[j])
  }

  function ProgramOf(k: Course, j: nat): string {
    if j < |k.list| && k.list[j].programIdIndex < |k.tx.accounts| then k.tx.accounts[k.list[j].programIdIndex] else ""
  }

  /** `n` calls of other programs stand at depth `h`. */
  ghost predicate LeftOut(k: Course, hs: seq<nat>, p: nat, n: nat, h: nat, program: string) {
    forall j :: p <= j < p + n ==> Stands(k, hs, j, h) && ProgramOf(k, j) != program
  }

  /** An instruction that follows a finished call at `level` belongs to it; without a height if there is no choice. */
  predicate LiesBelow(src: RpcInstruction, level: nat, failed: bool) {
    match src.stackHeight
    case Some(height) => height > level
    case None => failed || level == 1
  }

  ghost predicate Below(k: Course, hs: seq<nat>, j: nat, level: nat, failed: bool) {
    && j < |hs| <= |k.list| && LiesBelow(k.list[j], level, failed)
    && hs[j] == k.list[j].stackHeight.GetOr(level + 1) && k.tx.Knows(k.list[j])
  }

  /** Exactly the `n` instructions from `p` on are left below a finished call at `level`. */
  ghost predicate LeftBelow(k: Course, hs: seq<nat>, p: nat, n: nat, level: nat, failed: bool) {
    && p + n <= |k.list| && (forall j :: p <= j < p + n ==> Below(k, hs, j, level, failed))
    && (p + n < |k.list| ==> !LiesBelow(k.list[p + n], level, failed))
  }

  /** All instructions from `p` on stand at their given heights, or right below the top level. */
  ghost predicate RestGiven(k: Course, hs: seq<nat>, p: nat) {
    |hs| == |k.list| && forall j :: p <= j < |k.list| ==> Stands(k, hs, j, k.list[j].stackHeight.GetOr(2))
  }

  // ---------- What a story tells ----------

  ghost predicate IsInvoke(k: Course, q: nat, program: string, h: nat) {
    q < |k.msgs| && k.msgs[q] == Invoke(program, h)
  }

  ghost predicate IsResult(k: Course, q: nat, program: string) {
    q < |k.msgs| && k.msgs[q].InvokeResult? && k.msgs[q].programId == program
  }

  ghost predicate IsSaid(k: Course, q: nat, program: string) {
    q < |k.msgs| && (k.msgs[q].Text? || (k.msgs[q].ComputeUnits? && k.msgs[q].programId == program))
  }

  /** After `before` calls that the log leaves out comes one whose `invoke` is next. */
  ghost predicate Enters(k: Course, hs: seq<nat>, before: nat, h: nat, p: nat, q: nat) {
    && LeftOut(k, hs, p, before, h, ProgramOf(k, p + before)) && Stands(k, hs, p + before, h)
    && IsInvoke(k, q, ProgramOf(k, p + before), h)
  }

  /** The result of the call is next, and exactly `left` calls that the log leaves out belong to it. */
  ghost predicate Leaves(k: Course, hs: seq<nat>, left: nat, h: nat, program: string, p: nat, q: nat) {
    IsResult(k, q, program) && LeftBelow(k, hs, p, left, h, k.msgs[q].error !in {None, Some("")})
  }

  /**
   From instruction `p` and message `q` on, list and log go on with the story, inside of a call of `program`
   at `depth`; `hs` are the depths of all instructions.
   */
  ghost predicate Tells(k: Course, hs: seq<nat>, t: Story, depth: nat, program: string, p: nat, q: nat)
    decreases t
  {
    && p + Count(t) <= |hs| <= |k.list| && q + Size(t) <= |k.msgs|
    && match t
       case Quiet => true
       case Says(rest) => IsSaid(k, q, program) && Tells(k, hs, rest, depth, program, p, q + 1)
       case Runs(before, body, left, next) =>
         var at := p + before;
         var inner, end, result := ProgramOf(k, at), at + 1 + Count(body), q + 1 + Size(body);
         && Enters(k, hs, before, depth + 1, p, q)
         && !IsCut(body) && Tells(k, hs, body, depth + 1, inner, at + 1, q + 1)
         && Leaves(k, hs, left, depth + 1, inner, end, result)
         && Tells(k, hs, next, depth, program, end + left, result + 1)
       case Cut => Truncated(k.msgs, q) && RestGiven(k, hs, p)
       case CutIn(before, body) =>
         && Enters(k, hs, before, depth + 1, p, q)
         && IsCut(body) && Tells(k, hs, body, depth + 1, ProgramOf(k, p + before), p + before + 1, q + 1)
  }

  // ---------- Single steps of the walk ----------

  lemma StopsMeans(list: seq<RpcInstruction>, p: nat, level: nat, quiet: bool)
    requires level >= 1
    ensures Stops(list, p, level, quiet) <==> p >= |list| || !LiesBelow(list[p], level, !quiet)
    ensures p < |list| && LiesBelow(list[p], level, !quiet) ==>
              HeightBelow(list[p], level, quiet) == list[p].stackHeight.GetOr(level + 1) > level
  {
  }

  /** The depths `hs` go on as a tree with `h`. */
  lemma TreeMore(hs: seq<nat>, h: nat)
    ensures IsTree(hs + [h]) <==> IsTree(hs) && if hs == [] then h == 1 else 2 <= h <= DepthOf(hs) + 1
  {
    var more := hs + [h];
    assert FitsTree(more, |hs|) <==> if hs == [] then h == 1 else 2 <= h <= DepthOf(hs) + 1;
    forall j | 0 <= j < |hs| ensures FitsTree(more, j) <==> FitsTree(hs, j) {
    }
  }

  lemma TreePrefix(hs: seq<nat>, n: nat)
    requires IsTree(hs) && n <= |hs|
    ensures IsTree(hs[..n])
  {
    forall j | 0 <= j < n ensures FitsTree(hs[..n], j) {
      assert FitsTree(hs, j);
    }
  }

  /** An instruction can be emitted at depth `h` when the tree goes on, its height says so, and it is known. */
  lemma NoObstacle(k: Course, hs: seq<nat>, h: nat)
    requires IsTree(hs) && |hs| < |k.list|
    ensures Obstacle(k, |hs|, h, DepthOf(hs)) == None
            <==> IsTree(hs + [h]) && k.list[|hs|].stackHeight in {None, Some(h)} && k.tx.Knows(k.list[|hs|])
  {
    hide IsTree, TransactionContext.Knows;
    TreeMore(hs, h);
  }

  // ---------- What is left below a finished call, and at the end ----------

  lemma LeftMore(k: Course, hs: seq<nat>, p: nat, n: nat, level: nat, failed: bool)
    requires p < |k.list|
    ensures n > 0 ==> (LeftBelow(k, hs, p, n, level, failed)
                       <==> Below(k, hs, p, level, failed) && LeftBelow(k, hs, p + 1, n - 1, level, failed))
    ensures n == 0 ==> (LeftBelow(k, hs, p, n, level, failed) <==> !LiesBelow(k.list[p], level, failed))
  {
    hide Below, LiesBelow;
  }

  /** Eating comes to `hs` when these are the depths of exactly what is left below. */
  lemma {:induction false} EatsLeft(k: Course, hs: seq<nat>, p: nat, n: nat, level: nat, quiet: bool)
    requires level >= 1 && p + n <= |hs| && IsTree(hs) && LeftBelow(k, hs, p, n, level, !quiet) && p > 0
    ensures Eat(k, hs[..p], level, quiet) == At(hs[..p + n])
    decreases n
  {
    hide TransactionContext.Knows, Obstacle, IsTree, LiesBelow;
    StopsMeans(k.list, p, level, quiet);
    TreePrefix(hs, p);
    if n > 0 {
      LeftMore(k, hs, p, n, level, !quiet);
      TreePrefix(hs, p + 1);
      NoObstacle(k, hs[..p], hs[p]);
      assert hs[..p] + [hs[p]] == hs[..p + 1];
      EatsLeft(k, hs, p + 1, n - 1, level, quiet);
    }
  }

  /** ... and it comes to nothing else. */
  lemma {:induction false} EatenIsLeft(k: Course, hs: seq<nat>, level: nat, quiet: bool)
    requires level >= 1 && 0 < |hs| <= |k.list| && IsTree(hs) && Eat(k, hs, level, quiet).At?
    ensures var end := Eat(k, hs, level, quiet).hs;
            && hs <= end && |end| <= |k.list| && IsTree(end)
            && LeftBelow(k, end, |hs|, |end| - |hs|, level, !quiet)
            && (end == hs || DepthOf(end) > level)
    decreases |k.list| - |hs|
  {
    hide TransactionContext.Knows, Obstacle, IsTree, LiesBelow;
    var p := |hs|;
    StopsMeans(k.list, p, level, quiet);
    EatMovesOn(k, hs, level, quiet);
    if p < |k.list| && !Stops(k.list, p, level, quiet) {
      var h := HeightBelow(k.list[p], level, quiet);
      NoObstacle(k, hs, h);
      EatenIsLeft(k, hs + [h], level, quiet);
      var end := Eat(k, hs, level, quiet).hs;
      assert end[p] == (hs + [h])[p] == h;
      LeftMore(k, end, p, |end| - p, level, !quiet);
    }
  }

  /** Finishing comes to `hs` exactly when all that is left stands at its given height. */
  lemma {:induction false} FinishesRest(k: Course, hs: seq<nat>, p: nat)
    requires p <= |hs| && IsTree(hs) && RestGiven(k, hs, p)
    ensures Finish(k, hs[..p]) == At(hs)
    decreases |hs| - p
  {
    hide TransactionContext.Knows, Obstacle, IsTree;
    TreePrefix(hs, p);
    if p < |hs| {
      assert Stands(k, hs, p, HeightOr2(k.list[p]));
      TreePrefix(hs, p + 1);
      NoObstacle(k, hs[..p], hs[p]);
      assert hs[..p] + [hs[p]] == hs[..p + 1];
      FinishesRest(k, hs, p + 1);
    } else {
      assert hs[..p] == hs;
    }
  }

  lemma {:induction false} FinishedIsRest(k: Course, hs: seq<nat>)
    requires |hs| <= |k.list| && IsTree(hs) && Finish(k, hs).At?
    ensures var end := Finish(k, hs).hs; hs <= end && IsTree(end) && RestGiven(k, end, |hs|)
    decreases |k.list| - |hs|
  {
    hide TransactionContext.Knows, Obstacle, IsTree;
    FinishMovesOn(k, hs);
    var p := |hs|;
    if p < |k.list| {
      var h := HeightOr2(k.list[p]);
      NoObstacle(k, hs, h);
      FinishedIsRest(k, hs + [h]);
      var end := Finish(k, hs).hs;
      assert end[p] == (hs + [h])[p] == h;
      assert Stands(k, end, p, h);
    }
  }

  // ---------- A story is walked through ----------

  lemma OneMore(hs: seq<nat>, p: nat)
    requires p < |hs|
    ensures hs[..p] + [hs[p]] == hs[..p + 1] && DepthOf(hs[..p + 1]) == hs[p]
  {
  }

  /** A call that the log does not mention is emitted, and the log stays where it is. */
  lemma LeftOutStep(k: Course, hs: seq<nat>, p: nat, depth: nat, program: string, q: nat)
    requires IsTree(hs) && Stands(k, hs, p, depth + 1) && Inside(k, Cursor(q, hs[..p]), depth, program)
    requires q < |k.msgs| && k.msgs[q].Invoke? && k.msgs[q].programId != ProgramOf(k, p)
    ensures Inside(k, Cursor(q, hs[..p + 1]), depth, program)
    ensures Walk(k, Cursor(q, hs[..p])) == Walk(k, Cursor(q, hs[..p + 1]))
  {
    hide IsTree, Walk, Obstacle, Close, Finished, ScanTo;
    var c := Cursor(q, hs[..p]);
    TreePrefix(hs, p);
    TreePrefix(hs, p + 1);
    NoObstacle(k, hs[..p], depth + 1);
    OneMore(hs, p);
    WalkOn(k, c);
  }

  lemma {:induction false} LeftOutWalks(k: Course, hs: seq<nat>, p: nat, n: nat, depth: nat, program: string, q: nat, inner: string)
    requires IsTree(hs) && p + n <= |hs| <= |k.list| && LeftOut(k, hs, p, n, depth + 1, inner)
    requires IsInvoke(k, q, inner, depth + 1) && Inside(k, Cursor(q, hs[..p]), depth, program)
    ensures Inside(k, Cursor(q, hs[..p + n]), depth, program)
    ensures Walk(k, Cursor(q, hs[..p])) == Walk(k, Cursor(q, hs[..p + n]))
    decreases n
  {
    hide IsTree, Walk, Inside, Stands;
    if n > 0 {
      assert Stands(k, hs, p, depth + 1);
      LeftOutStep(k, hs, p, depth, program, q);
      LeftOutWalks(k, hs, p + 1, n - 1, depth, program, q, inner);
    }
  }

  /** The call the log mentions. */
  lemma MentionedWalks(k: Course, hs: seq<nat>, p: nat, depth: nat, program: string, q: nat)
    requires IsTree(hs) && Stands(k, hs, p, depth + 1) && Inside(k, Cursor(q, hs[..p]), depth, program)
    requires IsInvoke(k, q, ProgramOf(k, p), depth + 1)
    ensures Inside(k, Cursor(q + 1, hs[..p + 1]), depth + 1, ProgramOf(k, p))
    ensures Walk(k, Cursor(q, hs[..p])) == Walk(k, Cursor(q + 1, hs[..p + 1]))
    ensures OpenAt(k.msgs, q + 1) == OpenAt(k.msgs, q) + [q]
  {
    hide IsTree, Walk, ScanTo, OpenAt, RunningAt;
    OneMore(hs, p);
    InsideMeans(k, Cursor(q, hs[..p]), depth, program);
    CallWalks(k, Cursor(q, hs[..p]), depth, program);
  }

  /** The result of a call, and the inner calls left below it. */
  lemma ResultWalksOn(k: Course, c: Cursor, depth: nat, program: string, end: seq<nat>)
    requires Inside(k, c, depth, program) && IsResult(k, c.q, program)
    requires Eat(k, c.hs, depth, !Truthy(k.msgs[c.q].error)) == At(end)
    ensures Within(k, Cursor(c.q + 1, end)) && c.hs <= end && Walk(k, c) == Walk(k, Cursor(c.q + 1, end))
    ensures ScanTo(k.msgs, c.q + 1).Brackets? && OpenAt(k.msgs, c.q + 1) == OpenAt(k.msgs, c.q)[..depth - 1]
  {
    hide Enter, Finished, Obstacle, Walk, ScanTo, Eat;
    ResultCloses(k.msgs, c.q);
    EatMovesOn(k, c.hs, depth, !Truthy(k.msgs[c.q].error));
    WalkOn(k, c);
  }

  /** With the log cut, what is left of the group is emitted. */
  lemma CutWalks(k: Course, c: Cursor, depth: nat, program: string)
    requires Inside(k, c, depth, program) && Truncated(k.msgs, c.q)
    ensures Walk(k, c) == match Finish(k, c.hs) case At(hs) => Through(c.q, hs) case Lost(failure) => Stuck(failure)
  {
    hide Enter, Close, Finish, ScanTo;
  }

  /** Where a call begins in the middle of a running one. */
  ghost predicate Returns(k: Course, c: Cursor, d: Cursor, depth: nat, program: string) {
    && Inside(k, d, depth, program) && Within(k, c) && Walk(k, c) == Walk(k, d) && OpenAt(k.msgs, d.q) == OpenAt(k.msgs, c.q)
  }

  lemma ReturnsOn(k: Course, c: Cursor, d: Cursor, e: Cursor, depth: nat, program: string)
    requires Returns(k, c, d, depth, program) && Returns(k, d, e, depth, program)
    ensures Returns(k, c, e, depth, program)
  {
    hide Walk, Inside, OpenAt;
  }

  lemma DepthStays(k: Course, hs: seq<nat>, end: nat, left: nat, level: nat, failed: bool)
    requires 0 < end && end + left <= |hs| && DepthOf(hs[..end]) >= level && LeftBelow(k, hs, end, left, level, failed)
    ensures DepthOf(hs[..end + left]) >= level
  {
    if left > 0 {
      assert Below(k, hs, end + left - 1, level, failed);
    }
  }

  /** Into the call that the log mentions, past those that it does not. */
  lemma EntersCall(k: Course, hs: seq<nat>, before: nat, depth: nat, program: string, p: nat, q: nat)
    requires IsTree(hs) && p + before < |hs| <= |k.list| && Inside(k, Cursor(q, hs[..p]), depth, program)
    requires Enters(k, hs, before, depth + 1, p, q)
    ensures Inside(k, Cursor(q + 1, hs[..p + before + 1]), depth + 1, ProgramOf(k, p + before))
    ensures Walk(k, Cursor(q, hs[..p])) == Walk(k, Cursor(q + 1, hs[..p + before + 1]))
    ensures OpenAt(k.msgs, q + 1) == OpenAt(k.msgs, q) + [q]
  {
    hide IsTree, Walk, Inside, OpenAt, LeftOut, Stands, IsInvoke, ProgramOf;
    LeftOutWalks(k, hs, p, before, depth, program, q, ProgramOf(k, p + before));
    MentionedWalks(k, hs, p + before, depth, program, q);
  }

  /** Out of a call again, past what is left below it. */
  lemma CallReturns(k: Course, hs: seq<nat>, c: Cursor, d: Cursor, left: nat, depth: nat, program: string, inner: string)
    requires IsTree(hs) && Inside(k, c, depth, program) && Inside(k, d, depth + 1, inner) && Walk(k, c) == Walk(k, d)
    requires OpenAt(k.msgs, d.q) == OpenAt(k.msgs, c.q) + [c.q]
    requires d.hs <= hs && |d.hs| + left <= |hs| && Leaves(k, hs, left, depth + 1, inner, |d.hs|, d.q)
    ensures Returns(k, c, Cursor(d.q + 1, hs[..|d.hs| + left]), depth, program)
  {
    hide IsTree, Walk, ScanTo, OpenAt, RunningAt, Eat, LeftBelow, Inside;
    InsideMeans(k, c, depth, program);
    InsideMeans(k, d, depth + 1, inner);
    assert d.hs == hs[..|d.hs|];
    EatsLeft(k, hs, |d.hs|, left, depth + 1, !Truthy(k.msgs[d.q].error));
    ResultWalksOn(k, d, depth + 1, inner, hs[..|d.hs| + left]);
    assert (OpenAt(k.msgs, c.q) + [c.q])[..depth] == OpenAt(k.msgs, c.q);
    DepthStays(k, hs, |d.hs|, left, depth + 1, Truthy(k.msgs[d.q].error));
    BackInside(k, c, Cursor(d.q + 1, hs[..|d.hs| + left]), depth, program);
  }

  lemma RunsMeans(k: Course, hs: seq<nat>, t: Story, depth: nat, program: string, p: nat, q: nat)
    requires t.Runs? && Tells(k, hs, t, depth, program, p, q)
    ensures var at := p + t.before;
            var inner, end, result := ProgramOf(k, at), at + 1 + Count(t.body), q + 1 + Size(t.body);
            && end + t.left <= |hs| <= |k.list| && p + Count(t) == end + t.left + Count(t.next) && q + Size(t) == result + 1 + Size(t.next)
            && Enters(k, hs, t.before, depth + 1, p, q)
            && !IsCut(t.body) && Tells(k, hs, t.body, depth + 1, inner, at + 1, q + 1)
            && Leaves(k, hs, t.left, depth + 1, inner, end, result)
            && Tells(k, hs, t.next, depth, program, end + t.left, result + 1) && IsCut(t.next) == IsCut(t)
  {
    hide Enters, Leaves, IsSaid, RestGiven, ProgramOf;
  }

  lemma OthersMean(k: Course, hs: seq<nat>, t: Story, depth: nat, program: string, p: nat, q: nat)
    requires !t.Runs? && Tells(k, hs, t, depth, program, p, q)
    ensures p + Count(t) <= |hs| <= |k.list| && q + Size(t) <= |k.msgs|
    ensures match t
            case Quiet => Size(t) == Count(t) == 0 && !IsCut(t)
            case Says(rest) =>
              && IsSaid(k, q, program) && Tells(k, hs, rest, depth, program, p, q + 1)
              && Size(t) == 1 + Size(rest) && Count(t) == Count(rest) && IsCut(t) == IsCut(rest)
            case Runs(_, _, _, _) => true
            case Cut => Truncated(k.msgs, q) && RestGiven(k, hs, p) && Size(t) == 0 && IsCut(t)
            case CutIn(before, body) =>
              && p + before < |hs| && Enters(k, hs, before, depth + 1, p, q)
              && IsCut(body) && Tells(k, hs, body, depth + 1, ProgramOf(k, p + before), p + before + 1, q + 1)
              && Size(t) == 1 + Size(body) && IsCut(t)
  {
    hide Enters, Leaves, IsSaid, RestGiven, ProgramOf;
  }

  /** The walk goes through the story, to its end or to the cut. */
  ghost predicate GoesThrough(k: Course, hs: seq<nat>, t: Story, depth: nat, program: string, p: nat, q: nat) {
    && p + Count(t) <= |hs| <= |k.list| && q <= |k.msgs|
    && if IsCut(t) then Walk(k, Cursor(q, hs[..p])) == Through(q + Size(t), hs)
       else Returns(k, Cursor(q, hs[..p]), Cursor(q + Size(t), hs[..p + Count(t)]), depth, program)
  }

  /** A call whose body is gone through comes back. */
  lemma BodyReturns(k: Course, hs: seq<nat>, t: Story, depth: nat, program: string, p: nat, q: nat)
    requires IsTree(hs) && t.Runs? && Tells(k, hs, t, depth, program, p, q)
    requires p + t.before < |hs| <= |k.list| && Inside(k, Cursor(q, hs[..p]), depth, program)
    requires Walk(k, Cursor(q, hs[..p])) == Walk(k, Cursor(q + 1, hs[..p + t.before + 1]))
    requires OpenAt(k.msgs, q + 1) == OpenAt(k.msgs, q) + [q]
    requires GoesThrough(k, hs, t.body, depth + 1, ProgramOf(k, p + t.before), p + t.before + 1, q + 1)
    ensures var after := p + t.before + 1 + Count(t.body) + t.left;
            after <= |hs| && Returns(k, Cursor(q, hs[..p]), Cursor(q + 2 + Size(t.body), hs[..after]), depth, program)
  {
    hide IsTree, Walk, Inside, OpenAt, Enters, Leaves, ProgramOf, Tells, Size, Count, IsCut;
    RunsMeans(k, hs, t, depth, program, p, q);
    var end, result := p + t.before + 1 + Count(t.body), q + 1 + Size(t.body);
    CallReturns(k, hs, Cursor(q, hs[..p]), Cursor(result, hs[..end]), t.left, depth, program, ProgramOf(k, p + t.before));
  }

  /** ... and so does what follows. */
  lemma NextGoesThrough(k: Course, hs: seq<nat>, t: Story, depth: nat, program: string, p: nat, q: nat)
    requires t.Runs? && Tells(k, hs, t, depth, program, p, q) && p <= |hs| <= |k.list| && q <= |k.msgs|
    requires var after := p + t.before + 1 + Count(t.body) + t.left;
             && after <= |hs| && Returns(k, Cursor(q, hs[..p]), Cursor(q + 2 + Size(t.body), hs[..after]), depth, program)
             && GoesThrough(k, hs, t.next, depth, program, after, q + 2 + Size(t.body))
    ensures GoesThrough(k, hs, t, depth, program, p, q)
  {
    hide Walk, Inside, OpenAt, Enters, Leaves, ProgramOf, Tells, Size, Count, IsCut;
    RunsMeans(k, hs, t, depth, program, p, q);
  }

  /** The walk goes through every story that list and log tell. */
  lemma {:induction false} StoryWalks(k: Course, hs: seq<nat>, t: Story, depth: nat, program: string, p: nat, q: nat)
    requires IsTree(hs) && Tells(k, hs, t, depth, program, p, q) && p <= |hs| && Inside(k, Cursor(q, hs[..p]), depth, program)
    ensures GoesThrough(k, hs, t, depth, program, p, q)
    decreases t
  {
    hide IsTree, Walk, Inside, ScanTo, OpenAt, Enters, Leaves, RestGiven, Truncated, ProgramOf, Tells, Size, Count, IsCut, Within;
    var c := Cursor(q, hs[..p]);
    InsideMeans(k, c, depth, program);
    if t.Runs? {
      RunsMeans(k, hs, t, depth, program, p, q);
      EntersCall(k, hs, t.before, depth, program, p, q);
      StoryWalks(k, hs, t.body, depth + 1, ProgramOf(k, p + t.before), p + t.before + 1, q + 1);
      BodyReturns(k, hs, t, depth, program, p, q);
      StoryWalks(k, hs, t.next, depth, program, p + t.before + 1 + Count(t.body) + t.left, q + 2 + Size(t.body));
      NextGoesThrough(k, hs, t, depth, program, p, q);
    } else {
      OthersMean(k, hs, t, depth, program, p, q);
      match t
      case Quiet =>
      case Says(rest) =>
        LineWalks(k, c, depth, program);
        StoryWalks(k, hs, rest, depth, program, p, q + 1);
      case Cut =>
        FinishesRest(k, hs, p);
        CutWalks(k, c, depth, program);
      case CutIn(before, body) =>
        EntersCall(k, hs, before, depth, program, p, q);
        StoryWalks(k, hs, body, depth + 1, ProgramOf(k, p + before), p + before + 1, q + 1);
    }
  }

  // ---------- A walk that gets through tells a story ----------

  /** What the walk from `c` on tells, given that it gets through. */
  ghost predicate IsStory(k: Course, t: Story, depth: nat, program: string, c: Cursor)
    requires Within(k, c)
  {
    && Walk(k, c).Through?
    && var end := Walk(k, c);
       && c.hs <= end.hs && IsTree(end.hs) && Tells(k, end.hs, t, depth, program, |c.hs|, c.q)
       && if IsCut(t) then end.q == c.q + Size(t)
          else
            var d := Cursor(c.q + Size(t), end.hs[..|c.hs| + Count(t)]);
            IsResult(k, d.q, program) && Returns(k, c, d, depth, program)
  }

  lemma CutIsStory(k: Course, depth: nat, program: string, c: Cursor)
    requires Inside(k, c, depth, program) && IsTree(c.hs) && Walk(k, c).Through? && Truncated(k.msgs, c.q)
    ensures IsStory(k, Cut, depth, program, c)
  {
    hide IsTree, Walk, ScanTo, OpenAt, RestGiven;
    CutWalks(k, c, depth, program);
    FinishedIsRest(k, c.hs);
    FinishMovesOn(k, c.hs);
  }

  lemma {:induction false} WalkGrows(k: Course, c: Cursor)
    requires Within(k, c) && Walk(k, c).Through?
    ensures c.hs <= Walk(k, c).hs && |Walk(k, c).hs| == |k.list| && Walk(k, c).q <= |k.msgs|
  {
    hide Walk;
    WalkEnds(k, c);
  }

  /** All depths are those of a tree. */
  lemma {:induction false} WalkIsTree(k: Course, c: Cursor)
    requires Within(k, c) && IsTree(c.hs) && Walk(k, c).Through?
    ensures IsTree(Walk(k, c).hs)
    decreases |k.list| + |k.msgs| - |c.hs| - c.q
  {
    hide Walk, IsTree;
    WalkOn(k, c);
    MoveIsTree(k, c);
    if Move(k, c).On? {
      MovesForward(k, c);
      WalkIsTree(k, Move(k, c).c);
    }
  }

  lemma MoveIsTree(k: Course, c: Cursor)
    requires Within(k, c) && IsTree(c.hs)
    ensures match Move(k, c) case On(d) => IsTree(d.hs) case Over(fate) => fate.Through? ==> IsTree(fate.hs)
  {
    hide IsTree, OpenAt, HeightFits, TransactionContext.Knows, Eat, Finish, Obstacle;
    var open := OpenAt(k.msgs, c.q);
    if Finish(k, c.hs).At? { FinishedIsRest(k, c.hs); }
    if |c.hs| < |k.list| {
      NoObstacle(k, c.hs, 1);
      NoObstacle(k, c.hs, |open| + 1);
    }
    if c.hs != [] && open != [] && c.q < |k.msgs| && k.msgs[c.q].InvokeResult? {
      if Eat(k, c.hs, |open|, !Truthy(k.msgs[c.q].error)).At? {
        EatenIsLeft(k, c.hs, |open|, !Truthy(k.msgs[c.q].error));
      }
    }
  }

  /** Where the result of the call comes next, its story is over. */
  lemma ResultIsStory(k: Course, depth: nat, program: string, c: Cursor)
    requires Inside(k, c, depth, program) && IsTree(c.hs) && Walk(k, c).Through? && IsTree(Walk(k, c).hs)
    requires !Truncated(k.msgs, c.q) && c.q < |k.msgs| && k.msgs[c.q].InvokeResult?
    ensures IsStory(k, Quiet, depth, program, c)
  {
    hide IsTree, ScanTo, OpenAt, Eat, RunningAt;
    WalkGrows(k, c);
    assert Walk(k, c).hs[..|c.hs|] == c.hs;
  }

  /** A line of the running call is taken, and the rest is a story. */
  lemma LineStep(k: Course, depth: nat, program: string, c: Cursor)
    requires Inside(k, c, depth, program) && Walk(k, c).Through? && !Truncated(k.msgs, c.q)
    requires c.q < |k.msgs| && (k.msgs[c.q].Text? || k.msgs[c.q].ComputeUnits?)
    ensures IsSaid(k, c.q, program) && Within(k, c.(q := c.q + 1)) && Returns(k, c, c.(q := c.q + 1), depth, program)
  {
    hide Walk, ScanTo, OpenAt, RunningAt, Enter, Close, Finished;
    WalkOn(k, c);
    LineWalks(k, c, depth, program);
  }

  lemma SaysTells(k: Course, hs: seq<nat>, t: Story, depth: nat, program: string, p: nat, q: nat)
    requires IsSaid(k, q, program) && Tells(k, hs, t, depth, program, p, q + 1)
    ensures Tells(k, hs, Says(t), depth, program, p, q)
    ensures Size(Says(t)) == 1 + Size(t) && Count(Says(t)) == Count(t) && IsCut(Says(t)) == IsCut(t)
  {
    hide Enters, Leaves, IsSaid, RestGiven, ProgramOf;
  }

  lemma LineIsStory(k: Course, t: Story, depth: nat, program: string, c: Cursor)
    requires Within(k, c) && Within(k, c.(q := c.q + 1)) && Returns(k, c, c.(q := c.q + 1), depth, program)
    requires IsSaid(k, c.q, program) && IsStory(k, t, depth, program, c.(q := c.q + 1))
    ensures IsStory(k, Says(t), depth, program, c)
  {
    hide Walk, Inside, OpenAt, IsTree, IsSaid, IsResult, Tells, Size, Count, IsCut;
    SaysTells(k, Walk(k, c).hs, t, depth, program, |c.hs|, c.q);
    TellsWithin(k, Walk(k, c).hs, t, depth, program, |c.hs|, c.q + 1);
  }

  /** At an `invoke` the current instruction is emitted one level down, mentioned or not. */
  lemma CallStep(k: Course, depth: nat, program: string, c: Cursor)
    requires Inside(k, c, depth, program) && IsTree(c.hs) && Walk(k, c).Through?
    requires c.q < |k.msgs| && k.msgs[c.q].Invoke?
    ensures |c.hs| < |k.list| && IsTree(c.hs + [depth + 1]) && Stands(k, c.hs + [depth + 1], |c.hs|, depth + 1)
    ensures if k.msgs[c.q].programId == ProgramOf(k, |c.hs|) then
              var d := Cursor(c.q + 1, c.hs + [depth + 1]);
              && IsInvoke(k, c.q, ProgramOf(k, |c.hs|), depth + 1) && Walk(k, c) == Walk(k, d)
              && Inside(k, d, depth + 1, ProgramOf(k, |c.hs|)) && OpenAt(k.msgs, d.q) == OpenAt(k.msgs, c.q) + [c.q]
            else Returns(k, c, Cursor(c.q, c.hs + [depth + 1]), depth, program)
  {
    hide Walk, ScanTo, OpenAt, RunningAt, Close, Finished, IsTree, HeightFits;
    InsideMeans(k, c, depth, program);
    WalkOn(k, c);
    if |c.hs| < |k.list| {
      NoObstacle(k, c.hs, depth + 1);
      if k.msgs[c.q].programId == ProgramOf(k, |c.hs|) && Move(k, c).On? {
        CallWalks(k, c, depth, program);
      }
    }
  }

  /** A call the log does not mention comes before those of the story. */
  function WithOneBefore(t: Story): Story {
    match t
    case Runs(before, body, left, next) => Runs(before + 1, body, left, next)
    case CutIn(before, body) => CutIn(before + 1, body)
    case _ => t
  }

  lemma EntersLater(k: Course, hs: seq<nat>, before: nat, h: nat, p: nat, q: nat)
    requires Enters(k, hs, before, h, p + 1, q) && Stands(k, hs, p, h) && k.msgs[q].programId != ProgramOf(k, p)
    ensures Enters(k, hs, before + 1, h, p, q)
  {
    hide Stands, ProgramOf;
  }

  lemma SkipTells(k: Course, hs: seq<nat>, t: Story, depth: nat, program: string, p: nat, q: nat)
    requires Tells(k, hs, t, depth, program, p + 1, q) && (IsCut(t) || IsResult(k, q + Size(t), program))
    requires q < |k.msgs| && k.msgs[q].Invoke? && Stands(k, hs, p, depth + 1) && k.msgs[q].programId != ProgramOf(k, p)
    ensures Tells(k, hs, WithOneBefore(t), depth, program, p, q)
    ensures Size(WithOneBefore(t)) == Size(t) && Count(WithOneBefore(t)) == Count(t) + 1 && IsCut(WithOneBefore(t)) == IsCut(t)
  {
    hide Stands, Enters, Leaves, ProgramOf, RestGiven;
    if t.Runs? || t.CutIn? {
      EntersLater(k, hs, t.before, depth + 1, p, q);
    }
  }

  lemma TellsWithin(k: Course, hs: seq<nat>, t: Story, depth: nat, program: string, p: nat, q: nat)
    requires Tells(k, hs, t, depth, program, p, q)
    ensures p + Count(t) <= |hs| <= |k.list| && q + Size(t) <= |k.msgs|
  {
    hide Enters, Leaves, IsSaid, RestGiven, ProgramOf;
  }

  lemma SkipIsStory(k: Course, t: Story, depth: nat, program: string, c: Cursor)
    requires Within(k, c) && |c.hs| < |k.list| && c.q < |k.msgs| && k.msgs[c.q].Invoke?
    requires var d := Cursor(c.q, c.hs + [depth + 1]);
             && Stands(k, d.hs, |c.hs|, depth + 1) && k.msgs[c.q].programId != ProgramOf(k, |c.hs|)
             && Returns(k, c, d, depth, program) && Within(k, d) && IsStory(k, t, depth, program, d)
    ensures IsStory(k, WithOneBefore(t), depth, program, c)
  {
    hide Walk, Inside, OpenAt, IsTree, Tells, ProgramOf, WithOneBefore, Size, Count, IsCut, IsResult;
    var d := Cursor(c.q, c.hs + [depth + 1]);
    var end := Walk(k, d);
    assert end.hs[|c.hs|] == d.hs[|c.hs|];
    WalkGrows(k, d);
    TellsWithin(k, end.hs, t, depth, program, |d.hs|, c.q);
    SkipTells(k, end.hs, t, depth, program, |c.hs|, c.q);
    if !IsCut(t) {
      ReturnsOn(k, c, d, Cursor(c.q + Size(t), end.hs[..|d.hs| + Count(t)]), depth, program);
    }
  }

  /** The result of an inner call, and what is left below it. */
  lemma CloseStep(k: Course, depth: nat, program: string, c: Cursor, d: Cursor, inner: string) returns (e: Cursor)
    requires Inside(k, c, depth, program) && Inside(k, d, depth + 1, inner) && Walk(k, c) == Walk(k, d) && Walk(k, d).Through?
    requires OpenAt(k.msgs, d.q) == OpenAt(k.msgs, c.q) + [c.q] && IsResult(k, d.q, inner) && IsTree(d.hs)
    ensures e.q == d.q + 1 && d.hs <= e.hs && IsTree(e.hs) && Returns(k, c, e, depth, program)
    ensures |e.hs| <= |k.list| && Leaves(k, e.hs, |e.hs| - |d.hs|, depth + 1, inner, |d.hs|, d.q)
  {
    hide IsTree, Walk, ScanTo, OpenAt, Eat, LeftBelow;
    InsideMeans(k, c, depth, program);
    InsideMeans(k, d, depth + 1, inner);
    var eaten := CloseEats(k, depth + 1, inner, d);
    EatenIsLeft(k, d.hs, depth + 1, !Truthy(k.msgs[d.q].error));
    ResultWalksOn(k, d, depth + 1, inner, eaten);
    assert (OpenAt(k.msgs, c.q) + [c.q])[..depth] == OpenAt(k.msgs, c.q);
    e := Cursor(d.q + 1, eaten);
    BackInside(k, c, e, depth, program);
  }

  lemma CloseEats(k: Course, depth: nat, program: string, d: Cursor) returns (hs: seq<nat>)
    requires Inside(k, d, depth, program) && Walk(k, d).Through? && IsResult(k, d.q, program)
    ensures Eat(k, d.hs, depth, !Truthy(k.msgs[d.q].error)) == At(hs)
  {
    hide Walk, ScanTo, OpenAt, Enter, Finished, Eat;
    WalkOn(k, d);
    hs := Eat(k, d.hs, depth, !Truthy(k.msgs[d.q].error)).hs;
  }

  /** Exactly what is left stays so when more depths follow. */
  lemma LeavesLonger(k: Course, hs: seq<nat>, more: seq<nat>, left: nat, h: nat, program: string, p: nat, q: nat)
    requires p + left == |hs| && hs <= more && |more| <= |k.list| && Leaves(k, hs, left, h, program, p, q)
    ensures Leaves(k, more, left, h, program, p, q)
  {
    hide LiesBelow, TransactionContext.Knows;
    var failed := Truthy(k.msgs[q].error);
    forall j | p <= j < p + left ensures Below(k, more, j, h, failed) {
      assert Below(k, hs, j, h, failed);
    }
  }

  lemma RunsSizes(body: Story, left: nat, next: Story)
    ensures var t := Runs(0, body, left, next);
            && Size(t) == 2 + Size(body) + Size(next) && Count(t) == 1 + Count(body) + left + Count(next)
            && IsCut(t) == IsCut(next)
  {
  }

  lemma RunsTells(k: Course, hs: seq<nat>, body: Story, left: nat, next: Story, depth: nat, program: string, p: nat, q: nat)
    requires p < |hs| <= |k.list| && Stands(k, hs, p, depth + 1) && IsInvoke(k, q, ProgramOf(k, p), depth + 1)
    requires !IsCut(body) && Tells(k, hs, body, depth + 1, ProgramOf(k, p), p + 1, q + 1)
    requires var end, result := p + 1 + Count(body), q + 1 + Size(body);
             && Leaves(k, hs, left, depth + 1, ProgramOf(k, p), end, result)
             && Tells(k, hs, next, depth, program, end + left, result + 1)
    ensures var t := Runs(0, body, left, next);
            && Tells(k, hs, t, depth, program, p, q) && IsCut(t) == IsCut(next)
            && Size(t) == 2 + Size(body) + Size(next) && Count(t) == 1 + Count(body) + left + Count(next)
  {
    hide Enters, Leaves, IsSaid, RestGiven, ProgramOf, Size, Count, IsCut, IsInvoke, Stands;
    RunsSizes(body, left, next);
    EntersAtOnce(k, hs, depth + 1, p, q);
    TellsWithin(k, hs, next, depth, program, p + 1 + Count(body) + left, q + 2 + Size(body));
  }

  lemma EntersAtOnce(k: Course, hs: seq<nat>, h: nat, p: nat, q: nat)
    requires Stands(k, hs, p, h) && IsInvoke(k, q, ProgramOf(k, p), h)
    ensures Enters(k, hs, 0, h, p, q)
  {
    hide Stands, IsInvoke, ProgramOf;
  }

  /** The call that the log mentions, with its body, is part of the story. */
  lemma RunsIsStory(k: Course, depth: nat, program: string, c: Cursor, body: Story, e: Cursor, next: Story)
    requires Within(k, c) && |c.hs| < |k.list| && IsInvoke(k, c.q, ProgramOf(k, |c.hs|), depth + 1)
    requires var d, inner := Cursor(c.q + 1, c.hs + [depth + 1]), ProgramOf(k, |c.hs|);
             && Within(k, d) && Stands(k, d.hs, |c.hs|, depth + 1) && Walk(k, c) == Walk(k, d)
             && IsStory(k, body, depth + 1, inner, d) && !IsCut(body)
             && var r := d.q + Size(body);
                && e.q == r + 1 && Within(k, e) && Returns(k, c, e, depth, program)
                && |d.hs| + Count(body) <= |e.hs|
                && Leaves(k, e.hs, |e.hs| - |d.hs| - Count(body), depth + 1, inner, |d.hs| + Count(body), r)
                && IsStory(k, next, depth, program, e)
    ensures IsStory(k, Runs(0, body, |e.hs| - |c.hs| - 1 - Count(body), next), depth, program, c)
  {
    hide Walk, Inside, OpenAt, IsTree, ProgramOf, IsInvoke, Leaves, Tells, Size, Count, IsCut, Stands;
    var d, end, left := Cursor(c.q + 1, c.hs + [depth + 1]), Walk(k, c), |e.hs| - |c.hs| - 1 - Count(body);
    var t, result := Runs(0, body, left, next), d.q + Size(body);
    WalkGrows(k, c);
    StandsLonger(k, d.hs, end.hs, |c.hs|, depth + 1);
    LeavesLonger(k, e.hs, end.hs, left, depth + 1, ProgramOf(k, |c.hs|), |d.hs| + Count(body), result);
    RunsTells(k, end.hs, body, left, next, depth, program, |c.hs|, c.q);
    TellsWithin(k, end.hs, t, depth, program, |c.hs|, c.q);
    if !IsCut(next) {
      ReturnsOn(k, c, e, Cursor(c.q + Size(t), end.hs[..|c.hs| + Count(t)]), depth, program);
    }
  }

  lemma StandsLonger(k: Course, hs: seq<nat>, more: seq<nat>, j: nat, h: nat)
    requires hs <= more && |more| <= |k.list| && Stands(k, hs, j, h)
    ensures Stands(k, more, j, h)
  {
  }

  lemma CutInIsStory(k: Course, depth: nat, program: string, c: Cursor, body: Story)
    requires Within(k, c) && |c.hs| < |k.list| && IsInvoke(k, c.q, ProgramOf(k, |c.hs|), depth + 1)
    requires var d := Cursor(c.q + 1, c.hs + [depth + 1]);
             && Within(k, d) && Stands(k, d.hs, |c.hs|, depth + 1) && Walk(k, c) == Walk(k, d)
             && IsStory(k, body, depth + 1, ProgramOf(k, |c.hs|), d) && IsCut(body)
    ensures IsStory(k, CutIn(0, body), depth, program, c)
  {
    hide Walk, Inside, OpenAt, IsTree, ProgramOf, IsResult, IsInvoke, Stands, Enters, Leaves;
    var d, end := Cursor(c.q + 1, c.hs + [depth + 1]), Walk(k, c);
    WalkGrows(k, c);
    StandsLonger(k, d.hs, end.hs, |c.hs|, depth + 1);
    EntersAtOnce(k, end.hs, depth + 1, |c.hs|, c.q);
  }

  /** As long as the log is not cut there is a message. */
  lemma GoesOnLog(k: Course, depth: nat, program: string, c: Cursor)
    requires Inside(k, c, depth, program) && Within(k, c) && Walk(k, c).Through? && !Truncated(k.msgs, c.q)
    ensures c.q < |k.msgs| && !k.msgs[c.q].Truncate?
  {
    hide ScanTo, Enter, Close, Finished;
  }

  /** Where a body that is not cut ends. */
  lemma BodyEnds(k: Course, body: Story, depth: nat, inner: string, d: Cursor) returns (r: Cursor)
    requires Within(k, d) && IsStory(k, body, depth, inner, d) && !IsCut(body)
    ensures |d.hs| + Count(body) <= |Walk(k, d).hs| && r == Cursor(d.q + Size(body), Walk(k, d).hs[..|d.hs| + Count(body)])
    ensures d.hs <= r.hs && IsTree(r.hs)
    ensures IsResult(k, r.q, inner) && Inside(k, r, depth, inner) && Within(k, r) && Walk(k, r) == Walk(k, d)
    ensures OpenAt(k.msgs, r.q) == OpenAt(k.msgs, d.q)
  {
    hide Walk, IsTree, OpenAt, Tells, IsResult, Size, Count, IsCut, Inside;
    var end := Walk(k, d).hs;
    TellsWithin(k, end, body, depth, inner, |d.hs|, d.q);
    r := Cursor(d.q + Size(body), end[..|d.hs| + Count(body)]);
    InsideMeans(k, r, depth, inner);
    TreePrefix(end, |d.hs| + Count(body));
  }

  lemma {:induction false} CallIsStory(k: Course, depth: nat, program: string, c: Cursor) returns (t: Story)
    requires Inside(k, c, depth, program) && Within(k, c) && IsTree(c.hs) && Walk(k, c).Through?
    requires |c.hs| < |k.list| && IsInvoke(k, c.q, ProgramOf(k, |c.hs|), depth + 1)
    requires var d := Cursor(c.q + 1, c.hs + [depth + 1]);
             && Stands(k, d.hs, |c.hs|, depth + 1) && IsTree(d.hs) && Within(k, d) && Walk(k, c) == Walk(k, d)
             && Inside(k, d, depth + 1, ProgramOf(k, |c.hs|)) && OpenAt(k.msgs, d.q) == OpenAt(k.msgs, c.q) + [c.q]
    ensures IsStory(k, t, depth, program, c)
    decreases |k.list| + |k.msgs| - |c.hs| - c.q, 0
  {
    hide Walk, IsTree, Inside, OpenAt, IsStory, Stands, ProgramOf, IsInvoke, IsResult, Leaves, Size, Count, IsCut, Returns;
    var d, inner := Cursor(c.q + 1, c.hs + [depth + 1]), ProgramOf(k, |c.hs|);
    var body := WalkIsStory(k, depth + 1, inner, d);
    if IsCut(body) {
      CutInIsStory(k, depth, program, c, body);
      return CutIn(0, body);
    }
    var r := BodyEnds(k, body, depth + 1, inner, d);
    var e := CloseStep(k, depth, program, c, r, inner);
    ReturnsWithin(k, c, e, depth, program);
    var next := WalkIsStory(k, depth, program, e);
    RunsIsStory(k, depth, program, c, body, e, next);
    t := Runs(0, body, |e.hs| - |c.hs| - 1 - Count(body), next);
  }

  lemma ReturnsWithin(k: Course, c: Cursor, e: Cursor, depth: nat, program: string)
    requires Returns(k, c, e, depth, program)
    ensures Within(k, e) && Inside(k, e, depth, program) && Walk(k, c) == Walk(k, e)
  {
    hide Walk, OpenAt;
  }

  /** Whatever walk gets through has told a story. */
  lemma {:induction false} WalkIsStory(k: Course, depth: nat, program: string, c: Cursor) returns (t: Story)
    requires Inside(k, c, depth, program) && Within(k, c) && IsTree(c.hs) && Walk(k, c).Through?
    ensures IsStory(k, t, depth, program, c)
    decreases |k.list| + |k.msgs| - |c.hs| - c.q, 1
  {
    hide Walk, IsTree, Inside, OpenAt, IsStory, Stands, ProgramOf, IsInvoke, IsResult, IsSaid, Size, Count, IsCut;
    WalkIsTree(k, c);
    if Truncated(k.msgs, c.q) {
      CutIsStory(k, depth, program, c);
      return Cut;
    }
    GoesOnLog(k, depth, program, c);
    if k.msgs[c.q].Invoke? {
      CallStep(k, depth, program, c);
      if k.msgs[c.q].programId == ProgramOf(k, |c.hs|) {
        t := CallIsStory(k, depth, program, c);
      } else {
        t := WalkIsStory(k, depth, program, Cursor(c.q, c.hs + [depth + 1]));
        SkipIsStory(k, t, depth, program, c);
        t := WithOneBefore(t);
      }
    } else if k.msgs[c.q].InvokeResult? {
      ResultIsStory(k, depth, program, c);
      t := Quiet;
    } else {
      LineStep(k, depth, program, c);
      t := WalkIsStory(k, depth, program, c.(q := c.q + 1));
      LineIsStory(k, t, depth, program, c);
      t := Says(t);
    }
  }
}
