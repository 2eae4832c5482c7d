/**
 Program logs that mention every call: the log is the print of a tree of calls, and the instructions
 are the calls of that tree in preorder.
 */
module CompleteLogs {
  import opened Wrappers
  import opened LogBrackets
  import opened Instructions

  /**
   `list` is the calls of the log tree `t` in preorder, at their depths.  Heights may be missing only
   in a `quiet` transaction, one where no call reports an error.
   */
  ghost predicate Performs(tx: TransactionContext, t: LogTree, depth: nat, list: seq<RpcInstruction>, quiet: bool) {
    match t
    case End => list == []
    case Line(_, rest) => Performs(tx, rest, depth, list, quiet)
    case Call(programId, body, error, next) =>
      var n := CallCount(body);
      && |list| > n
      && tx.Knows(list[0]) && tx.accounts[list[0].programIdIndex] == programId
      && (list[0].stackHeight == Some(depth + 1) || (quiet && list[0].stackHeight == None))
      && (quiet ==> !Truthy(error))
      && Performs(tx, body, depth + 1, list[1..1 + n], quiet)
      && Performs(tx, next, depth, list[1 + n..], quiet)
  }

  /** Instruction `k` does not belong below a finished call at `depth`. */
  predicate Stops(list: seq<RpcInstruction>, k: nat, depth: nat, quiet: bool) {
    k >= |list| ||
    match list[k].stackHeight
    case Some(height) => height <= depth
    case None => quiet && 2 <= depth
  }

  /** From instruction `p` and message `q` on, the calls and messages of `t` come, and then the call at `depth` is over. */
  ghost predicate Ahead(tx: TransactionContext, list: seq<RpcInstruction>, msgs: seq<Message>,
                        t: LogTree, depth: nat, quiet: bool, program: string, p: nat, q: nat)
  {
    && WellFormed(t, Some(program)) && Fragment(msgs, q, Print(t, depth))
    && p + CallCount(t) <= |list| && Performs(tx, t, depth, list[p..p + CallCount(t)], quiet)
    && Stops(list, p + CallCount(t), depth, quiet)
  }

  lemma SubList<T>(list: seq<T>, p: nat, n: nat, a: nat, b: nat)
    requires p + n <= |list| && a <= b <= n
    ensures list[p..p + n][a..b] == list[p + a..p + b]
  {
    var s := list[p..p + n];
    forall i | 0 <= i < b - a ensures s[a..b][i] == list[p + a..p + b][i] {
      assert s[a..b][i] == s[a + i];
    }
  }

  lemma AheadStops(tx: TransactionContext, list: seq<RpcInstruction>, msgs: seq<Message>,
                   t: LogTree, depth: nat, quiet: bool, program: string, p: nat, q: nat)
    requires Ahead(tx, list, msgs, t, depth, quiet, program, p, q)
    ensures Stops(list, p + CallCount(t), depth, quiet)
    ensures q + |Print(t, depth)| <= |msgs| && p + CallCount(t) <= |list|
    ensures t == End ==> CallCount(t) == 0 && Print(t, depth) == []
  {
  }

  lemma AheadOfLine(tx: TransactionContext, list: seq<RpcInstruction>, msgs: seq<Message>,
                    t: LogTree, depth: nat, quiet: bool, program: string, p: nat, q: nat)
    requires t.Line? && Ahead(tx, list, msgs, t, depth, quiet, program, p, q)
    ensures q < |msgs| && msgs[q] == t.msg && Ahead(tx, list, msgs, t.rest, depth, quiet, program, p, q + 1)
    ensures t.msg.Text? || (t.msg.ComputeUnits? && t.msg.programId == program)
    ensures CallCount(t) == CallCount(t.rest) && |Print(t, depth)| == 1 + |Print(t.rest, depth)|
  {
    var text := Print(t, depth);
    assert text == [t.msg] + Print(t.rest, depth);
    assert msgs[q] == msgs[q..q + |text|][0];
    assert msgs[q + 1..q + |text|] == text[1..] == Print(t.rest, depth);
  }

  lemma AheadOfCall(tx: TransactionContext, list: seq<RpcInstruction>, msgs: seq<Message>,
                    t: LogTree, depth: nat, quiet: bool, program: string, p: nat, q: nat)
    requires t.Call? && depth >= 1 && Ahead(tx, list, msgs, t, depth, quiet, program, p, q)
    ensures p < |list| && tx.Knows(list[p]) && tx.accounts[list[p].programIdIndex] == t.programId
    ensures list[p].stackHeight == Some(depth + 1) || list[p].stackHeight == None
    ensures q < |msgs| && msgs[q] == Invoke(t.programId, depth + 1)
    ensures var p', q' := p + 1 + CallCount(t.body), q + 1 + |Print(t.body, depth + 1)|;
            && q' < |msgs| && msgs[q'] == InvokeResult(t.programId, t.error)
            && Ahead(tx, list, msgs, t.body, depth + 1, quiet, t.programId, p + 1, q + 1)
            && Ahead(tx, list, msgs, t.next, depth, quiet, program, p', q' + 1)
            && (quiet ==> !Truthy(t.error))
            && p + CallCount(t) == p' + CallCount(t.next) && q + |Print(t, depth)| == q' + 1 + |Print(t.next, depth)|
  {
    hide Print, WellFormed, Performs, Fragment, CallCount, Stops;
    AheadOfCallList(tx, list, t, depth, quiet, p);
    CallParts(msgs, q, t, Some(program), depth);
  }

  lemma AheadOfCallList(tx: TransactionContext, list: seq<RpcInstruction>, t: LogTree, depth: nat, quiet: bool, p: nat)
    requires t.Call? && depth >= 1 && p + CallCount(t) <= |list|
    requires Performs(tx, t, depth, list[p..p + CallCount(t)], quiet) && Stops(list, p + CallCount(t), depth, quiet)
    ensures CallCount(t) == 1 + CallCount(t.body) + CallCount(t.next)
    ensures p < |list| && tx.Knows(list[p]) && tx.accounts[list[p].programIdIndex] == t.programId
    ensures list[p].stackHeight == Some(depth + 1) || list[p].stackHeight == None
    ensures quiet ==> !Truthy(t.error)
    ensures var p', q' := p + 1 + CallCount(t.body), p + CallCount(t);
            && Performs(tx, t.body, depth + 1, list[p + 1..p'], quiet) && Stops(list, p', depth + 1, quiet)
            && Performs(tx, t.next, depth, list[p'..q'], quiet) && Stops(list, q', depth, quiet)
  {
    hide Stops;
    var n, m := CallCount(t.body), CallCount(t.next);
    CallLists(list, p, n, m);
    CallStops(tx, list, t.next, depth, quiet, p + 1 + n);
  }

  lemma CallLists<T>(list: seq<T>, p: nat, n: nat, m: nat)
    requires p + 1 + n + m <= |list|
    ensures var calls := list[p..p + (1 + n + m)];
            && calls[0] == list[p] && calls[1..1 + n] == list[p + 1..p + 1 + n]
            && calls[1 + n..] == list[p + 1 + n..p + (1 + n + m)]
  {
    var calls := list[p..p + (1 + n + m)];
    SubList(list, p, 1 + n + m, 1, 1 + n);
    SubList(list, p, 1 + n + m, 1 + n, 1 + n + m);
    assert calls[1 + n..] == calls[1 + n..1 + n + m];
  }

  /** A call stops where the calls after it begin. */
  lemma CallStops(tx: TransactionContext, list: seq<RpcInstruction>, t: LogTree, depth: nat, quiet: bool, p: nat)
    requires depth >= 1 && p + CallCount(t) <= |list|
    requires Performs(tx, t, depth, list[p..p + CallCount(t)], quiet) && Stops(list, p + CallCount(t), depth, quiet)
    ensures Stops(list, p, depth + 1, quiet)
  {
    hide Performs;
    if CallCount(t) > 0 {
      FirstCallStops(tx, t, depth, list[p..p + CallCount(t)], quiet);
      assert list[p] == list[p..p + CallCount(t)][0];
    }
  }

  /** The first call of a log stands one level below the call it is in. */
  lemma {:induction false} FirstCallStops(tx: TransactionContext, t: LogTree, depth: nat, list: seq<RpcInstruction>, quiet: bool)
    requires CallCount(t) > 0 && depth >= 1 && Performs(tx, t, depth, list, quiet)
    ensures list != [] && Stops(list, 0, depth + 1, quiet)
    decreases t
  {
    if t.Line? {
      FirstCallStops(tx, t.rest, depth, list, quiet);
    }
  }

  /** The calls of group `i` and their messages are next: all of `t.Call?`, or a single instruction that never ran. */
  ghost predicate GroupAhead(tx: TransactionContext, list: seq<RpcInstruction>, msgs: seq<Message>,
                             i: nat, t: LogTree, quiet: bool, q: nat)
  {
    if i <= tx.erroredInstruction then
      && t.Call? && WellFormed(t, None) && Fragment(msgs, q, Print(t, 0))
      && |list| == 1 + CallCount(t.body)
      && Performs(tx, Call(t.programId, t.body, t.error, End), 0, list, quiet)
    else |list| == 1 && tx.Knows(list[0])
  }

  /** How many messages group `i` takes. */
  function Span(tx: TransactionContext, i: nat, t: LogTree): nat {
    if i <= tx.erroredInstruction && t.Call? then 2 + |Print(t.body, 1)| else 0
  }

  lemma GroupIsAhead(tx: TransactionContext, list: seq<RpcInstruction>, msgs: seq<Message>,
                     i: nat, t: LogTree, quiet: bool, q: nat)
    requires i <= tx.erroredInstruction && GroupAhead(tx, list, msgs, i, t, quiet, q)
    ensures tx.Knows(list[0]) && tx.accounts[list[0].programIdIndex] == t.programId
    ensures list[0].stackHeight == Some(1) || list[0].stackHeight == None
    ensures quiet ==> !Truthy(t.error)
    ensures Ahead(tx, list, msgs, t.body, 1, quiet, t.programId, 1, q + 1)
    ensures var q' := q + 1 + |Print(t.body, 1)|;
            && q' < |msgs| && msgs[q] == Invoke(t.programId, 1) && msgs[q'] == InvokeResult(t.programId, t.error)
            && WellFormed(t.next, None) && Fragment(msgs, q' + 1, Print(t.next, 0))
            && |Print(t, 0)| == Span(tx, i, t) + |Print(t.next, 0)|
  {
    hide Performs, WellFormed, Fragment, Print, CallCount;
    GroupPerforms(tx, list, t, quiet);
    CallParts(msgs, q, t, None, 0);
  }

  lemma GroupPerforms(tx: TransactionContext, list: seq<RpcInstruction>, t: LogTree, quiet: bool)
    requires t.Call? && |list| == 1 + CallCount(t.body)
    requires Performs(tx, Call(t.programId, t.body, t.error, End), 0, list, quiet)
    ensures tx.Knows(list[0]) && tx.accounts[list[0].programIdIndex] == t.programId
    ensures list[0].stackHeight == Some(1) || list[0].stackHeight == None
    ensures quiet ==> !Truthy(t.error)
    ensures Performs(tx, t.body, 1, list[1..1 + CallCount(t.body)], quiet)
  {
  }
}
