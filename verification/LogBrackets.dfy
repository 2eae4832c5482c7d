/**
 The bracket structure of a Solana program log, defined on the messages alone: `invoke` opens a
 bracket, `invoke-result` of the same program closes it.  The instruction parser is proved against
 this definition, which knows nothing about instructions.
 */
module LogBrackets {
  import opened Wrappers

  datatype TextKind = Log | Data | Other

  datatype Message =
    | Invoke(programId: string, stackHeight: nat)
    | InvokeResult(programId: string, error: Option<string>)
    | ComputeUnits(programId: string, consumed: nat)
    | Text(kind: TextKind, message: string)
    | Truncate

  /** The text at position `at` was written inside the bracket opened at position `owner`. */
  datatype Written = Written(at: nat, owner: nat)

  /** What a prefix of the log amounts to; brackets are named by the position of their `invoke`. */
  datatype Scan =
    | Broken
    | Brackets(
        open: seq<nat>,                      // unclosed brackets, innermost last
        errors: map<nat, Option<string>>,    // closed brackets and how they ended
        units: map<nat, nat>,                // compute units last reported inside
        texts: seq<Written>)                 // texts inside some bracket, in order

  function Step(s: Scan, msgs: seq<Message>, p: nat): Scan
    requires p < |msgs|
    requires s.Brackets? ==> forall i :: 0 <= i < |s.open| ==> s.open[i] < p
  {
    if s.Broken? then Broken else
    var n := |s.open|;
    match msgs[p]
    case Invoke(_, height) =>
      if height == n + 1 then s.(open := s.open + [p]) else Broken
    case InvokeResult(programId, error) =>
      if n > 0 && ProgramAt(msgs, s.open[n - 1]) == programId
      then s.(open := s.open[..n - 1], errors := s.errors[s.open[n - 1] := error])
      else Broken
    case ComputeUnits(programId, consumed) =>
      if n == 0 then s
      else if ProgramAt(msgs, s.open[n - 1]) == programId then s.(units := s.units[s.open[n - 1] := consumed])
      else Broken
    case Text(_, _) =>
      if n == 0 then s else s.(texts := s.texts + [Written(p, s.open[n - 1])])
    case Truncate => Broken
  }

  function ProgramAt(msgs: seq<Message>, k: nat): string
    requires k < |msgs|
  {
    match msgs[k]
    case Invoke(programId, _) => programId
    case _ => ""
  }

  /** The first `p` messages read as brackets. */
  function ScanTo(msgs: seq<Message>, p: nat): (s: Scan)
    requires p <= |msgs|
    ensures s.Brackets? ==> forall i :: 0 <= i < |s.open| ==> s.open[i] < p
  {
    if p == 0 then Brackets([], map[], map[], []) else Step(ScanTo(msgs, p - 1), msgs, p - 1)
  }

  lemma ScanNone(msgs: seq<Message>)
    ensures ScanTo(msgs, 0) == Brackets([], map[], map[], [])
  {
  }

  lemma ScanNext(msgs: seq<Message>, p: nat)
    requires p < |msgs|
    ensures ScanTo(msgs, p + 1) == Step(ScanTo(msgs, p), msgs, p)
    ensures ScanTo(msgs, p + 1).Brackets? ==> ScanTo(msgs, p).Brackets?
  {
  }

  lemma StepOpens(s: Scan, msgs: seq<Message>, p: nat)
    requires s.Brackets? && p < |msgs| && msgs[p].Invoke? && msgs[p].stackHeight == |s.open| + 1
    requires forall i :: 0 <= i < |s.open| ==> s.open[i] < p
    ensures Step(s, msgs, p) == s.(open := s.open + [p])
  {
  }

  lemma StepWrites(s: Scan, msgs: seq<Message>, p: nat)
    requires s.Brackets? && p < |msgs| && msgs[p].Text? && s.open != []
    requires forall i :: 0 <= i < |s.open| ==> s.open[i] < p
    ensures Step(s, msgs, p) == s.(texts := s.texts + [Written(p, s.open[|s.open| - 1])])
  {
  }

  lemma StepCloses(s: Scan, msgs: seq<Message>, p: nat)
    requires s.Brackets? && p < |msgs| && msgs[p].InvokeResult? && s.open != []
    requires forall i :: 0 <= i < |s.open| ==> s.open[i] < p
    requires ProgramAt(msgs, s.open[|s.open| - 1]) == msgs[p].programId
    ensures var top := s.open[|s.open| - 1];
            Step(s, msgs, p) == s.(open := s.open[..|s.open| - 1], errors := s.errors[top := msgs[p].error])
  {
  }

  lemma StepCounts(s: Scan, msgs: seq<Message>, p: nat)
    requires s.Brackets? && p < |msgs| && msgs[p].ComputeUnits? && s.open != []
    requires forall i :: 0 <= i < |s.open| ==> s.open[i] < p
    requires ProgramAt(msgs, s.open[|s.open| - 1]) == msgs[p].programId
    ensures Step(s, msgs, p) == s.(units := s.units[s.open[|s.open| - 1] := msgs[p].consumed])
  {
  }

  /** A step opens a bracket, closes the innermost one, or leaves the brackets alone. */
  lemma StepShape(s: Scan, msgs: seq<Message>, p: nat)
    requires s.Brackets? && p < |msgs| && forall i :: 0 <= i < |s.open| ==> s.open[i] < p
    requires Step(s, msgs, p).Brackets?
    ensures var t := Step(s, msgs, p);
            || (t.open == s.open + [p] && msgs[p].Invoke? && msgs[p].stackHeight == |s.open| + 1
                && t.errors == s.errors && t.units == s.units)
            || (s.open != [] && t.open == s.open[..|s.open| - 1] && t.units == s.units
                && t.errors.Keys == s.errors.Keys + {s.open[|s.open| - 1]})
            || (t.open == s.open && t.errors == s.errors
                && (t.units == s.units || (s.open != [] && t.units.Keys == s.units.Keys + {s.open[|s.open| - 1]})))
  {
  }

  /** Open brackets stand at increasing positions, each at the depth its `invoke` message claims. */
  ghost predicate OpenAtDepth(msgs: seq<Message>, open: seq<nat>)
  {
    forall i :: 0 <= i < |open| ==>
      open[i] < |msgs| && msgs[open[i]].Invoke? && msgs[open[i]].stackHeight == i + 1
      && (i > 0 ==> open[i - 1] < open[i])
  }

  ghost predicate IsOpening(msgs: seq<Message>, p: nat, k: nat)
    requires p <= |msgs|
  {
    k < p && msgs[k].Invoke?
  }

  /** Every `invoke` of the prefix is an open or a closed bracket, and nothing else is. */
  ghost predicate OpenOrClosed(msgs: seq<Message>, p: nat, s: Scan)
    requires s.Brackets? && p <= |msgs|
  {
    forall k: nat {:trigger IsOpening(msgs, p, k)} :: IsOpening(msgs, p, k) <==> k in s.open || k in s.errors
  }

  lemma {:induction false} OpenBracketsAreAtDepth(msgs: seq<Message>, p: nat)
    requires p <= |msgs| && ScanTo(msgs, p).Brackets?
    ensures OpenAtDepth(msgs, ScanTo(msgs, p).open)
  {
    hide ScanTo, Step;
    ScanNone(msgs);
    if p > 0 {
      ScanNext(msgs, p - 1);
      OpenBracketsAreAtDepth(msgs, p - 1);
      StepShape(ScanTo(msgs, p - 1), msgs, p - 1);
    }
  }

  lemma StepKeepsOpenOrClosed(s: Scan, msgs: seq<Message>, p: nat)
    requires s.Brackets? && p < |msgs| && OpenAtDepth(msgs, s.open) && OpenOrClosed(msgs, p, s)
    requires forall i :: 0 <= i < |s.open| ==> s.open[i] < p
    requires Step(s, msgs, p).Brackets?
    ensures OpenOrClosed(msgs, p + 1, Step(s, msgs, p))
  {
    var t := Step(s, msgs, p);
    forall k: nat ensures IsOpening(msgs, p + 1, k) <==> k in t.open || k in t.errors {
      assert IsOpening(msgs, p, k) <==> k in s.open || k in s.errors;
      if msgs[p].InvokeResult? {
        assert s.open == t.open + [s.open[|s.open| - 1]];
      }
    }
  }

  lemma {:induction false} EveryInvokeIsABracket(msgs: seq<Message>, p: nat)
    requires p <= |msgs| && ScanTo(msgs, p).Brackets?
    ensures OpenOrClosed(msgs, p, ScanTo(msgs, p))
  {
    hide ScanTo, Step;
    if p == 0 {
      ScanNone(msgs);
    } else {
      hide OpenOrClosed, OpenAtDepth;
      ScanNext(msgs, p - 1);
      EveryInvokeIsABracket(msgs, p - 1);
      OpenBracketsAreAtDepth(msgs, p - 1);
      StepKeepsOpenOrClosed(ScanTo(msgs, p - 1), msgs, p - 1);
    }
  }

  /** A bracket that is closed was closed by a later message of its program. */
  lemma {:induction false} ClosedByResult(msgs: seq<Message>, p: nat, k: nat) returns (end: nat)
    requires p <= |msgs| && ScanTo(msgs, p).Brackets? && k in ScanTo(msgs, p).errors
    ensures k < end < p && msgs[end] == InvokeResult(ProgramAt(msgs, k), ScanTo(msgs, p).errors[k])
  {
    hide ScanTo, Step;
    ScanNone(msgs);
    var s, t := ScanTo(msgs, p - 1), ScanTo(msgs, p);
    ScanNext(msgs, p - 1);
    StepErrors(s, msgs, p - 1);
    if k in s.errors && t.errors[k] == s.errors[k] {
      end := ClosedByResult(msgs, p - 1, k);
    } else {
      end := p - 1;
    }
  }

  lemma StepErrors(s: Scan, msgs: seq<Message>, p: nat)
    requires s.Brackets? && p < |msgs| && forall i :: 0 <= i < |s.open| ==> s.open[i] < p
    requires Step(s, msgs, p).Brackets?
    ensures var t := Step(s, msgs, p);
            || t.errors == s.errors
            || (msgs[p].InvokeResult? && s.open != []
                && var top := s.open[|s.open| - 1];
                   t.errors == s.errors[top := msgs[p].error] && ProgramAt(msgs, top) == msgs[p].programId)
  {
  }

  lemma StepTexts(s: Scan, msgs: seq<Message>, p: nat)
    requires s.Brackets? && p < |msgs|
    requires forall i :: 0 <= i < |s.open| ==> s.open[i] < p
    requires Step(s, msgs, p).Brackets?
    ensures Step(s, msgs, p).texts ==
      if msgs[p].Text? && s.open != [] then s.texts + [Written(p, s.open[|s.open| - 1])] else s.texts
  {
  }

  /** Texts are listed in log order. */
  lemma {:induction false} TextsAscend(msgs: seq<Message>, p: nat, i: nat)
    requires p <= |msgs| && ScanTo(msgs, p).Brackets? && i < |ScanTo(msgs, p).texts|
    ensures var text := ScanTo(msgs, p).texts[i];
            text.at < p && msgs[text.at].Text? && (i > 0 ==> ScanTo(msgs, p).texts[i - 1].at < text.at)
  {
    hide ScanTo, Step;
    ScanNone(msgs);
    var s := ScanTo(msgs, p - 1);
    ScanNext(msgs, p - 1);
    StepTexts(s, msgs, p - 1);
    if i < |s.texts| {
      TextsAscend(msgs, p - 1, i);
    } else if i > 0 {
      TextsAscend(msgs, p - 1, i - 1);
    }
  }

  /** `w.owner` is the innermost bracket open at `w.at`. */
  ghost predicate Innermost(msgs: seq<Message>, w: Written) {
    w.at < |msgs| && ScanTo(msgs, w.at).Brackets? &&
    var open := ScanTo(msgs, w.at).open;
    open != [] && w.owner == open[|open| - 1]
  }

  /** Each text is listed under the bracket that is innermost where it stands. */
  lemma {:induction false} TextsBelongToInnermost(msgs: seq<Message>, p: nat, i: nat)
    requires p <= |msgs| && ScanTo(msgs, p).Brackets? && i < |ScanTo(msgs, p).texts|
    ensures ScanTo(msgs, p).texts[i].at < p && Innermost(msgs, ScanTo(msgs, p).texts[i])
  {
    hide ScanTo, Step, Innermost;
    ScanNone(msgs);
    var s := ScanTo(msgs, p - 1);
    ScanNext(msgs, p - 1);
    StepTexts(s, msgs, p - 1);
    if i < |s.texts| {
      TextsBelongToInnermost(msgs, p - 1, i);
    } else {
      InnermostHere(msgs, p - 1);
    }
  }

  lemma InnermostHere(msgs: seq<Message>, at: nat)
    requires at < |msgs| && ScanTo(msgs, at).Brackets? && ScanTo(msgs, at).open != []
    ensures var open := ScanTo(msgs, at).open; Innermost(msgs, Written(at, open[|open| - 1]))
  {
    hide ScanTo;
  }

  /** A text is listed exactly when it stands inside some bracket. */
  lemma {:induction false} TextsAreComplete(msgs: seq<Message>, p: nat, at: nat)
    requires at < p <= |msgs| && ScanTo(msgs, p).Brackets? && msgs[at].Text?
    ensures ScanTo(msgs, at).Brackets?
    ensures ScanTo(msgs, at).open != []
            <==> exists i :: 0 <= i < |ScanTo(msgs, p).texts| && ScanTo(msgs, p).texts[i].at == at
  {
    hide ScanTo, Step;
    var s, t := ScanTo(msgs, p - 1), ScanTo(msgs, p);
    ScanNext(msgs, p - 1);
    StepTexts(s, msgs, p - 1);
    if at == p - 1 {
      forall i | 0 <= i < |s.texts| ensures s.texts[i].at != at {
        TextsBelongToInnermost(msgs, p - 1, i);
      }
      if s.open != [] {
        assert t.texts[|s.texts|].at == at;
      }
    } else {
      TextsAreComplete(msgs, p - 1, at);
      if i :| 0 <= i < |s.texts| && s.texts[i].at == at {
        assert t.texts[i].at == at;
      } else {
        assert forall i :: 0 <= i < |t.texts| && i < |s.texts| ==> t.texts[i] == s.texts[i];
      }
    }
  }

  // ---------- Logs as trees ----------

  /** A complete log: lines and calls in order, each call with its own log and its result. */
  datatype LogTree =
    | End
    | Line(msg: Message, rest: LogTree)
    | Call(programId: string, body: LogTree, error: Option<string>, next: LogTree)

  /** Lines inside a call of `program`; a line of compute units names that program. */
  predicate WellFormed(t: LogTree, program: Option<string>) {
    match t
    case End => true
    case Line(msg, rest) =>
      (msg.Text? || (msg.ComputeUnits? && (program.None? || msg.programId == program.value)))
      && WellFormed(rest, program)
    case Call(programId, body, _, next) => WellFormed(body, Some(programId)) && WellFormed(next, program)
  }

  /** The messages of a log whose calls stand at depth `depth + 1`. */
  function Print(t: LogTree, depth: nat): seq<Message> {
    match t
    case End => []
    case Line(msg, rest) => [msg] + Print(rest, depth)
    case Call(programId, body, error, next) =>
      [Invoke(programId, depth + 1)] + Print(body, depth + 1) + [InvokeResult(programId, error)] + Print(next, depth)
  }

  function CallCount(t: LogTree): nat {
    match t
    case End => 0
    case Line(_, rest) => CallCount(rest)
    case Call(_, body, _, next) => 1 + CallCount(body) + CallCount(next)
  }

  function Running(msgs: seq<Message>, open: seq<nat>): Option<string>
    requires forall i :: 0 <= i < |open| ==> open[i] < |msgs|
  {
    if open == [] then None else Some(ProgramAt(msgs, open[|open| - 1]))
  }

  /** From `p` to `q` the log is the print of `t`, and leaves the same brackets open. */
  ghost predicate Prints(msgs: seq<Message>, p: nat, q: nat, t: LogTree) {
    && p <= q <= |msgs| && ScanTo(msgs, p).Brackets? && ScanTo(msgs, q).Brackets?
    && ScanTo(msgs, q).open == ScanTo(msgs, p).open
    && WellFormed(t, Running(msgs, ScanTo(msgs, p).open))
    && msgs[p..q] == Print(t, |ScanTo(msgs, p).open|)
  }

  lemma {:induction false} ReadablePrefix(msgs: seq<Message>, p: nat, n: nat)
    requires p <= n <= |msgs| && ScanTo(msgs, n).Brackets?
    ensures ScanTo(msgs, p).Brackets?
  {
    if p < n {
      ReadablePrefix(msgs, p, n - 1);
    }
  }

  /** Whether the next message fits the open brackets `open`. */
  ghost predicate Fits(msgs: seq<Message>, p: nat, open: seq<nat>)
    requires p < |msgs| && forall i :: 0 <= i < |open| ==> open[i] < p
  {
    match msgs[p]
    case Invoke(_, height) => height == |open| + 1
    case InvokeResult(programId, _) => Running(msgs, open) == Some(programId)
    case ComputeUnits(programId, _) => Running(msgs, open) in {None, Some(programId)}
    case Text(_, _) => true
    case Truncate => false
  }

  ghost function OpenAfter(msgs: seq<Message>, p: nat, open: seq<nat>): seq<nat>
    requires p < |msgs|
  {
    match msgs[p]
    case Invoke(_, _) => open + [p]
    case InvokeResult(_, _) => if open == [] then [] else open[..|open| - 1]
    case _ => open
  }

  lemma ScanFits(msgs: seq<Message>, p: nat)
    requires p < |msgs| && ScanTo(msgs, p).Brackets?
    ensures ScanTo(msgs, p + 1).Brackets? <==> Fits(msgs, p, ScanTo(msgs, p).open)
    ensures ScanTo(msgs, p + 1).Brackets? ==> ScanTo(msgs, p + 1).open == OpenAfter(msgs, p, ScanTo(msgs, p).open)
  {
    hide ScanTo;
    ScanNext(msgs, p);
  }

  lemma SplitText(msgs: seq<Message>, p: nat, r: nat, q: nat)
    requires p < r < q <= |msgs|
    ensures msgs[p..q] == [msgs[p]] + msgs[p + 1..r] + [msgs[r]] + msgs[r + 1..q]
  {
  }

  lemma PrintLine(msgs: seq<Message>, p: nat, q: nat, t: LogTree)
    requires p < |msgs| && ScanTo(msgs, p).Brackets? && (msgs[p].Text? || msgs[p].ComputeUnits?)
    requires Prints(msgs, p + 1, q, t)
    ensures Prints(msgs, p, q, Line(msgs[p], t))
  {
    hide ScanTo;
    ScanFits(msgs, p);
    assert msgs[p..q] == [msgs[p]] + msgs[p + 1..q];
  }

  lemma PrintCall(msgs: seq<Message>, p: nat, r: nat, q: nat, body: LogTree, next: LogTree)
    requires p < r < q <= |msgs|
    requires ScanTo(msgs, p).Brackets? && msgs[p].Invoke? && msgs[r].InvokeResult?
    requires Prints(msgs, p + 1, r, body) && Prints(msgs, r + 1, q, next)
    ensures Prints(msgs, p, q, Call(msgs[p].programId, body, msgs[r].error, next))
  {
    hide ScanTo;
    ScanFits(msgs, p);
    ScanFits(msgs, r);
    SplitText(msgs, p, r, q);
    var open := ScanTo(msgs, p).open;
    assert (open + [p])[..|open|] == open;
  }

  /** Reads the lines and calls from `p` on, up to the result of the call they are in. */
  lemma {:induction false} ReadLog(msgs: seq<Message>, p: nat, n: nat) returns (t: LogTree, q: nat)
    requires p <= n <= |msgs| && ScanTo(msgs, n).Brackets? && ScanTo(msgs, n).open == []
    ensures q <= n && Prints(msgs, p, q, t)
    ensures q == n || msgs[q].InvokeResult?
    decreases n - p
  {
    hide ScanTo;
    ReadablePrefix(msgs, p, n);
    if p == n || msgs[p].InvokeResult? {
      return End, p;
    }
    hide Prints;
    t, q := ReadLog(msgs, p + 1, n);
    if msgs[p].Invoke? {
      AfterCall(msgs, p, q, t);
      var body, r := t, q;
      t, q := ReadLog(msgs, r + 1, n);
      PrintsWithin(msgs, r + 1, q, t);
      PrintCall(msgs, p, r, q, body, t);
      t := Call(msgs[p].programId, body, msgs[r].error, t);
    } else {
      ReadableFits(msgs, p, n);
      PrintLine(msgs, p, q, t);
      t := Line(msgs[p], t);
    }
  }

  lemma ReadableFits(msgs: seq<Message>, p: nat, n: nat)
    requires p < n <= |msgs| && ScanTo(msgs, n).Brackets?
    ensures ScanTo(msgs, p).Brackets? && Fits(msgs, p, ScanTo(msgs, p).open)
  {
    ReadablePrefix(msgs, p, n);
    ReadablePrefix(msgs, p + 1, n);
    ScanFits(msgs, p);
  }

  lemma PrintsWithin(msgs: seq<Message>, p: nat, q: nat, t: LogTree)
    requires Prints(msgs, p, q, t)
    ensures p <= q <= |msgs|
  {
  }

  /** A call that has been read up to `q` is still open there. */
  lemma AfterCall(msgs: seq<Message>, p: nat, q: nat, t: LogTree)
    requires p < |msgs| && ScanTo(msgs, p).Brackets? && msgs[p].Invoke? && Prints(msgs, p + 1, q, t)
    ensures ScanTo(msgs, q).Brackets? && ScanTo(msgs, q).open != [] && p < q
  {
    ScanFits(msgs, p);
  }

  ghost predicate Fragment(msgs: seq<Message>, p: nat, text: seq<Message>) {
    p + |text| <= |msgs| && msgs[p..p + |text|] == text
  }

  /** Scanning the print of a well-formed log comes back to the brackets it started from. */
  lemma {:induction false} ScanPrint(msgs: seq<Message>, p: nat, t: LogTree)
    requires p <= |msgs| && ScanTo(msgs, p).Brackets?
    requires WellFormed(t, Running(msgs, ScanTo(msgs, p).open))
    requires Fragment(msgs, p, Print(t, |ScanTo(msgs, p).open|))
    ensures Prints(msgs, p, p + |Print(t, |ScanTo(msgs, p).open|)|, t)
    decreases t
  {
    hide ScanTo, Prints;
    var depth := |ScanTo(msgs, p).open|;
    match t
    case End =>
      PrintsNothing(msgs, p);
    case Line(msg, rest) =>
      var text := Print(t, depth);
      assert msgs[p] == msgs[p..p + |text|][0] && msgs[p + 1..p + |text|] == text[1..] == Print(rest, depth);
      ScanFits(msgs, p);
      ScanPrint(msgs, p + 1, rest);
      PrintLine(msgs, p, p + |text|, rest);
    case Call(_, _, _, _) =>
      ScanPrintCall(msgs, p, t);
  }

  lemma PrintsNothing(msgs: seq<Message>, p: nat)
    requires p <= |msgs| && ScanTo(msgs, p).Brackets?
    ensures Prints(msgs, p, p, End)
  {
  }

  lemma {:induction false} ScanPrintCall(msgs: seq<Message>, p: nat, t: LogTree)
    requires p <= |msgs| && ScanTo(msgs, p).Brackets? && t.Call?
    requires WellFormed(t, Running(msgs, ScanTo(msgs, p).open))
    requires Fragment(msgs, p, Print(t, |ScanTo(msgs, p).open|))
    ensures Prints(msgs, p, p + |Print(t, |ScanTo(msgs, p).open|)|, t)
    decreases t, 0
  {
    hide ScanTo, Prints, Print, WellFormed, Fragment, Running;
    var open := ScanTo(msgs, p).open;
    CallParts(msgs, p, t, Running(msgs, open), |open|);
    var r, q := p + 1 + |Print(t.body, |open| + 1)|, p + |Print(t, |open|)|;
    CallOpens(msgs, p);
    ScanPrint(msgs, p + 1, t.body);
    PrintsKeepsOpen(msgs, p + 1, r, t.body);
    CallCloses(msgs, p, r);
    ScanPrint(msgs, r + 1, t.next);
    PrintCall(msgs, p, r, q, t.body, t.next);
  }

  lemma CallOpens(msgs: seq<Message>, p: nat)
    requires p < |msgs| && ScanTo(msgs, p).Brackets?
    requires msgs[p].Invoke? && msgs[p].stackHeight == |ScanTo(msgs, p).open| + 1
    ensures ScanTo(msgs, p + 1).Brackets? && ScanTo(msgs, p + 1).open == ScanTo(msgs, p).open + [p]
    ensures Running(msgs, ScanTo(msgs, p + 1).open) == Some(msgs[p].programId)
  {
    hide ScanTo;
    ScanFits(msgs, p);
  }

  lemma CallCloses(msgs: seq<Message>, p: nat, r: nat)
    requires p < r < |msgs| && ScanTo(msgs, p).Brackets? && ScanTo(msgs, r).Brackets?
    requires ScanTo(msgs, r).open == ScanTo(msgs, p).open + [p]
    requires msgs[p].Invoke? && msgs[r].InvokeResult? && msgs[r].programId == msgs[p].programId
    ensures ScanTo(msgs, r + 1).Brackets? && ScanTo(msgs, r + 1).open == ScanTo(msgs, p).open
  {
    hide ScanTo;
    ScanFits(msgs, r);
    var open := ScanTo(msgs, p).open;
    assert (open + [p])[..|open|] == open;
  }

  lemma CallParts(msgs: seq<Message>, p: nat, t: LogTree, program: Option<string>, depth: nat)
    requires t.Call? && WellFormed(t, program)
    requires Fragment(msgs, p, Print(t, depth))
    ensures WellFormed(t.body, Some(t.programId)) && WellFormed(t.next, program)
    ensures var inner, after := Print(t.body, depth + 1), Print(t.next, depth);
            var r, q := p + 1 + |inner|, p + |Print(t, depth)|;
            && q == r + 1 + |after| <= |msgs|
            && msgs[p] == Invoke(t.programId, depth + 1) && Fragment(msgs, p + 1, inner)
            && msgs[r] == InvokeResult(t.programId, t.error) && Fragment(msgs, r + 1, after)
  {
    TextParts(msgs, p, Print(t, depth), t.programId, depth + 1, Print(t.body, depth + 1), t.error, Print(t.next, depth));
  }

  lemma PrintsKeepsOpen(msgs: seq<Message>, p: nat, q: nat, t: LogTree)
    requires Prints(msgs, p, q, t)
    ensures p <= q <= |msgs| && ScanTo(msgs, p).Brackets? && ScanTo(msgs, q).Brackets?
    ensures ScanTo(msgs, q).open == ScanTo(msgs, p).open
  {
  }

  lemma TextParts(msgs: seq<Message>, p: nat, text: seq<Message>, programId: string, height: nat,
                  inner: seq<Message>, error: Option<string>, after: seq<Message>)
    requires text == [Invoke(programId, height)] + inner + [InvokeResult(programId, error)] + after
    requires p + |text| <= |msgs| && msgs[p..p + |text|] == text
    ensures var r := p + 1 + |inner|;
            && msgs[p] == Invoke(programId, height) && msgs[p + 1..r] == inner
            && msgs[r] == InvokeResult(programId, error) && msgs[r + 1..p + |text|] == after
  {
    var n := |inner|;
    assert text[0] == Invoke(programId, height) && text[1..1 + n] == inner;
    assert text[1 + n] == InvokeResult(programId, error) && text[2 + n..] == after;
    forall k | p <= k < p + |text| ensures msgs[k] == text[k - p] {
      assert msgs[k] == msgs[p..p + |text|][k - p];
    }
  }

  lemma BalancedHasTree(msgs: seq<Message>) returns (t: LogTree)
    requires ScanTo(msgs, |msgs|).Brackets? && ScanTo(msgs, |msgs|).open == []
    ensures WellFormed(t, None) && msgs == Print(t, 0)
  {
    ScanNone(msgs);
    hide ScanTo;
    var q;
    t, q := ReadLog(msgs, 0, |msgs|);
    if q < |msgs| {
      ReadableFits(msgs, q, |msgs|);
    }
    assert msgs[0..q] == msgs;
  }

  lemma TreeIsBalanced(msgs: seq<Message>, t: LogTree)
    requires WellFormed(t, None) && msgs == Print(t, 0)
    ensures ScanTo(msgs, |msgs|).Brackets? && ScanTo(msgs, |msgs|).open == []
  {
    ScanNone(msgs);
    hide ScanTo, WellFormed, Print;
    assert msgs[0..|msgs|] == msgs;
    ScanPrint(msgs, 0, t);
  }

  /** A log leaves no bracket open exactly when it is the print of a well-formed tree of calls. */
  lemma BalancedIffTree(msgs: seq<Message>)
    ensures (ScanTo(msgs, |msgs|).Brackets? && ScanTo(msgs, |msgs|).open == [])
            <==> exists t :: WellFormed(t, None) && msgs == Print(t, 0)
  {
    hide ScanTo, WellFormed, Print;
    if ScanTo(msgs, |msgs|).Brackets? && ScanTo(msgs, |msgs|).open == [] {
      var t := BalancedHasTree(msgs);
    }
    if t :| WellFormed(t, None) && msgs == Print(t, 0) {
      TreeIsBalanced(msgs, t);
    }
  }
}
