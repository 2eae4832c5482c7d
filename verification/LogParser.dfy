/**
 The text form of Solana program logs.  Patterns are tried one after the other; a line that fits none is
 kept as it is.
 */
module LogParser {
  import opened Wrappers
  import opened LogBrackets

  /** A log line and what it says. */
  datatype Line =
    | InvokeLine(programId: string, stackHeight: nat)
    | SuccessLine(programId: string)
    | FailureLine(programId: string, error: string)
    | LogLine(message: string)
    | DataLine(message: string)
    | UnitsLine(programId: string, consumed: nat, available: nat)
    | TruncatedLine
    | OtherLine(message: string)

  function ToMessage(line: Line): Message {
    match line
    case InvokeLine(programId, stackHeight) => Invoke(programId, stackHeight)
    case SuccessLine(programId) => InvokeResult(programId, None)
    case FailureLine(programId, error) => InvokeResult(programId, Some(error))
    case LogLine(message) => Text(Log, message)
    case DataLine(message) => Text(Data, message)
    case UnitsLine(programId, consumed, _) => ComputeUnits(programId, consumed)
    case TruncatedLine => Truncate
    case OtherLine(message) => Text(Other, message)
  }

  // ---------- Characters and numbers ----------

  /** Digits and letters without 0, I, O and l. */
  predicate IsBase58Char(c: char) {
    '1' <= c <= '9' || ('A' <= c <= 'Z' && c != 'I' && c != 'O') || ('a' <= c <= 'z' && c != 'l')
  }

  predicate IsDigit(c: char) {
    '0' <= c <= '9'
  }

  predicate IsBase58(s: string) {
    s != [] && forall c <- s :: IsBase58Char(c)
  }

  predicate IsNumber(s: string) {
    s != [] && forall c <- s :: IsDigit(c)
  }

  /** Free of line breaks, as far as a pattern's dot is concerned. */
  predicate IsLine(s: string) {
    forall c <- s :: c !in {'\n', '\r', '\U{2028}', '\U{2029}'}
  }

  function Value(s: string): nat
    requires forall c <- s :: IsDigit(c)
  {
    if s == [] then 0
    else
      assert IsDigit(s[|s| - 1]);
      10 * Value(s[..|s| - 1]) + (s[|s| - 1] as int - '0' as int)
  }

  function Decimal(n: nat): (s: string)
    ensures IsNumber(s) && Value(s) == n
  {
    var last := [(n % 10 + '0' as int) as char];
    if n < 10 then last
    else
      var s := Decimal(n / 10) + last;
      assert s[..|s| - 1] == Decimal(n / 10);
      s
  }

  /** How many characters at the start satisfy `p`. */
  function Span(p: char -> bool, s: string): (n: nat)
    ensures n <= |s| && (forall i :: 0 <= i < n ==> p(s[i])) && (n < |s| ==> !p(s[n]))
  {
    if s == [] || !p(s[0]) then 0 else 1 + Span(p, s[1..])
  }

  /** A run of characters ends where the first other one stands. */
  lemma SpanOf(p: char -> bool, a: string, b: string)
    requires (forall c <- a :: p(c)) && (b != [] ==> !p(b[0]))
    ensures Span(p, a + b) == |a| && (a + b)[..|a|] == a && (a + b)[|a|..] == b
  {
    var n := Span(p, a + b);
    assert forall i :: 0 <= i < |a| ==> (a + b)[i] == a[i] && a[i] in a;
    assert b != [] ==> (a + b)[|a|] == b[0];
  }

  // ---------- What lines look like ----------

  const PROGRAM := "Program "
  const INVOKE := " invoke ["
  const SUCCESS := " success"
  const FAILED := " failed: "
  const LOG := "Program log: "
  const DATA := "Program data: "
  const CONSUMED := " consumed "
  const OF := " of "
  const UNITS := " compute units"
  const TRUNCATED := "Log truncated"

  function Print(line: Line): string {
    match line
    case InvokeLine(programId, stackHeight) => PROGRAM + programId + INVOKE + Decimal(stackHeight) + "]"
    case SuccessLine(programId) => PROGRAM + programId + SUCCESS
    case FailureLine(programId, error) => PROGRAM + programId + FAILED + error
    case LogLine(message) => LOG + message
    case DataLine(message) => DATA + message
    case UnitsLine(programId, consumed, available) =>
      PROGRAM + programId + CONSUMED + Decimal(consumed) + OF + Decimal(available) + UNITS
    case TruncatedLine => TRUNCATED
    case OtherLine(message) => message
  }

  /** What follows the program id. */
  ghost predicate TailReads(rest: string, line: Line) {
    match line
    case InvokeLine(_, stackHeight) => exists d :: IsNumber(d) && Value(d) == stackHeight && rest == INVOKE + d + "]"
    case SuccessLine(_) => rest == SUCCESS
    case FailureLine(_, error) => IsLine(error) && rest == FAILED + error
    case UnitsLine(_, consumed, available) =>
      exists c, a :: IsNumber(c) && IsNumber(a) && Value(c) == consumed && Value(a) == available
                     && rest == CONSUMED + c + OF + a + UNITS
    case _ => false
  }

  /** The text has the shape of the line's pattern, and the captured parts are those of the line. */
  ghost predicate Reads(msg: string, line: Line) {
    match line
    case LogLine(message) => IsLine(message) && msg == LOG + message
    case DataLine(message) => IsLine(message) && msg == DATA + message
    case TruncatedLine => msg == TRUNCATED
    case OtherLine(_) => false
    case _ => exists rest :: IsBase58(line.programId) && TailReads(rest, line) && msg == PROGRAM + line.programId + rest
  }

  // ---------- The parser ----------

  /** A program id and what follows it. */
  function AfterProgram(msg: string): Option<(string, string)> {
    if !(PROGRAM <= msg) then None
    else
      var rest := msg[|PROGRAM|..];
      var n := Span(IsBase58Char, rest);
      if n == 0 then None else Some((rest[..n], rest[n..]))
  }

  function InvokeTail(id: string, rest: string): Option<Line> {
    var n := |rest| - 1;
    if INVOKE <= rest && |INVOKE| <= n && rest[n] == ']' && IsNumber(rest[|INVOKE|..n])
    then Some(InvokeLine(id, Value(rest[|INVOKE|..n])))
    else None
  }

  function ResultTail(id: string, rest: string): Option<Line> {
    if rest == SUCCESS then Some(SuccessLine(id))
    else if FAILED <= rest && IsLine(rest[|FAILED|..]) then Some(FailureLine(id, rest[|FAILED|..]))
    else None
  }

  function UnitsTail(id: string, rest: string): Option<Line> {
    if !(CONSUMED <= rest) then None
    else
      var counts := rest[|CONSUMED|..];
      var n := Span(IsDigit, counts);
      if n == 0 || !(OF <= counts[n..]) then None else TotalTail(id, counts[..n], counts[n..][|OF|..])
  }

  function TotalTail(id: string, consumed: string, total: string): Option<Line>
    requires forall c <- consumed :: IsDigit(c)
  {
    var m := |total| - |UNITS|;
    if m > 0 && total[m..] == UNITS && IsNumber(total[..m])
    then Some(UnitsLine(id, Value(consumed), Value(total[..m])))
    else None
  }

  function ParseInvoke(msg: string): Option<Line> {
    match AfterProgram(msg)
    case None => None
    case Some((id, rest)) => InvokeTail(id, rest)
  }

  function ParseResult(msg: string): Option<Line> {
    match AfterProgram(msg)
    case None => None
    case Some((id, rest)) => ResultTail(id, rest)
  }

  function ParseLog(msg: string): Option<Line> {
    if LOG <= msg && IsLine(msg[|LOG|..]) then Some(LogLine(msg[|LOG|..])) else None
  }

  function ParseData(msg: string): Option<Line> {
    if DATA <= msg && IsLine(msg[|DATA|..]) then Some(DataLine(msg[|DATA|..])) else None
  }

  function ParseUnits(msg: string): Option<Line> {
    match AfterProgram(msg)
    case None => None
    case Some((id, rest)) => UnitsTail(id, rest)
  }

  function Or(a: Option<Line>, b: Option<Line>): Option<Line> {
    if a.Some? then a else b
  }

  function ParseLine(msg: string): Line {
    Or(ParseInvoke(msg), Or(ParseResult(msg), Or(ParseLog(msg), Or(ParseData(msg), Or(ParseUnits(msg),
       if msg == TRUNCATED then Some(TruncatedLine) else None))))).GetOr(OtherLine(msg))
  }

  // ---------- The parser reads what lines look like ----------

  lemma AfterProgramIs(id: string, rest: string)
    requires IsBase58(id) && (rest != [] ==> !IsBase58Char(rest[0]))
    ensures AfterProgram(PROGRAM + id + rest) == Some((id, rest))
  {
    SpanOf(IsBase58Char, id, rest);
    assert (PROGRAM + id + rest)[|PROGRAM|..] == id + rest;
    assert PROGRAM <= PROGRAM + id + rest;
  }

  lemma AfterProgramReads(msg: string)
    requires AfterProgram(msg).Some?
    ensures var (id, rest) := AfterProgram(msg).value;
            msg == PROGRAM + id + rest && IsBase58(id) && (rest != [] ==> !IsBase58Char(rest[0]))
  {
    hide Span, IsBase58Char;
    var rest := msg[|PROGRAM|..];
    SpanTakes(IsBase58Char, rest);
    assert msg == PROGRAM + rest;
    Joins(PROGRAM, rest, Span(IsBase58Char, rest));
  }

  lemma SpanTakes(p: char -> bool, s: string)
    ensures forall c <- s[..Span(p, s)] :: p(c)
  {
    hide Span;
  }

  lemma Joins(a: string, b: string, n: nat)
    requires n <= |b|
    ensures a + b == a + b[..n] + b[n..]
  {
  }

  lemma InvokeTailReads(id: string, rest: string, line: Line)
    ensures InvokeTail(id, rest) == Some(line) <==> line.InvokeLine? && line.programId == id && TailReads(rest, line)
  {
    hide Value;
    if InvokeTail(id, rest) == Some(line) {
      var d := rest[|INVOKE|..|rest| - 1];
      assert rest == INVOKE + d + "]";
    }
    if line.InvokeLine? && line.programId == id && TailReads(rest, line) {
      var d :| IsNumber(d) && Value(d) == line.stackHeight && rest == INVOKE + d + "]";
      assert INVOKE <= rest && rest[|INVOKE|..|rest| - 1] == d;
    }
  }

  lemma ResultTailReads(id: string, rest: string, line: Line)
    ensures ResultTail(id, rest) == Some(line) <==>
            (line.SuccessLine? || line.FailureLine?) && line.programId == id && TailReads(rest, line)
  {
    assert SUCCESS[1] != FAILED[1];
    if FAILED <= rest { assert rest == FAILED + rest[|FAILED|..]; }
    if line.FailureLine? && TailReads(rest, line) {
      assert rest[|FAILED|..] == line.error && rest != SUCCESS;
    }
  }

  lemma UnitsTailReads(id: string, rest: string, line: Line)
    ensures UnitsTail(id, rest) == Some(line) <==> line.UnitsLine? && line.programId == id && TailReads(rest, line)
  {
    hide Value, Span;
    if UnitsTail(id, rest) == Some(line) {
      UnitsTailShape(id, rest, line);
    }
    if line.UnitsLine? && line.programId == id && TailReads(rest, line) {
      var c, a :| IsNumber(c) && IsNumber(a) && Value(c) == line.consumed && Value(a) == line.available
                  && rest == CONSUMED + c + OF + a + UNITS;
      ShapeUnitsTail(id, c, a);
    }
  }

  lemma UnitsTailShape(id: string, rest: string, line: Line)
    requires UnitsTail(id, rest) == Some(line)
    ensures line.UnitsLine? && line.programId == id && TailReads(rest, line)
  {
    hide Value, TotalTail, TailReads;
    var counts := rest[|CONSUMED|..];
    var n := Span(IsDigit, counts);
    var total := counts[n..][|OF|..];
    assert forall x <- counts[..n] :: IsDigit(x);
    TotalShape(id, counts[..n], total);
    var a := total[..|total| - |UNITS|];
    Rejoin(CONSUMED, rest);
    Rejoin(OF, counts[n..]);
    Rejoin(counts[..n], counts);
    Regroup(CONSUMED, counts[..n], OF, a, UNITS);
    UnitsTailIs(rest, line, counts[..n], a);
  }

  lemma UnitsTailIs(rest: string, line: Line, c: string, a: string)
    requires line.UnitsLine? && IsNumber(c) && IsNumber(a) && Value(c) == line.consumed && Value(a) == line.available
    requires rest == CONSUMED + c + OF + a + UNITS
    ensures TailReads(rest, line)
  {
  }

  lemma TotalShape(id: string, consumed: string, total: string)
    requires (forall c <- consumed :: IsDigit(c)) && TotalTail(id, consumed, total).Some?
    ensures var m := |total| - |UNITS|;
            && m > 0 && total == total[..m] + UNITS && IsNumber(total[..m])
            && TotalTail(id, consumed, total) == Some(UnitsLine(id, Value(consumed), Value(total[..m])))
  {
  }

  lemma Rejoin(p: string, s: string)
    requires p <= s
    ensures s == p + s[|p|..]
  {
  }

  lemma ShapeUnitsTail(id: string, c: string, a: string)
    requires IsNumber(c) && IsNumber(a)
    ensures UnitsTail(id, CONSUMED + c + OF + a + UNITS) == Some(UnitsLine(id, Value(c), Value(a)))
  {
    hide Value, TotalTail;
    Regroup(CONSUMED, c, OF, a, UNITS);
    AfterPrefix(CONSUMED, c + (OF + (a + UNITS)));
    AfterPrefix(OF, a + UNITS);
    SpanOf(IsDigit, c, OF + (a + UNITS));
    ShapeTotal(id, c, a);
  }

  lemma Regroup(p: string, c: string, q: string, a: string, u: string)
    ensures p + c + q + a + u == p + (c + (q + (a + u)))
  {
  }

  lemma AfterPrefix(p: string, s: string)
    ensures p <= p + s && (p + s)[|p|..] == s
  {
  }

  lemma ShapeTotal(id: string, c: string, a: string)
    requires IsNumber(c) && IsNumber(a)
    ensures TotalTail(id, c, a + UNITS) == Some(UnitsLine(id, Value(c), Value(a)))
  {
    hide Value;
    var total := a + UNITS;
    assert total[..|a|] == a && total[|a|..] == UNITS;
  }

  predicate IsProgramLine(line: Line) {
    line.InvokeLine? || line.SuccessLine? || line.FailureLine? || line.UnitsLine?
  }

  lemma TailStarts(rest: string, line: Line)
    requires IsProgramLine(line) && TailReads(rest, line)
    ensures |rest| >= 2 && rest[0] == ' '
    ensures rest[1] == if line.InvokeLine? then 'i' else if line.SuccessLine? then 's' else if line.FailureLine? then 'f' else 'c'
  {
    hide Value, IsNumber, IsLine;
    match line
    case InvokeLine(_, _) =>
      var d :| rest == INVOKE + d + "]";
      Regroup(INVOKE, d, "]", "", "");
      StartsAlike(INVOKE, d + "]", rest);
    case SuccessLine(_) =>
    case FailureLine(_, error) => StartsAlike(FAILED, error, rest);
    case UnitsLine(_, _, _) =>
      var c, a :| rest == CONSUMED + c + OF + a + UNITS;
      Regroup(CONSUMED, c, OF, a, UNITS);
      StartsAlike(CONSUMED, c + (OF + (a + UNITS)), rest);
  }

  lemma StartsAlike(p: string, s: string, t: string)
    requires t == p + s && |p| >= 2
    ensures |t| >= 2 && t[0] == p[0] && t[1] == p[1]
  {
  }

  /** A line about a program is read off the program id and what follows. */
  lemma ProgramLineReads(msg: string, line: Line)
    requires IsProgramLine(line)
    ensures Reads(msg, line) <==>
              AfterProgram(msg).Some? && line.programId == AfterProgram(msg).value.0 && TailReads(AfterProgram(msg).value.1, line)
  {
    hide TailReads, AfterProgram;
    if AfterProgram(msg).Some? { AfterProgramReads(msg); }
    if Reads(msg, line) {
      var rest :| IsBase58(line.programId) && TailReads(rest, line) && msg == PROGRAM + line.programId + rest;
      TailStarts(rest, line);
      AfterProgramIs(line.programId, rest);
    }
  }

  /** The patterns that do not name a program leave nothing for those that do. */
  lemma OtherPatterns(msg: string)
    ensures LOG <= msg || msg == TRUNCATED ==> AfterProgram(msg) == None
    ensures DATA <= msg && AfterProgram(msg).Some? ==> AfterProgram(msg).value.1 != [] && AfterProgram(msg).value.1[0] == ':'
    ensures !(LOG <= msg && DATA <= msg) && !(LOG <= msg && msg == TRUNCATED) && !(DATA <= msg && msg == TRUNCATED)
  {
    if LOG <= msg {
      assert msg[8] == LOG[8] == 'l';
      assert msg[|PROGRAM|..][0] == 'l';
    }
    if DATA <= msg {
      assert msg[8] == DATA[8] && msg[9] == DATA[9] && msg[10] == DATA[10] && msg[11] == DATA[11] && msg[12] == DATA[12];
      DataSpan(msg[8..]);
    }
    assert TRUNCATED[0] != PROGRAM[0] && LOG[0] != TRUNCATED[0] && DATA[0] != TRUNCATED[0];
  }

  lemma DataSpan(s: string)
    requires |s| > 4 && s[0] == 'd' && s[1] == 'a' && s[2] == 't' && s[3] == 'a' && s[4] == ':'
    ensures Span(IsBase58Char, s) == 4
  {
    SpanOf(IsBase58Char, s[..4], s[4..]);
    assert s == s[..4] + s[4..];
  }

  lemma ProgramParses(msg: string, line: Line)
    requires IsProgramLine(line)
    ensures Reads(msg, line) <==> Some(line) in {ParseInvoke(msg), ParseResult(msg), ParseUnits(msg)}
  {
    ProgramLineReads(msg, line);
    if AfterProgram(msg).Some? {
      var (id, rest) := AfterProgram(msg).value;
      InvokeTailReads(id, rest, line);
      ResultTailReads(id, rest, line);
      UnitsTailReads(id, rest, line);
    }
  }

  lemma TextParses(msg: string, line: Line)
    ensures Some(line) == ParseLog(msg) <==> line.LogLine? && Reads(msg, line)
    ensures Some(line) == ParseData(msg) <==> line.DataLine? && Reads(msg, line)
  {
    if LOG <= msg { Rejoin(LOG, msg); }
    if DATA <= msg { Rejoin(DATA, msg); }
    if line.LogLine? { AfterPrefix(LOG, line.message); }
    if line.DataLine? { AfterPrefix(DATA, line.message); }
  }

  /** At most one of the patterns fits a text. */
  lemma PatternsExclude(msg: string)
    ensures ParseInvoke(msg).Some? ==> ParseResult(msg) == None && ParseUnits(msg) == None
    ensures ParseResult(msg).Some? ==> ParseUnits(msg) == None
    ensures LOG <= msg || DATA <= msg || msg == TRUNCATED ==>
              ParseInvoke(msg) == None && ParseResult(msg) == None && ParseUnits(msg) == None
    ensures ParseLog(msg).Some? ==> ParseData(msg) == None && msg != TRUNCATED
    ensures ParseData(msg).Some? ==> msg != TRUNCATED
  {
    hide Reads, InvokeTail, ResultTail, UnitsTail, TailReads, AfterProgram;
    OtherPatterns(msg);
    if AfterProgram(msg).Some? {
      var (id, rest) := AfterProgram(msg).value;
      TailsDiffer(id, rest);
    }
  }

  lemma TailsDiffer(id: string, rest: string)
    ensures InvokeTail(id, rest).Some? ==> ResultTail(id, rest) == None && UnitsTail(id, rest) == None
    ensures ResultTail(id, rest).Some? ==> UnitsTail(id, rest) == None
    ensures rest != [] && rest[0] == ':' ==>
              InvokeTail(id, rest) == None && ResultTail(id, rest) == None && UnitsTail(id, rest) == None
  {
    var a, b, c := InvokeTail(id, rest), ResultTail(id, rest), UnitsTail(id, rest);
    hide InvokeTail, ResultTail, UnitsTail, TailReads;
    if a.Some? { InvokeTailReads(id, rest, a.value); TailStarts(rest, a.value); }
    if b.Some? { ResultTailReads(id, rest, b.value); TailStarts(rest, b.value); }
    if c.Some? { UnitsTailReads(id, rest, c.value); TailStarts(rest, c.value); }
  }

  /** The parser finds the line a text reads as, whatever the order of the patterns. */
  lemma ParseIsReading(msg: string, line: Line)
    requires !line.OtherLine?
    ensures ParseLine(msg) == line <==> Reads(msg, line)
  {
    hide ParseInvoke, ParseResult, ParseLog, ParseData, ParseUnits;
    PatternsExclude(msg);
    TextParses(msg, line);
    if IsProgramLine(line) { ProgramParses(msg, line); }
    KindsOfPatterns(msg);
  }

  lemma KindsOfPatterns(msg: string)
    ensures forall line :: Some(line) in {ParseInvoke(msg), ParseResult(msg), ParseUnits(msg)} ==> IsProgramLine(line)
    ensures forall line :: ParseLog(msg) == Some(line) ==> line.LogLine? && LOG <= msg
    ensures forall line :: ParseData(msg) == Some(line) ==> line.DataLine? && DATA <= msg
  {
  }

  /** A text reads as one line at most. */
  lemma OneKind(msg: string, a: Line, b: Line)
    requires Reads(msg, a) && Reads(msg, b)
    ensures a == b
  {
    ParseIsReading(msg, a);
    ParseIsReading(msg, b);
  }

  /** A text is kept verbatim just when it reads as no other line. */
  lemma KeptVerbatim(msg: string)
    ensures ParseLine(msg) == OtherLine(msg) <==> forall line :: !Reads(msg, line)
    ensures ParseLine(msg).OtherLine? ==> ParseLine(msg) == OtherLine(msg)
  {
    hide Reads, ParseLine;
    OthersAreKept(msg);
    if ParseLine(msg) == OtherLine(msg) {
      forall line ensures !Reads(msg, line) {
        if line.OtherLine? { NeverReads(msg, line); } else { ParseIsReading(msg, line); }
      }
    } else {
      ParseIsReading(msg, ParseLine(msg));
    }
  }

  lemma OthersAreKept(msg: string)
    ensures ParseLine(msg).OtherLine? ==> ParseLine(msg) == OtherLine(msg)
  {
    hide ParseInvoke, ParseResult, ParseLog, ParseData, ParseUnits;
    KindsOfPatterns(msg);
  }

  lemma NeverReads(msg: string, line: Line)
    requires line.OtherLine?
    ensures !Reads(msg, line)
  {
  }

  /** Program ids are base58, and texts have no line breaks. */
  predicate Printable(line: Line) {
    match line
    case InvokeLine(programId, _) => IsBase58(programId)
    case SuccessLine(programId) => IsBase58(programId)
    case FailureLine(programId, error) => IsBase58(programId) && IsLine(error)
    case UnitsLine(programId, _, _) => IsBase58(programId)
    case LogLine(message) => IsLine(message)
    case DataLine(message) => IsLine(message)
    case TruncatedLine => true
    case OtherLine(_) => false
  }

  /** Parsing undoes printing. */
  lemma ParseUndoesPrint(line: Line)
    requires Printable(line)
    ensures ParseLine(Print(line)) == line
  {
    PrintReads(line);
    ParseIsReading(Print(line), line);
  }

  lemma PrintReads(line: Line)
    requires Printable(line)
    ensures Reads(Print(line), line)
  {
    if IsProgramLine(line) { ProgramLinePrints(line); }
  }

  /** What is printed after the program id. */
  function Tail(line: Line): string
    requires IsProgramLine(line)
  {
    match line
    case InvokeLine(_, stackHeight) => INVOKE + Decimal(stackHeight) + "]"
    case SuccessLine(_) => SUCCESS
    case FailureLine(_, error) => FAILED + error
    case UnitsLine(_, consumed, available) => CONSUMED + Decimal(consumed) + OF + Decimal(available) + UNITS
  }

  lemma ProgramLinePrints(line: Line)
    requires Printable(line) && IsProgramLine(line)
    ensures Reads(Print(line), line)
  {
    hide Reads, TailReads, Print, Tail;
    PrintIsTail(line);
    TailPrints(line);
    Joined(line, Tail(line));
  }

  lemma PrintIsTail(line: Line)
    requires IsProgramLine(line)
    ensures Print(line) == PROGRAM + line.programId + Tail(line)
  {
    match line
    case InvokeLine(id, height) => Prefixed(PROGRAM + id, INVOKE, Decimal(height), "]", "");
    case SuccessLine(_) =>
    case FailureLine(id, error) => Prefixed(PROGRAM + id, FAILED, error, "", "");
    case UnitsLine(id, c, a) => PrefixedUnits(PROGRAM + id, Decimal(c), Decimal(a));
  }

  lemma Prefixed(p: string, a: string, b: string, c: string, d: string)
    ensures p + a + b + c == p + (a + b + c) && p + a + b == p + (a + b)
  {
  }

  lemma PrefixedUnits(p: string, c: string, a: string)
    ensures p + CONSUMED + c + OF + a + UNITS == p + (CONSUMED + c + OF + a + UNITS)
  {
    Prefixed(p, CONSUMED, c, OF, "");
    Prefixed(p, CONSUMED + c + OF, a, UNITS, "");
  }

  lemma TailPrints(line: Line)
    requires Printable(line) && IsProgramLine(line)
    ensures TailReads(Tail(line), line)
  {
    hide TailReads;
    match line
    case InvokeLine(_, _) => InvokePrints(line);
    case UnitsLine(_, _, _) => UnitsPrint(line);
    case _ => ResultPrints(line);
  }

  lemma Joined(line: Line, rest: string)
    requires IsProgramLine(line) && IsBase58(line.programId) && TailReads(rest, line)
    ensures Reads(PROGRAM + line.programId + rest, line)
  {
  }

  lemma InvokePrints(line: Line)
    requires line.InvokeLine?
    ensures TailReads(INVOKE + Decimal(line.stackHeight) + "]", line)
  {
  }

  lemma UnitsPrint(line: Line)
    requires line.UnitsLine?
    ensures TailReads(CONSUMED + Decimal(line.consumed) + OF + Decimal(line.available) + UNITS, line)
  {
  }

  lemma ResultPrints(line: Line)
    ensures line.SuccessLine? ==> TailReads(SUCCESS, line)
    ensures line.FailureLine? && IsLine(line.error) ==> TailReads(FAILED + line.error, line)
  {
  }
}
