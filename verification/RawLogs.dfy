/**
 From the lines of a program log to the items of a transaction: what was proved of messages, said of the
 text the node reports.
 */
module RawLogs {
  import opened Wrappers
  import opened LogBrackets
  import opened Instructions
  import opened LogWalk
  import opened TransactionWalk
  import opened InstructionParser
  import P = LogParser

  function Messages(lines: seq<string>): (messages: seq<Message>)
    ensures |messages| == |lines| && forall i :: 0 <= i < |lines| ==> messages[i] == P.ToMessage(P.ParseLine(lines[i]))
  {
    seq(|lines|, i requires 0 <= i < |lines| => P.ToMessage(P.ParseLine(lines[i])))
  }

  /** The line has the shape that stands for the message. */
  ghost predicate Tells(text: string, m: Message) {
    match m
    case Invoke(programId, stackHeight) => P.Reads(text, P.InvokeLine(programId, stackHeight))
    case InvokeResult(programId, None) => P.Reads(text, P.SuccessLine(programId))
    case InvokeResult(programId, Some(error)) => P.Reads(text, P.FailureLine(programId, error))
    case ComputeUnits(programId, consumed) => exists available :: P.Reads(text, P.UnitsLine(programId, consumed, available))
    case Text(Log, message) => P.Reads(text, P.LogLine(message))
    case Text(Data, message) => P.Reads(text, P.DataLine(message))
    case Text(Other, message) => text == message && forall line :: !P.Reads(text, line)
    case Truncate => P.Reads(text, P.TruncatedLine)
  }

  /** Every line tells its message, and no other. */
  lemma MessageIsTold(text: string, m: Message)
    ensures P.ToMessage(P.ParseLine(text)) == m <==> Tells(text, m)
  {
    hide P.Reads, P.ParseLine;
    var parsed := P.ParseLine(text);
    P.KeptVerbatim(text);
    if P.ToMessage(parsed) == m && !parsed.OtherLine? {
      P.ParseIsReading(text, parsed);
    }
    if Tells(text, m) {
      match m
      case Invoke(id, height) => P.ParseIsReading(text, P.InvokeLine(id, height));
      case InvokeResult(id, None) => P.ParseIsReading(text, P.SuccessLine(id));
      case InvokeResult(id, Some(error)) => P.ParseIsReading(text, P.FailureLine(id, error));
      case ComputeUnits(id, consumed) =>
        var available :| P.Reads(text, P.UnitsLine(id, consumed, available));
        P.ParseIsReading(text, P.UnitsLine(id, consumed, available));
      case Text(Log, message) => P.ParseIsReading(text, P.LogLine(message));
      case Text(Data, message) => P.ParseIsReading(text, P.DataLine(message));
      case Text(Other, _) =>
      case Truncate => P.ParseIsReading(text, P.TruncatedLine);
    }
  }

  /** The log of the second pass is the text of a cut. */
  lemma CutIsCut()
    ensures Messages([P.TRUNCATED]) == [Truncate]
  {
    P.ParseUndoesPrint(P.TruncatedLine);
  }

  // ---------- Attribution of lines ----------

  /**
   A log entry carries the text of its line, and its program and depth are those of an `invoke` line before it,
   the one that opened the innermost bracket.
   */
  lemma EntryIsALine(tx: RpcTransaction, lines: seq<string>, before: seq<Instruction>, logsBefore: seq<LogMessage>,
                     out: seq<Instruction>, logs: seq<LogMessage>, hasDropped: bool, parse: Parse, i: nat) returns (k: nat)
    requires Parsed(tx, before, logsBefore, out, logs, hasDropped, parse) && |logsBefore| <= i < |logs|
    requires tx.logMessages == Messages(lines)
    ensures logs[i].logIndex < |lines| && Tells(lines[logs[i].logIndex], Text(logs[i].kind, logs[i].message))
    ensures k < logs[i].logIndex && Tells(lines[k], Invoke(logs[i].programId, |logs[i].instructionAddress|))
    ensures ScanTo(tx.logMessages, logs[i].logIndex).Brackets?
    ensures var open := ScanTo(tx.logMessages, logs[i].logIndex).open; open != [] && open[|open| - 1] == k
  {
    hide Parsed, ScanTo, Tells, BelongsToInnermost, Messages, P.ToMessage, P.ParseLine;
    EntryFollowsItsBracket(tx, before, logsBefore, out, logs, hasDropped, parse, i);
    k := OpenedByInvoke(tx.logMessages, parse.at.claims, out, logs[i]);
    MessageIsTold(lines[logs[i].logIndex], Text(logs[i].kind, logs[i].message));
    MessageIsTold(lines[k], Invoke(logs[i].programId, |logs[i].instructionAddress|));
  }

  lemma OpenedByInvoke(msgs: seq<Message>, claims: map<nat, nat>, out: seq<Instruction>, entry: LogMessage) returns (k: nat)
    requires BelongsToInnermost(msgs, claims, out, entry)
    ensures entry.logIndex < |msgs| && ScanTo(msgs, entry.logIndex).Brackets?
    ensures var open := ScanTo(msgs, entry.logIndex).open; open != [] && open[|open| - 1] == k
    ensures k < entry.logIndex && msgs[k] == Invoke(entry.programId, |entry.instructionAddress|)
    ensures msgs[entry.logIndex] == Text(entry.kind, entry.message)
  {
    hide ScanTo;
    OpenBracketsAreAtDepth(msgs, entry.logIndex);
    var open := ScanTo(msgs, entry.logIndex).open;
    k := open[|open| - 1];
  }

  /** Of the lines read, a text is reported exactly when some bracket is open around it. */
  lemma LineIsReported(tx: RpcTransaction, lines: seq<string>, before: seq<Instruction>, logsBefore: seq<LogMessage>,
                       out: seq<Instruction>, logs: seq<LogMessage>, hasDropped: bool, parse: Parse,
                       at: nat, kind: TextKind, message: string)
    requires Parsed(tx, before, logsBefore, out, logs, hasDropped, parse) && parse.byLog && tx.logMessages == Messages(lines)
    requires at < parse.at.p && at < |lines| && Tells(lines[at], Text(kind, message))
    ensures ScanTo(tx.logMessages, at).Brackets?
    ensures ScanTo(tx.logMessages, at).open != []
            <==> exists i :: |logsBefore| <= i < |logs| && logs[i].logIndex == at && logs[i].kind == kind && logs[i].message == message
  {
    hide Parsed, ScanTo, Tells;
    MessageIsTold(lines[at], Text(kind, message));
    TextsInsideAreReported(tx, before, logsBefore, out, logs, hasDropped, parse, at);
    if i :| |logsBefore| <= i < |logs| && logs[i].logIndex == at {
      EntryFollowsItsBracket(tx, before, logsBefore, out, logs, hasDropped, parse, i);
    }
  }

  /**
   Of a log that was read to its end, every `invoke` line belongs to one instruction, of that program and at
   that depth, which ends the way a later line of this program says.
   */
  lemma InvokeLineIsShared(tx: RpcTransaction, lines: seq<string>, before: seq<Instruction>, logsBefore: seq<LogMessage>,
                           out: seq<Instruction>, logs: seq<LogMessage>, parse: Parse,
                           k: nat, programId: string, stackHeight: nat) returns (j: nat, end: nat)
    requires Parsed(tx, before, logsBefore, out, logs, false, parse) && tx.logMessages == Messages(lines)
    requires k < |lines| && Tells(lines[k], Invoke(programId, stackHeight))
    ensures |before| <= j < |out| && out[j].programId == programId && |out[j].instructionAddress| == stackHeight
    ensures !out[j].hasDroppedLogMessages
    ensures k < end < |lines| && Tells(lines[end], InvokeResult(programId, out[j].error))
  {
    hide ScanTo, Tells, Attributed, Mapped, IsLogLess, FirstPass;
    MessageIsTold(lines[k], Invoke(programId, stackHeight));
    WholeLogIsShared(tx, before, logsBefore, out, logs, parse);
    assert BelongsToOne(tx.logMessages, parse.at, |before|, out, k);
    j := parse.at.claims[k];
    end := ClosedByResult(tx.logMessages, |lines|, k);
    MessageIsTold(lines[end], InvokeResult(programId, out[j].error));
  }

  // ---------- Logs that mention every call ----------

  /** A message as the runtime writes it. */
  function LineOf(m: Message): P.Line {
    match m
    case Invoke(programId, stackHeight) => P.InvokeLine(programId, stackHeight)
    case InvokeResult(programId, None) => P.SuccessLine(programId)
    case InvokeResult(programId, Some(error)) => P.FailureLine(programId, error)
    case ComputeUnits(programId, consumed) => P.UnitsLine(programId, consumed, consumed)
    case Text(Log, message) => P.LogLine(message)
    case Text(Data, message) => P.DataLine(message)
    case Text(Other, message) => P.OtherLine(message)
    case Truncate => P.TruncatedLine
  }

  /** Its parts keep to the characters of the patterns; a text without a pattern is none of the other lines. */
  ghost predicate Sayable(m: Message) {
    if m.Text? && m.kind == Other then forall line :: !P.Reads(m.message, line) else P.Printable(LineOf(m))
  }

  lemma SaidAndRead(m: Message)
    requires Sayable(m)
    ensures P.ToMessage(P.ParseLine(P.Print(LineOf(m)))) == m
  {
    hide P.Reads, P.ParseLine;
    if m.Text? && m.kind == Other {
      P.KeptVerbatim(m.message);
    } else {
      P.ParseUndoesPrint(LineOf(m));
    }
  }

  /** A log that mentions every call, written line by line, is read back and used up. */
  lemma CompleteTextIsUsedUp(tx: RpcTransaction, t: LogTree, quiet: bool, lines: seq<string>)
    requires LogIsComplete(tx, t, quiet) && |lines| == |tx.logMessages|
    requires forall i :: 0 <= i < |lines| ==> Sayable(tx.logMessages[i]) && lines[i] == P.Print(LineOf(tx.logMessages[i]))
    ensures Messages(lines) == tx.logMessages && Verdict(tx) == Ok && FirstPass(tx).Through? && FirstPass(tx).q == |lines|
  {
    hide LogIsComplete, Verdict, FirstPass, P.Print, P.ParseLine, Sayable;
    CompleteVerdict(tx, t, quiet);
    forall i | 0 <= i < |lines| ensures Messages(lines)[i] == tx.logMessages[i] {
      SaidAndRead(tx.logMessages[i]);
    }
  }
}
