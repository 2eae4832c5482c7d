/**
 Solana instructions as they come from the chain and as they are emitted, and what it means for the
 emitted ones to be in step with the program log.  The parser keeps this relation message by message.
 */
module Instructions {
  import opened Wrappers
  import opened CallAddresses
  import opened LogBrackets

  datatype RpcInstruction = RpcInstruction(
    programIdIndex: nat,
    accounts: seq<nat>,
    data: string,
    stackHeight: Option<nat>)

  datatype TransactionContext = TransactionContext(
    transactionIndex: nat,
    accounts: seq<string>,
    erroredInstruction: int,
    isCommitted: bool)
  {
    predicate Knows(src: RpcInstruction) {
      src.programIdIndex < |accounts| && forall i :: 0 <= i < |src.accounts| ==> src.accounts[i] < |accounts|
    }
  }

  datatype Instruction = Instruction(
    transactionIndex: nat,
    instructionAddress: Address,
    programId: string,
    accounts: seq<string>,
    data: string,
    isCommitted: bool,
    hasDroppedLogMessages: bool,
    error: Option<string>,
    computeUnitsConsumed: Option<nat>)

  datatype LogMessage = LogMessage(
    transactionIndex: nat,
    logIndex: nat,
    instructionAddress: Address,
    programId: string,
    kind: TextKind,
    message: string)

  /** The plain assertions of the parser; unlike a parsing error they end the whole block. */
  datatype Assertion = NoInstruction | BadHeight | UnknownAccount

  datatype Failure = ParsingError(msg: string) | AssertionError(at: Assertion)

  datatype Outcome = Ok | Fail(failure: Failure)

  function HeightOr2(src: RpcInstruction): nat {
    src.stackHeight.GetOr(2)
  }

  /** Instruction `j` is an inner call, at most one level below its predecessor. */
  ghost predicate NestedAt(list: seq<RpcInstruction>, j: nat)
    requires 0 < j < |list|
  {
    2 <= HeightOr2(list[j]) <= HeightOr2(list[j - 1]) + 1
  }

  /** Heights of one top-level instruction and its inner calls describe a tree. */
  ghost predicate WellNested(list: seq<RpcInstruction>) {
    list != [] && list[0].stackHeight == Some(1) && forall j :: 0 < j < |list| ==> NestedAt(list, j)
  }

  ghost predicate HeightsGiven(list: seq<RpcInstruction>) {
    forall src <- list :: src.stackHeight.Some?
  }

  /** `ins` is the mapped form of `src`, apart from what the log says about it. */
  ghost predicate Renders(tx: TransactionContext, src: RpcInstruction, ins: Instruction) {
    && tx.Knows(src)
    && ins.transactionIndex == tx.transactionIndex
    && ins.programId == tx.accounts[src.programIdIndex]
    && |ins.accounts| == |src.accounts|
    && (forall i :: 0 <= i < |src.accounts| ==> ins.accounts[i] == tx.accounts[src.accounts[i]])
    && ins.data == src.data
    && ins.isCommitted == tx.isCommitted
    && (src.stackHeight.Some? ==> |ins.instructionAddress| == src.stackHeight.value)
  }

  /** Where the items of a transaction start, and what its log is. */
  datatype Origin = Origin(tx: TransactionContext, msgs: seq<Message>, base: nat, logBase: nat)

  /**
   A moment of the parse.  `claims` takes the position of every `invoke` passed so far to the
   instruction it belongs to; `owners` is its inverse.
   */
  datatype Moment = Moment(
    out: seq<Instruction>,
    logs: seq<LogMessage>,
    p: nat,
    scan: Scan,
    claims: map<nat, nat>,
    owners: map<nat, nat>)

  function Lookup<V>(m: map<nat, V>, k: nat): Option<V> {
    if k in m then Some(m[k]) else None
  }

  ghost predicate ClaimsComplete(c: Origin, s: Moment)
    requires s.p <= |c.msgs|
  {
    forall k: nat {:trigger k in s.claims} :: k in s.claims <==> IsOpening(c.msgs, s.p, k)
  }

  ghost predicate ClaimsInvertible(c: Origin, s: Moment) {
    && (forall k <- s.claims :: c.base <= s.claims[k] < |s.out| && Lookup(s.owners, s.claims[k]) == Some(k))
    && (forall j <- s.owners :: j < |s.out| && Lookup(s.claims, s.owners[j]) == Some(j))
  }

  ghost predicate ClaimsAscend(s: Moment) {
    forall k, l :: k in s.claims && l in s.claims && k < l ==> s.claims[k] < s.claims[l]
  }

  /** Every `invoke` passed is claimed by exactly one instruction, in order. */
  ghost predicate Claimed(c: Origin, s: Moment) {
    s.p <= |c.msgs| && c.base <= |s.out| && ClaimsComplete(c, s) && ClaimsInvertible(c, s) && ClaimsAscend(s)
  }

  /** The open brackets from depth `level` on. */
  function OpenFrom(open: seq<nat>, level: nat): seq<nat> {
    if level <= |open| then open[level..] else []
  }

  /**
   What the log says about instruction `j`.  A claimed one has the program, depth, result and
   compute units of its bracket, and lost messages exactly if its bracket is one of the open ones
   below `level`; an unclaimed one has lost its messages unless it never ran.
   */
  ghost predicate Attested(c: Origin, s: Moment, level: nat, j: nat)
    requires s.scan.Brackets? && j < |s.out|
  {
    var ins := s.out[j];
    if j in s.owners then
      var k := s.owners[j];
      && k < |c.msgs| && c.msgs[k].Invoke?
      && ins.programId == c.msgs[k].programId
      && |ins.instructionAddress| == c.msgs[k].stackHeight
      && ins.error == Lookup(s.scan.errors, k).GetOr(None)
      && ins.computeUnitsConsumed == Lookup(s.scan.units, k)
      && (ins.hasDroppedLogMessages <==> k in OpenFrom(s.scan.open, level))
    else
      && ins.error == None && ins.computeUnitsConsumed == None
      && ins.instructionAddress != []
      && (ins.hasDroppedLogMessages <==> ins.instructionAddress[0] <= c.tx.erroredInstruction)
  }

  /** The log entry for a text at `w.at` written by the instruction that claimed `w.owner`. */
  ghost predicate Reports(c: Origin, s: Moment, w: Written, entry: LogMessage) {
    && w.at < |c.msgs| && c.msgs[w.at].Text?
    && w.owner in s.claims && s.claims[w.owner] < |s.out|
    && var ins := s.out[s.claims[w.owner]];
       entry == LogMessage(c.tx.transactionIndex, w.at, ins.instructionAddress, ins.programId,
                           c.msgs[w.at].kind, c.msgs[w.at].message)
  }

  /** The log entries of the transaction are the texts inside brackets, one for one and in order. */
  ghost predicate Reported(c: Origin, s: Moment)
    requires s.scan.Brackets?
  {
    && |s.logs| == c.logBase + |s.scan.texts|
    && forall i {:trigger s.scan.texts[i]} :: 0 <= i < |s.scan.texts| ==> Reports(c, s, s.scan.texts[i], s.logs[c.logBase + i])
  }

  ghost predicate Scanned(c: Origin, s: Moment) {
    && s.scan.Brackets?
    && (forall i :: 0 <= i < |s.scan.open| ==> s.scan.open[i] < s.p)
    && (forall k <- s.scan.errors :: k < s.p)
    && (forall k <- s.scan.units :: k < s.p)
    && OpenAtDepth(c.msgs, s.scan.open)
  }

  ghost predicate AllAttested(c: Origin, s: Moment, level: nat)
    requires s.scan.Brackets?
  {
    forall j :: c.base <= j < |s.out| ==> Attested(c, s, level, j)
  }

  ghost predicate Attributed(c: Origin, s: Moment, level: nat) {
    Scanned(c, s) && Claimed(c, s) && AllAttested(c, s, level) && Reported(c, s)
  }

  // ---------- One step of the parse at a time ----------

  /** `t` keeps the claims of `s` and the addresses and programs of its instructions. */
  ghost predicate Keeps(s: Moment, t: Moment) {
    && (forall k <- s.claims :: Lookup(t.claims, k) == Some(s.claims[k]))
    && |s.out| <= |t.out|
    && (forall j :: 0 <= j < |s.out| ==>
          t.out[j].instructionAddress == s.out[j].instructionAddress && t.out[j].programId == s.out[j].programId)
  }

  lemma KeepReported(c: Origin, s: Moment, t: Moment)
    requires s.scan.Brackets? && t.scan.Brackets? && Reported(c, s) && Keeps(s, t)
    requires t.scan.texts == s.scan.texts && t.logs == s.logs
    ensures Reported(c, t)
  {
    forall i | 0 <= i < |t.scan.texts| ensures Reports(c, t, t.scan.texts[i], t.logs[c.logBase + i]) {
      assert Reports(c, s, s.scan.texts[i], s.logs[c.logBase + i]);
      assert s.scan.texts[i].owner in s.claims;
    }
  }

  /** Passing anything but an `invoke` keeps the claims complete. */
  lemma KeepClaimed(c: Origin, s: Moment, t: Moment)
    requires s.p < |c.msgs| && !c.msgs[s.p].Invoke? && Claimed(c, s)
    requires t.p == s.p + 1 && t.claims == s.claims && t.owners == s.owners && |t.out| == |s.out|
    ensures Claimed(c, t)
  {
    forall k: nat ensures k in t.claims <==> IsOpening(c.msgs, t.p, k) {
      assert k in s.claims <==> IsOpening(c.msgs, s.p, k);
    }
  }

  lemma ScanStays(c: Origin, s: Moment, t: Moment)
    requires s.p < |c.msgs| && Scanned(c, s)
    requires t.p == s.p + 1 && t.scan == Step(s.scan, c.msgs, s.p) && t.scan.Brackets?
    ensures Scanned(c, t)
  {
    hide Step;
    StepShape(s.scan, c.msgs, s.p);
    forall k <- t.scan.errors ensures k < t.p {
      assert k in t.scan.errors.Keys;
    }
    forall k <- t.scan.units ensures k < t.p {
      assert k in t.scan.units.Keys;
    }
  }

  /** Different instructions own different brackets. */
  lemma OwnersDiffer(c: Origin, s: Moment, i: nat, j: nat)
    requires Claimed(c, s) && i in s.owners && j in s.owners && i != j
    ensures s.owners[i] != s.owners[j]
  {
    assert Lookup(s.claims, s.owners[i]) == Some(i) && Lookup(s.claims, s.owners[j]) == Some(j);
  }

  lemma AddUnclaimed(c: Origin, s: Moment, level: nat, ins: Instruction)
    requires Attributed(c, s, level)
    requires ins.error == None && ins.computeUnitsConsumed == None && ins.instructionAddress != []
    requires ins.hasDroppedLogMessages <==> ins.instructionAddress[0] <= c.tx.erroredInstruction
    ensures Attributed(c, s.(out := s.out + [ins]), level)
  {
    var t := s.(out := s.out + [ins]);
    KeepReported(c, s, t);
    forall j | c.base <= j < |t.out| ensures Attested(c, t, level, j) {
      if j < |s.out| {
        assert Attested(c, s, level, j);
      }
    }
  }

  /** The state after an `invoke` at `s.p` has been claimed by the instruction `ins`. */
  ghost function Claim(c: Origin, s: Moment, ins: Instruction): Moment
    requires s.p < |c.msgs| && s.scan.Brackets?
    requires forall i :: 0 <= i < |s.scan.open| ==> s.scan.open[i] < s.p
  {
    Moment(s.out + [ins], s.logs, s.p + 1, Step(s.scan, c.msgs, s.p),
           s.claims[s.p := |s.out|], s.owners[|s.out| := s.p])
  }

  lemma ClaimIsComplete(c: Origin, s: Moment, t: Moment)
    requires s.p < |c.msgs| && c.msgs[s.p].Invoke? && ClaimsComplete(c, s)
    requires t.p == s.p + 1 && t.claims.Keys == s.claims.Keys + {s.p}
    ensures ClaimsComplete(c, t) && forall k <- s.claims :: k < s.p
  {
    forall k: nat ensures k in t.claims <==> IsOpening(c.msgs, t.p, k) {
      assert k in s.claims <==> IsOpening(c.msgs, s.p, k);
      assert k in t.claims.Keys <==> k in s.claims.Keys || k == s.p;
    }
    forall k <- s.claims ensures k < s.p {
      assert IsOpening(c.msgs, s.p, k);
    }
  }

  lemma ClaimAscends(c: Origin, s: Moment, t: Moment)
    requires s.p < |c.msgs| && c.msgs[s.p].Invoke? && Claimed(c, s)
    requires t.claims == s.claims[s.p := |s.out|]
    ensures ClaimsAscend(t)
  {
  }

  lemma ClaimIsClaimed(c: Origin, s: Moment, t: Moment)
    requires s.p < |c.msgs| && c.msgs[s.p].Invoke? && Claimed(c, s)
    requires t.p == s.p + 1 && |t.out| == |s.out| + 1
    requires t.claims == s.claims[s.p := |s.out|] && t.owners == s.owners[|s.out| := s.p]
    ensures s.p !in s.claims && Claimed(c, t)
  {
    hide ClaimsComplete, ClaimsAscend, ClaimsInvertible;
    ClaimIsComplete(c, s, t);
    ClaimAscends(c, s, t);
    ClaimIsInvertible(c, s, t);
  }

  lemma ClaimIsInvertible(c: Origin, s: Moment, t: Moment)
    requires s.p !in s.claims && c.base <= |s.out| && ClaimsInvertible(c, s)
    requires |t.out| == |s.out| + 1 && t.claims == s.claims[s.p := |s.out|] && t.owners == s.owners[|s.out| := s.p]
    ensures ClaimsInvertible(c, t)
  {
    forall j <- t.owners ensures j < |t.out| && Lookup(t.claims, t.owners[j]) == Some(j) {
      if j != |s.out| {
        assert Lookup(s.claims, s.owners[j]) == Some(j);
      }
    }
    forall k <- t.claims ensures c.base <= t.claims[k] < |t.out| && Lookup(t.owners, t.claims[k]) == Some(k) {
      if k != s.p {
        assert c.base <= s.claims[k] < |s.out|;
      }
    }
  }

  lemma ClaimAttests(c: Origin, s: Moment, ins: Instruction)
    requires s.p < |c.msgs| && Scanned(c, s) && AllAttested(c, s, |s.scan.open|)
    requires c.msgs[s.p] == Invoke(ins.programId, |ins.instructionAddress|)
    requires |ins.instructionAddress| == |s.scan.open| + 1
    requires !ins.hasDroppedLogMessages && ins.error == None && ins.computeUnitsConsumed == None
    ensures Claim(c, s, ins).scan.Brackets? && AllAttested(c, Claim(c, s, ins), |s.scan.open| + 1)
  {
    hide Step, OpenAtDepth;
    StepOpens(s.scan, c.msgs, s.p);
    var t := Claim(c, s, ins);
    var n, level := |s.scan.open|, |s.scan.open| + 1;
    forall j | c.base <= j < |t.out| ensures Attested(c, t, level, j) {
      if j < |s.out| {
        assert Attested(c, s, n, j);
      }
    }
  }

  lemma AddClaimed(c: Origin, s: Moment, ins: Instruction)
    requires s.p < |c.msgs| && s.scan.Brackets? && Attributed(c, s, |s.scan.open|)
    requires c.msgs[s.p] == Invoke(ins.programId, |ins.instructionAddress|)
    requires |ins.instructionAddress| == |s.scan.open| + 1
    requires !ins.hasDroppedLogMessages && ins.error == None && ins.computeUnitsConsumed == None
    ensures Attributed(c, Claim(c, s, ins), |s.scan.open| + 1)
  {
    hide Step, Claimed, AllAttested, Reported;
    var t := Claim(c, s, ins);
    StepOpens(s.scan, c.msgs, s.p);
    ScanStays(c, s, t);
    ClaimIsClaimed(c, s, t);
    ClaimAttests(c, s, ins);
    KeepReported(c, s, t);
  }

  /** Outside of any bracket everything but brackets is dropped. */
  lemma DropMessage(c: Origin, s: Moment, level: nat)
    requires s.p < |c.msgs| && (c.msgs[s.p].Text? || c.msgs[s.p].ComputeUnits?)
    requires Attributed(c, s, level) && s.scan.open == []
    ensures Step(s.scan, c.msgs, s.p) == s.scan && Attributed(c, s.(p := s.p + 1), level)
  {
    var t := s.(p := s.p + 1);
    KeepClaimed(c, s, t);
    KeepReported(c, s, t);
    hide Claimed, Reported, Step;
    forall j | c.base <= j < |t.out| ensures Attested(c, t, level, j) {
      assert Attested(c, s, level, j);
    }
  }

  lemma TakeText(c: Origin, s: Moment, level: nat, entry: LogMessage)
    requires s.p < |c.msgs| && c.msgs[s.p].Text?
    requires Attributed(c, s, level) && s.scan.open != []
    requires Reports(c, s, Written(s.p, s.scan.open[|s.scan.open| - 1]), entry)
    ensures Attributed(c, s.(p := s.p + 1, scan := Step(s.scan, c.msgs, s.p), logs := s.logs + [entry]), level)
    ensures var t := Step(s.scan, c.msgs, s.p); t.Brackets? && t.open == s.scan.open
  {
    hide Step, Claimed;
    var t := s.(p := s.p + 1, scan := Step(s.scan, c.msgs, s.p), logs := s.logs + [entry]);
    StepWrites(s.scan, c.msgs, s.p);
    KeepClaimed(c, s, t);
    forall j | c.base <= j < |t.out| ensures Attested(c, t, level, j) {
      assert Attested(c, s, level, j);
    }
    forall i | 0 <= i < |t.scan.texts| ensures Reports(c, t, t.scan.texts[i], t.logs[c.logBase + i]) {
      if i < |s.scan.texts| {
        assert Reports(c, s, s.scan.texts[i], s.logs[c.logBase + i]);
      }
    }
  }

  /** The state after the message at `s.p` has been recorded on instruction `at`. */
  ghost function Recorded(c: Origin, s: Moment, at: nat, ins: Instruction): Moment
    requires s.p < |c.msgs| && s.scan.Brackets? && at < |s.out|
    requires forall i :: 0 <= i < |s.scan.open| ==> s.scan.open[i] < s.p
  {
    s.(p := s.p + 1, scan := Step(s.scan, c.msgs, s.p), out := s.out[at := ins])
  }

  /** Instruction `at` owns the innermost bracket, and the message at `s.p` names its program. */
  ghost predicate Heads(c: Origin, s: Moment, level: nat, at: nat) {
    && s.p < |c.msgs| && Attributed(c, s, level) && s.scan.open != []
    && c.base <= at < |s.out| && Lookup(s.owners, at) == Some(s.scan.open[|s.scan.open| - 1])
    && (c.msgs[s.p].ComputeUnits? || c.msgs[s.p].InvokeResult?)
    && s.out[at].programId == c.msgs[s.p].programId
  }

  lemma HeadProgram(c: Origin, s: Moment, level: nat, at: nat)
    requires Heads(c, s, level, at)
    ensures ProgramAt(c.msgs, s.scan.open[|s.scan.open| - 1]) == c.msgs[s.p].programId
  {
    assert Attested(c, s, level, at);
  }

  lemma RecordKeeps(c: Origin, s: Moment, level: nat, at: nat, ins: Instruction)
    requires Heads(c, s, level, at) && SameCall(s.out[at], ins)
    requires var t := Step(s.scan, c.msgs, s.p); t.Brackets? && t.texts == s.scan.texts
    ensures var t := Recorded(c, s, at, ins); Scanned(c, t) && Claimed(c, t) && Reported(c, t)
  {
    hide Step, AllAttested;
    var t := Recorded(c, s, at, ins);
    ScanStays(c, s, t);
    KeepClaimed(c, s, t);
    KeepReported(c, s, t);
  }

  lemma RecordAttests(c: Origin, s: Moment, level: nat, at: nat, ins: Instruction, below: nat)
    requires Heads(c, s, level, at) && SameCall(s.out[at], ins)
    requires var t := Recorded(c, s, at, ins);
             t.scan.Brackets? && Attested(c, t, below, at)
             && (forall k {:trigger k in OpenFrom(t.scan.open, below)} ::
                   k in OpenFrom(t.scan.open, below) <==> k in OpenFrom(s.scan.open, level))
             && forall k | k != s.owners[at] ::
                  Lookup(t.scan.errors, k) == Lookup(s.scan.errors, k) && Lookup(t.scan.units, k) == Lookup(s.scan.units, k)
    ensures AllAttested(c, Recorded(c, s, at, ins), below)
  {
    hide Step, OpenAtDepth, Reported;
    var t := Recorded(c, s, at, ins);
    forall j | c.base <= j < |t.out| ensures Attested(c, t, below, j) {
      if j != at {
        assert Attested(c, s, level, j);
        if j in s.owners {
          OwnersDiffer(c, s, at, j);
        }
      }
    }
  }

  lemma TakeUnits(c: Origin, s: Moment, level: nat, at: nat)
    requires Heads(c, s, level, at) && c.msgs[s.p].ComputeUnits?
    ensures Attributed(c, Recorded(c, s, at, s.out[at].(computeUnitsConsumed := Some(c.msgs[s.p].consumed))), level)
    ensures Step(s.scan, c.msgs, s.p).Brackets? && Step(s.scan, c.msgs, s.p).open == s.scan.open
  {
    hide Step, Claimed, Reported, OpenAtDepth;
    HeadProgram(c, s, level, at);
    StepCounts(s.scan, c.msgs, s.p);
    var ins := s.out[at].(computeUnitsConsumed := Some(c.msgs[s.p].consumed));
    RecordKeeps(c, s, level, at, ins);
    assert Attested(c, s, level, at);
    RecordAttests(c, s, level, at, ins, level);
  }

  lemma CloseCall(c: Origin, s: Moment, level: nat, at: nat)
    requires Heads(c, s, level, at) && c.msgs[s.p].InvokeResult? && |s.scan.open| == level
    ensures Attributed(c, Recorded(c, s, at, s.out[at].(error := c.msgs[s.p].error)), level - 1)
    ensures Step(s.scan, c.msgs, s.p).Brackets? && Step(s.scan, c.msgs, s.p).open == s.scan.open[..level - 1]
  {
    hide Step, Claimed, Reported, OpenAtDepth;
    HeadProgram(c, s, level, at);
    StepCloses(s.scan, c.msgs, s.p);
    var ins := s.out[at].(error := c.msgs[s.p].error);
    RecordKeeps(c, s, level, at, ins);
    assert Attested(c, s, level, at);
    RecordAttests(c, s, level, at, ins, level - 1);
  }

  /** A truncated log leaves the bracket open, and its instruction marked. */
  lemma TruncateCall(c: Origin, s: Moment, level: nat, at: nat)
    requires Attributed(c, s, level + 1) && level < |s.scan.open|
    requires c.base <= at < |s.out| && Lookup(s.owners, at) == Some(s.scan.open[level])
    ensures Attributed(c, s.(out := s.out[at := s.out[at].(hasDroppedLogMessages := true)]), level)
  {
    hide Claimed, Reported, Attested, OpenAtDepth;
    var t := s.(out := s.out[at := s.out[at].(hasDroppedLogMessages := true)]);
    KeepReported(c, s, t);
    KeepClaimants(c, s, t);
    forall j | c.base <= j < |t.out| ensures Attested(c, t, level, j) {
      TruncateAttests(c, s, level, at, j);
    }
  }

  lemma KeepClaimants(c: Origin, s: Moment, t: Moment)
    requires Claimed(c, s) && t.p == s.p && t.claims == s.claims && t.owners == s.owners && |t.out| == |s.out|
    ensures Claimed(c, t)
  {
  }

  lemma TruncateAttests(c: Origin, s: Moment, level: nat, at: nat, j: nat)
    requires Attributed(c, s, level + 1) && level < |s.scan.open| && c.base <= j < |s.out|
    requires c.base <= at < |s.out| && Lookup(s.owners, at) == Some(s.scan.open[level])
    ensures Attested(c, s.(out := s.out[at := s.out[at].(hasDroppedLogMessages := true)]), level, j)
  {
    hide Claimed, Reported, OpenAtDepth;
    var open := s.scan.open;
    assert open[level..] == [open[level]] + open[level + 1..];
    assert Attested(c, s, level + 1, j);
    if j != at && j in s.owners {
      OwnersDiffer(c, s, at, j);
    }
  }

  lemma OwnersAreEmitted(c: Origin, s: Moment, level: nat)
    requires Attributed(c, s, level)
    ensures forall j <- s.owners :: j < |s.out|
  {
  }

  lemma OwnerIsClaimed(c: Origin, s: Moment, level: nat, at: nat)
    requires Attributed(c, s, level) && at in s.owners && c.base <= at
    ensures at < |s.out| && Lookup(s.claims, s.owners[at]) == Some(at)
    ensures s.owners[at] < s.p && c.msgs[s.owners[at]].Invoke?
    ensures s.out[at].programId == c.msgs[s.owners[at]].programId
  {
    assert Attested(c, s, level, at);
    assert IsOpening(c.msgs, s.p, s.owners[at]);
  }

  /** An error counts as one only if it is given and not empty. */
  predicate Truthy(error: Option<string>) {
    error.Some? && error.value != ""
  }

  /** `b` is `a` apart from what the log says about it. */
  predicate SameCall(a: Instruction, b: Instruction) {
    b == a.(hasDroppedLogMessages := b.hasDroppedLogMessages, error := b.error,
            computeUnitsConsumed := b.computeUnitsConsumed)
  }
}
