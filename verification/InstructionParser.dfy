/**
 The log-guided parser of Solana instructions.  It walks the flat list of executed instructions and
 the program log side by side, gives every instruction an address in the call tree and every text of
 the log to the instruction that wrote it.
 */
module InstructionParser {
  import opened Wrappers
  import opened CallAddresses
  import opened LogBrackets
  import opened Instructions
  import opened CompleteLogs
  import opened LogWalk
  import opened TransactionWalk
  import opened TransactionStories

  class MessageStream {
    const messages: seq<Message>
    var pos: nat
    ghost var claims: map<nat, nat>
    ghost var owners: map<nat, nat>

    constructor (messages: seq<Message>)
      ensures this.messages == messages && pos == 0 && claims == map[] && owners == map[]
    {
      this.messages := messages;
      pos := 0;
      claims, owners := map[], map[];
    }

    predicate Truncated()
      reads this
    {
      pos < |messages| && messages[pos].Truncate?
    }

    predicate Ended()
      reads this
    {
      pos >= |messages| || messages[pos].Truncate?
    }

    method Advance() returns (more: bool)
      requires pos <= |messages|
      modifies this`pos
      ensures pos == if old(Ended()) then old(pos) else old(pos) + 1
      ensures more ==> pos < |messages|
    {
      if Truncated() {
        return false;
      }
      pos := if pos + 1 < |messages| then pos + 1 else |messages|;
      return pos < |messages|;
    }
  }

  class InstructionTreeTraversal {
    const tx: TransactionContext
    const messages: MessageStream
    const instructionIndex: nat
    const instructions: seq<RpcInstruction>
    const items: ItemMapping
    var lastAddress: Address
    var pos: nat

    ghost const base: nat             // items of this transaction start here
    ghost const logBase: nat
    ghost const first: nat            // items of this traversal start here
    ghost var addresses: seq<Address> // the addresses given by this traversal

    constructor (tx: TransactionContext, messages: MessageStream, instructionIndex: nat,
                 instruction: RpcInstruction, inner: seq<RpcInstruction>, items: ItemMapping,
                 ghost base: nat, ghost logBase: nat)
      requires base <= |items.instructions|
      ensures this.tx == tx && this.messages == messages && this.instructionIndex == instructionIndex
      ensures this.items == items && this.base == base && this.logBase == logBase
      ensures instructions == [instruction.(stackHeight := Some(1))] + inner
      ensures first == |items.instructions| && pos == 0 && Linked()
    {
      this.tx, this.messages, this.instructionIndex, this.items := tx, messages, instructionIndex, items;
      lastAddress := [instructionIndex - 1];
      instructions := [instruction.(stackHeight := Some(1))] + inner;
      pos := 0;
      this.base, this.logBase, first, addresses := base, logBase, |items.instructions|, [];
    }

    // ---------- Specification state ----------

    /** The instructions passed so far are emitted in order, one each, under consecutive addresses. */
    ghost predicate Linked()
      reads this, items
    {
      && instructions != []
      && pos <= |instructions| && base <= first && first + pos == |items.instructions|
      && |addresses| == pos
      && lastAddress == Latest([instructionIndex - 1], addresses)
      && Numbered([instructionIndex - 1], addresses)
      && (forall i :: 0 <= i < pos ==>
            && Renders(tx, instructions[i], items.instructions[first + i])
            && items.instructions[first + i].instructionAddress == addresses[i]
            && addresses[i] != [] && addresses[i][0] == instructionIndex)
    }

    ghost function Source(): Origin {
      Origin(tx, messages.messages, base, logBase)
    }

    ghost function Now(p: nat): Moment
      requires p <= |messages.messages|
      reads messages, items
    {
      Moment(items.instructions, items.logs, p, ScanTo(messages.messages, p), messages.claims, messages.owners)
    }

    ghost function Open(): seq<nat>
      reads messages
    {
      if messages.pos <= |messages.messages| && ScanTo(messages.messages, messages.pos).Brackets?
      then ScanTo(messages.messages, messages.pos).open else []
    }

    ghost predicate Attested(level: nat)
      reads this, messages, items
    {
      && Linked() && pos <= |instructions| && base <= first && first + pos == |items.instructions|
      && messages.pos <= |messages.messages|
      && ScanTo(messages.messages, messages.pos).Brackets?
      && Attributed(Source(), Now(messages.pos), level) && IsHere()
    }

    /** The depths of the instructions emitted. */
    ghost function Depths(): seq<nat>
      reads this`addresses
    {
      DepthsOf(addresses)
    }

    /** They agree with the other fields. */
    ghost predicate IsHere()
      reads this`addresses, this`pos, this`lastAddress
    {
      |Depths()| == pos && DepthOf(Depths()) == |lastAddress|
    }

    lemma LinkedIsHere()
      requires Linked()
      ensures IsHere()
    {
      hide Numbered, Renders;
    }

    ghost function Remaining(): nat
      reads this, messages
    {
      (if messages.pos <= |messages.messages| then |messages.messages| - messages.pos else 0)
      + if pos <= |instructions| then |instructions| - pos else 0
    }

    ghost function TheCourse(): Course {
      Course(tx, instructions, messages.messages)
    }

    ghost function Here(): Cursor
      reads this, messages
    {
      Cursor(messages.pos, Depths())
    }

    /** What becomes of the group from `c` on. */
    ghost function OnwardFrom(c: Cursor): Fate {
      if Within(TheCourse(), c) then Walk(TheCourse(), c) else Through(0, [])
    }

    ghost function Onward(): Fate
      reads this, messages
    {
      OnwardFrom(Here())
    }

    /** The operation that ended with `r` went the way of the walk. */
    ghost predicate OnTheWay(was: Fate, r: Outcome)
      reads this, messages
    {
      match r
      case Ok => Onward() == was
      case Fail(failure) => was == Stuck(failure)
    }

    /** The operation failed as was to be expected, or went the way of the walk. */
    ghost predicate EntersOr(hindered: Outcome, was: Fate, r: Outcome)
      reads this, messages
    {
      if hindered == Ok then OnTheWay(was, r) else r == hindered
    }

    // ---------- Operations ----------

    /** Whether the current instruction can be emitted at `stackHeight`, and why not. */
    ghost function Hindered(stackHeight: nat): Outcome
      requires pos < |instructions|
      reads this
    {
      match Obstacle(TheCourse(), pos, stackHeight, |lastAddress|)
      case Some(failure) => Fail(failure)
      case None => Ok
    }

    /** Cuts `last` down to `stackHeight` numbers and advances the last one, or goes one level deeper. */
    static method AddressAfter(last: Address, stackHeight: nat) returns (next: Option<Address>)
      requires stackHeight >= 1
      ensures next == if stackHeight <= |last| + 1 then Some(NextAddress(last, stackHeight)) else None
    {
      var address := last;
      while |address| > stackHeight
        invariant |address| >= stackHeight || address == last
        invariant |address| <= |last| && address == last[..|address|]
      {
        address := address[..|address| - 1];
      }
      if |address| == stackHeight {
        address := address[stackHeight - 1 := address[stackHeight - 1] + 1];
        assert address == NextAddress(last, stackHeight);
      } else if |address| + 1 == stackHeight {
        address := address + [0];
      } else {
        return None;
      }
      return Some(address);
    }

    /** The next address stays in this group just when only the first instruction is put at the top level. */
    lemma StaysInGroup(stackHeight: nat)
      requires Linked() && 1 <= stackHeight <= |lastAddress| + 1
      ensures NextAddress(lastAddress, stackHeight)[0] == instructionIndex <==> (pos == 0 <==> stackHeight == 1)
    {
      hide Numbered, Renders;
    }

    lemma LinkedFits()
      requires Linked()
      ensures pos <= |instructions| && base <= first && first + pos == |items.instructions|
    {
      hide Numbered, Renders;
    }

    lemma HasTopLevel()
      requires Linked()
      ensures lastAddress != []
    {
      hide Numbered, Renders;
    }

    method Push(stackHeight: nat) returns (r: Outcome)
      requires Linked()
      modifies this`pos, this`lastAddress, this`addresses, items`instructions
      ensures Linked()
      ensures if old(pos < |instructions|) then r == old(Hindered(stackHeight)) else r.Fail?
      ensures r.Ok? ==> Depths() == old(Depths()) + [stackHeight] && |lastAddress| == stackHeight && IsHere()
      ensures r.Ok? ==> lastAddress != [] && lastAddress[0] == instructionIndex
      ensures r.Ok? ==> (
        && pos == old(pos) + 1 && addresses == old(addresses) + [lastAddress]
        && items.instructions == old(items.instructions) + [items.instructions[|old(items.instructions)|]]
        && var ins := items.instructions[|old(items.instructions)|];
           && Renders(tx, instructions[old(pos)], ins)
           && ins.instructionAddress == lastAddress == NextAddress(old(lastAddress), stackHeight)
           && !ins.hasDroppedLogMessages && ins.error == None && ins.computeUnitsConsumed == None)
      ensures r.Fail? ==> items.instructions == old(items.instructions) && pos == old(pos) && lastAddress == old(lastAddress)
    {
      hide Numbered, Renders, Latest, DepthsOf, DepthOf;
      HasTopLevel();
      if 1 <= stackHeight <= |lastAddress| + 1 { StaysInGroup(stackHeight); }
      if stackHeight == 0 { return Fail(AssertionError(BadHeight)); }
      if pos >= |instructions| { return Fail(AssertionError(NoInstruction)); }
      var src := instructions[pos];
      if src.stackHeight.Some? && stackHeight != src.stackHeight.value { return Fail(AssertionError(BadHeight)); }
      var next := AddressAfter(lastAddress, stackHeight);
      if next.None? || next.value[0] != instructionIndex { return Fail(AssertionError(BadHeight)); }
      if !tx.Knows(src) { return Fail(AssertionError(UnknownAccount)); }
      Emit(src, next.value);
      return Ok;
    }

    method Emit(src: RpcInstruction, address: Address)
      requires Linked() && pos < |instructions| && src == instructions[pos] && tx.Knows(src)
      requires Follows(lastAddress, address) && address[0] == instructionIndex
      requires src.stackHeight.Some? ==> |address| == src.stackHeight.value
      modifies this`pos, this`lastAddress, this`addresses, items`instructions
      ensures Linked() && IsHere() && pos == old(pos) + 1 && addresses == old(addresses) + [lastAddress]
      ensures lastAddress == address && Depths() == old(Depths()) + [|address|]
      ensures |items.instructions| == |old(items.instructions)| + 1
      ensures items.instructions[..|old(items.instructions)|] == old(items.instructions)
      ensures var ins := items.instructions[|old(items.instructions)|];
              && Renders(tx, src, ins) && ins.instructionAddress == address
              && !ins.hasDroppedLogMessages && ins.error == None && ins.computeUnitsConsumed == None
    {
      hide Numbered, Renders, Latest, Follows, DepthsOf, DepthOf;
      OneMoreAddress([instructionIndex - 1], addresses, address);
      var mapped := Instruction(
        tx.transactionIndex,
        address,
        tx.accounts[src.programIdIndex],
        seq(|src.accounts|, i requires 0 <= i < |src.accounts| => tx.accounts[src.accounts[i]]),
        src.data,
        tx.isCommitted,
        false,
        None,
        None);
      IsRendered(src, mapped);
      items.instructions := items.instructions + [mapped];
      lastAddress := address;
      addresses := addresses + [address];
      pos := pos + 1;
      DepthsMore(old(addresses), address);
      LinkedIsHere();
    }

    lemma IsRendered(src: RpcInstruction, ins: Instruction)
      requires tx.Knows(src) && (src.stackHeight.Some? ==> |ins.instructionAddress| == src.stackHeight.value)
      requires |ins.accounts| == |src.accounts| && forall i :: 0 <= i < |src.accounts| ==> ins.accounts[i] == tx.accounts[src.accounts[i]]
      requires ins.transactionIndex == tx.transactionIndex && ins.programId == tx.accounts[src.programIdIndex]
      requires ins.data == src.data && ins.isCommitted == tx.isCommitted
      ensures Renders(tx, src, ins)
    {
    }

    /** Everything emitted, logged and claimed at `s` is still there. */
    ghost predicate Extends(s: Moment)
      reads messages, items
    {
      && s.out <= items.instructions && s.logs <= items.logs && s.p <= messages.pos
      && forall j <- s.owners :: Lookup(messages.owners, j) == Some(s.owners[j])
    }

    lemma NothingIsLost()
      requires messages.pos <= |messages.messages|
      ensures Extends(Now(messages.pos))
    {
    }

    /** Records what the log says about an emitted instruction. */
    method Annotate(at: nat, ins: Instruction)
      requires Linked() && first <= at < |items.instructions|
      requires SameCall(items.instructions[at], ins)
      modifies items`instructions
      ensures Linked() && items.instructions == old(items.instructions)[at := ins]
    {
      items.instructions := items.instructions[at := ins];
    }

    /** Emits an instruction the log does not account for. */
    method PushDropped(stackHeight: nat, ghost level: nat) returns (r: Outcome)
      requires Attested(level) && instructionIndex <= tx.erroredInstruction
      modifies this`pos, this`lastAddress, this`addresses, items`instructions
      ensures r.Ok? ==> Attested(level) && pos == old(pos) + 1
      ensures r.Ok? ==> |items.instructions| == |old(items.instructions)| + 1 && |lastAddress| == stackHeight
      ensures r.Ok? ==> addresses == old(addresses) + [lastAddress] && Depths() == old(Depths()) + [stackHeight]
      ensures if old(pos < |instructions|) then r == old(Hindered(stackHeight)) else r.Fail?
      ensures old(items.instructions) <= items.instructions
      ensures r.Fail? ==> Linked() && pos == old(pos)
    {
      hide Attributed, ScanTo, Step, Numbered, Hindered, HeightFits, DepthsOf, DepthOf;
      ghost var s := Now(messages.pos);
      r := Push(stackHeight);
      if r.Ok? {
        var at := |items.instructions| - 1;
        Annotate(at, items.instructions[at].(hasDroppedLogMessages := true));
        AddUnclaimed(Source(), s, level, items.instructions[at]);
        assert Now(messages.pos) == s.(out := s.out + [items.instructions[at]]);
      }
    }

    method DropNonInvokeMessages(ghost level: nat)
      requires Attested(level)
      requires Open() == [] || messages.Ended() || messages.messages[messages.pos].Invoke?
      modifies messages`pos
      ensures Attested(level) && Open() == old(Open()) && messages.pos >= old(messages.pos)
      ensures old(messages.Ended()) ==> messages.pos == old(messages.pos)
      ensures messages.pos == AfterTexts(messages.messages, old(messages.pos))
    {
      hide Attributed, ScanTo, Step, DepthsOf, DepthOf, Linked, IsHere;
      ghost var was := messages.pos;
      while !messages.Ended()
        invariant Attested(level) && Open() == old(Open()) && messages.pos >= was
        invariant Open() == [] || messages.Ended() || messages.messages[messages.pos].Invoke?
        invariant old(messages.Ended()) ==> messages.pos == was
        invariant AfterTexts(messages.messages, messages.pos) == AfterTexts(messages.messages, was)
        decreases |messages.messages| - messages.pos
      {
        match messages.messages[messages.pos]
        case Text(_, _) | ComputeUnits(_, _) =>
          ghost var s := Now(messages.pos);
          DropMessage(Source(), s, level);
          ScanNext(messages.messages, messages.pos);
          var _ := messages.Advance();
          assert Now(messages.pos) == s.(p := s.p + 1);
        case _ => break;
      }
    }

    /** Where the walk goes when an instruction is emitted at `stackHeight` before message `q`. */
    ghost function OnwardPast(stackHeight: nat, q: nat): Fate
      requires pos < |instructions|
      reads this
    {
      match Hindered(stackHeight)
      case Ok => OnwardFrom(Cursor(q, Depths() + [stackHeight]))
      case Fail(failure) => Stuck(failure)
    }

    /** A call is where the walk is: at the first instruction, or at an `invoke` inside the running call. */
    lemma CallEnters(stackHeight: nat)
      requires stackHeight >= 1 && (stackHeight == 1 <==> pos == 0)
      requires messages.Truncated() || |Open()| == stackHeight - 1
      requires stackHeight > 1 ==> !messages.Ended() && messages.messages[messages.pos].Invoke?
      requires IsHere() && pos <= |instructions| && messages.pos <= |messages.messages|
      ensures if pos >= |instructions| then Onward() == Stuck(AssertionError(NoInstruction))
              else
                var ins := instructions[pos];
                if ins.stackHeight.Some? && ins.stackHeight.value != stackHeight
                then Onward() == Stuck(Complaint(tx, ins, "stack height mismatch"))
                else if ins.programIdIndex >= |tx.accounts| then Onward() == Stuck(AssertionError(UnknownAccount))
                else if Invokes(messages.messages, messages.pos, tx.accounts[ins.programIdIndex]) then
                  if messages.messages[messages.pos].stackHeight != stackHeight
                  then Onward() == Stuck(ParsingError("invoke message has unexpected stack height"))
                  else Onward() == OnwardPast(stackHeight, messages.pos + 1)
                else messages.Truncated() || Onward() == OnwardPast(stackHeight, AfterTexts(messages.messages, messages.pos))
    {
      hide Walk, Finished, Close, ScanTo, HeightFits, TransactionContext.Knows, AfterTexts, DepthsOf, Complaint;
      WalkOn(TheCourse(), Here());
    }

    method Call(stackHeight: nat) returns (r: Outcome)
      requires stackHeight >= 1 && Attested(stackHeight - 1) && instructionIndex <= tx.erroredInstruction
      requires messages.Truncated() || |Open()| == stackHeight - 1
      requires stackHeight == 1 <==> pos == 0
      requires stackHeight > 1 ==> !messages.Ended() && messages.messages[messages.pos].Invoke?
      modifies this`pos, this`lastAddress, this`addresses, items, messages
      ensures r.Ok? ==> Attested(stackHeight - 1) && pos >= old(pos) && Remaining() <= old(Remaining())
      ensures r.Ok? && !old(messages.Truncated()) ==> pos > old(pos)
      ensures r.Ok? ==> if messages.Truncated() then old(Open()) <= Open() else Open() == old(Open())
      ensures r.Ok? && old(!messages.Ended() && messages.messages[messages.pos].Invoke?) ==> Remaining() < old(Remaining())
      ensures Extends(old(Now(messages.pos)))
      ensures OnTheWay(old(Onward()), r)
      ensures old(messages.Truncated()) ==> unchanged(this) && unchanged(items) && unchanged(messages)
      ensures r.Ok? && old(messages.Truncated()) ==> pos < |instructions| && instructions[pos].programIdIndex < |tx.accounts|
      decreases Remaining(), 2
    {
      hide Attributed, ScanTo, Step, Linked, OnwardFrom, HeightFits, AfterTexts, TransactionContext.Knows, Obstacle, DepthsOf, DepthOf, Walk, IsHere, Hindered;
      hide Extends;
      NothingIsLost();
      CallEnters(stackHeight);
      if pos >= |instructions| { return Fail(AssertionError(NoInstruction)); }
      var ins := instructions[pos];
      if !(ins.stackHeight.None? || ins.stackHeight.value == stackHeight) {
        return Fail(Complaint(tx, ins, "stack height mismatch"));
      }
      if ins.programIdIndex >= |tx.accounts| {
        return Fail(AssertionError(UnknownAccount));
      }
      var programId := tx.accounts[ins.programIdIndex];

      if !messages.Ended() && messages.messages[messages.pos].Invoke? && messages.messages[messages.pos].programId == programId {
        if messages.messages[messages.pos].stackHeight != stackHeight {
          return Fail(Complaint(tx, ins, "invoke message has unexpected stack height"));
        }
        r := CallMentioned(stackHeight);
        return;
      }
      if messages.Truncated() {
        return Ok;
      }
      r := CallUnmentioned(stackHeight);
    }

    /** The `invoke` of the current instruction is next in the log. */
    ghost predicate IsMentioned(stackHeight: nat)
      reads this, messages, items
    {
      && stackHeight >= 1 && Attested(stackHeight - 1)
      && |Open()| == stackHeight - 1 && (stackHeight == 1 <==> pos == 0) && pos < |instructions|
      && (instructions[pos].stackHeight.Some? ==> instructions[pos].stackHeight.value == stackHeight)
      && instructions[pos].programIdIndex < |tx.accounts| && messages.pos < |messages.messages|
      && messages.messages[messages.pos] == Message.Invoke(tx.accounts[instructions[pos].programIdIndex], stackHeight)
    }

    /** Handles a call whose `invoke` is next in the log. */
    method CallMentioned(stackHeight: nat) returns (r: Outcome)
      requires IsMentioned(stackHeight) && instructionIndex <= tx.erroredInstruction
      modifies this`pos, this`lastAddress, this`addresses, items, messages
      ensures r.Ok? ==> Attested(stackHeight - 1) && pos > old(pos) && Remaining() < old(Remaining())
      ensures r.Ok? ==> if messages.Truncated() then old(Open()) <= Open() else Open() == old(Open())
      ensures Extends(old(Now(messages.pos)))
      ensures EntersOr(old(Hindered(stackHeight)), old(OnwardFrom(Cursor(messages.pos + 1, Depths() + [stackHeight]))), r)
      decreases Remaining(), 1
    {
      hide Attributed, ScanTo, Step, Linked, OnwardFrom, HeightFits, Hindered, DepthsOf, DepthOf, Obstacle;
      var _ := messages.Advance();
      r := Invoke(stackHeight);
    }

    /** Emits a call that the log does not mention. */
    method CallUnmentioned(stackHeight: nat) returns (r: Outcome)
      requires stackHeight >= 1 && Attested(stackHeight - 1) && instructionIndex <= tx.erroredInstruction
      requires pos < |instructions| && |Open()| == stackHeight - 1
      requires stackHeight > 1 ==> !messages.Ended() && messages.messages[messages.pos].Invoke?
      modifies this`pos, this`lastAddress, this`addresses, items`instructions, messages`pos
      ensures r == old(Hindered(stackHeight)) && Extends(old(Now(messages.pos)))
      ensures r.Ok? ==> Attested(stackHeight - 1) && Open() == old(Open()) && pos == old(pos) + 1
      ensures r.Ok? ==> Here() == Cursor(AfterTexts(messages.messages, old(messages.pos)), old(Depths()) + [stackHeight])
    {
      hide Attributed, ScanTo, Step, Linked, HeightFits, AfterTexts, Hindered, DepthsOf, DepthOf;
      r := PushDropped(stackHeight, stackHeight - 1);
      if r.Ok? {
        DropNonInvokeMessages(stackHeight - 1);
      }
    }

    ghost predicate AboutToInvoke(stackHeight: nat)
      reads this, messages, items
    {
      && stackHeight >= 1 && Linked() && 0 < messages.pos <= |messages.messages|
      && (stackHeight == 1 <==> pos == 0) && pos < |instructions|
      && instructions[pos].programIdIndex < |tx.accounts|
      && messages.messages[messages.pos - 1] == Message.Invoke(tx.accounts[instructions[pos].programIdIndex], stackHeight)
      && (instructions[pos].stackHeight.Some? ==> instructions[pos].stackHeight.value == stackHeight)
      && var s := Now(messages.pos - 1);
         s.scan.Brackets? && |s.scan.open| == stackHeight - 1 && Attributed(Source(), s, stackHeight - 1)
    }

    /** Handles the current instruction, whose `invoke` has just been passed, up to its result. */
    method Invoke(stackHeight: nat) returns (r: Outcome)
      requires AboutToInvoke(stackHeight) && instructionIndex <= tx.erroredInstruction
      modifies this`pos, this`lastAddress, this`addresses, items, messages
      ensures r.Ok? ==> Attested(stackHeight - 1) && pos > old(pos) && Remaining() <= old(Remaining())
      ensures r.Ok? ==> var open := old(Now(messages.pos - 1).scan.open);
                        if messages.Truncated() then open <= Open() else Open() == open
      ensures Extends(old(Now(messages.pos - 1)))
      ensures EntersOr(old(Hindered(stackHeight)), old(OnwardFrom(Cursor(messages.pos, Depths() + [stackHeight]))), r)
      decreases Remaining(), 0
    {
      hide Attributed, ScanTo, Step, Linked, Walk, Hindered, DepthsOf, DepthOf;
      var start := pos;
      r := PushClaiming(stackHeight);
      if r.Fail? { return; }
      r := RunCall(|items.instructions| - 1, start, stackHeight);
    }

    /** Takes the messages of the running call up to and including its result. */
    method RunCall(at: nat, start: nat, stackHeight: nat) returns (r: Outcome)
      requires Running(at, stackHeight) && at + 1 == |items.instructions|
      requires instructionIndex <= tx.erroredInstruction && start < pos
      requires |items.instructions[at].instructionAddress| == stackHeight
      modifies this`pos, this`lastAddress, this`addresses, items, messages
      ensures r.Ok? ==> Attested(stackHeight - 1) && pos >= old(pos) && Remaining() <= old(Remaining())
      ensures r.Ok? ==> var open := old(Open())[..stackHeight - 1];
                        if messages.Truncated() then open <= Open() else Open() == open
      ensures Extends(old(Now(messages.pos)).(out := old(items.instructions)[..at]))
      ensures OnTheWay(old(Onward()), r)
      decreases Remaining(), 5
    {
      hide Attributed, ScanTo, Step, Linked, Walk, DepthsOf, DepthOf;
      r := TakeInstructionMessages(at, start, stackHeight);
      if r.Fail? { return; }
      r := FinishInvoke(at, start, stackHeight);
    }

    /** Emits the current instruction as the owner of the bracket just opened. */
    method PushClaiming(stackHeight: nat) returns (r: Outcome)
      requires AboutToInvoke(stackHeight) && instructionIndex <= tx.erroredInstruction
      modifies this`pos, this`lastAddress, this`addresses, items`instructions, messages`claims, messages`owners
      ensures r.Ok? ==> pos == old(pos) + 1 && |items.instructions| == |old(items.instructions)| + 1
      ensures r.Ok? ==> Running(|items.instructions| - 1, stackHeight)
      ensures r.Ok? ==> |items.instructions[|items.instructions| - 1].instructionAddress| == stackHeight
      ensures r.Ok? ==> Open()[..stackHeight - 1] == old(Now(messages.pos - 1).scan.open)
      ensures Extends(old(Now(messages.pos - 1)))
      ensures r == old(Hindered(stackHeight)) && (r.Ok? ==> Depths() == old(Depths()) + [stackHeight])
    {
      hide Attributed, ScanTo, Step, Linked, HeightFits, Hindered, DepthsOf, DepthOf, IsHere;
      ghost var s := Now(messages.pos - 1);
      OwnersAreEmitted(Source(), s, stackHeight - 1);
      LinkedFits();
      r := Push(stackHeight);
      if r.Ok? {
        assert items.instructions[..|s.out|] == s.out;
        ClaimLatest(s, stackHeight);
      }
    }

    /** Makes the latest instruction the owner of the bracket opened at `s.p`. */
    ghost method ClaimLatest(s: Moment, stackHeight: nat)
      requires 0 < messages.pos <= |messages.messages| && Linked()
      requires s.p == messages.pos - 1 && s.scan == ScanTo(messages.messages, s.p) && s.scan.Brackets?
      requires |s.scan.open| == stackHeight - 1 && Attributed(Source(), s, stackHeight - 1)
      requires |items.instructions| == |s.out| + 1 && s.out == items.instructions[..|s.out|] && items.logs == s.logs
      requires messages.claims == s.claims && messages.owners == s.owners && first <= |s.out|
      requires var ins := items.instructions[|s.out|];
        && messages.messages[s.p] == Message.Invoke(ins.programId, stackHeight)
        && |ins.instructionAddress| == stackHeight
        && !ins.hasDroppedLogMessages && ins.error == None && ins.computeUnitsConsumed == None
      modifies messages`claims, messages`owners
      ensures Running(|s.out|, stackHeight) && Open() == s.scan.open + [s.p]
      ensures messages.owners == s.owners[|s.out| := s.p]
    {
      assert base <= first && first + pos == |items.instructions| && pos <= |instructions|;
      hide Attributed, ScanTo, Step, Linked, DepthsOf, DepthOf;
      messages.claims := messages.claims[s.p := |s.out|];
      messages.owners := messages.owners[|s.out| := s.p];
      EnterCall(s, |s.out|, stackHeight);
    }

    /** The running instruction has the program of the innermost bracket. */
    lemma RunsProgram(at: nat, stackHeight: nat)
      requires Running(at, stackHeight)
      ensures OpenAt(messages.messages, messages.pos) == Open() != []
      ensures RunningAt(messages.messages, messages.pos) == items.instructions[at].programId
    {
      hide ScanTo, Step, Linked, Attributed, DepthsOf, DepthOf;
      OwnerIsClaimed(Source(), Now(messages.pos), stackHeight, at);
    }

    /** What a message that is no call means for the running instruction at `at`. */
    lemma MessageMeans(at: nat, stackHeight: nat)
      requires Running(at, stackHeight) && pos > 0 && !messages.Truncated()
      requires messages.Ended() || !messages.messages[messages.pos].Invoke?
      ensures if messages.Ended() then Onward() == Stuck(ParsingError("unexpected end of log"))
              else
                match messages.messages[messages.pos]
                case Text(_, _) => Onward() == OnwardFrom(Here().(q := messages.pos + 1))
                case ComputeUnits(programId, _) =>
                  if programId == items.instructions[at].programId
                  then Onward() == OnwardFrom(Here().(q := messages.pos + 1))
                  else Onward() == Stuck(ParsingError("unexpected programId in compute unit message"))
                case InvokeResult(programId, error) =>
                  if programId != items.instructions[at].programId
                  then Onward() == Stuck(ParsingError("invoke result message and instruction program ids don't match"))
                  else
                    (match Eat(TheCourse(), Depths(), stackHeight, !Truthy(error))
                     case At(hs) => Onward() == OnwardFrom(Cursor(messages.pos + 1, hs))
                     case Lost(failure) => Onward() == Stuck(failure))
                case _ => true
    {
      hide ScanTo, Step, Linked, Attributed, Walk, Eat, Enter, Finished, OpenAt, DepthsOf, DepthOf;
      RunsProgram(at, stackHeight);
      WalkOn(TheCourse(), Here());
    }

    lemma StartIsKnown(start: nat)
      requires Linked() && start < pos
      ensures start < |instructions| && tx.Knows(instructions[start])
    {
      hide Numbered;
    }

    /** Reads the result of a call, or marks the call when the log has been cut. */
    method FinishInvoke(at: nat, start: nat, stackHeight: nat) returns (r: Outcome)
      requires stackHeight >= 1 && Attested(stackHeight) && instructionIndex <= tx.erroredInstruction
      requires start < pos && first <= at < |items.instructions|
      requires |items.instructions[at].instructionAddress| == stackHeight
      requires stackHeight <= |Open()| && Lookup(messages.owners, at) == Some(Open()[stackHeight - 1])
      requires !messages.Truncated() ==>
                 |Open()| == stackHeight && (messages.Ended() || messages.messages[messages.pos].InvokeResult?)
      modifies this`pos, this`lastAddress, this`addresses, items`instructions, messages`pos
      ensures r.Ok? ==> Attested(stackHeight - 1) && pos >= old(pos)
      ensures r.Ok? ==> if messages.Truncated() && old(messages.Truncated()) then Open() == old(Open())
                        else Open() == old(Open())[..stackHeight - 1]
      ensures at <= |items.instructions| && items.instructions[..at] == old(items.instructions[..at])
      ensures messages.pos >= old(messages.pos)
      ensures OnTheWay(old(Onward()), r)
    {
      hide Attributed, ScanTo, Step, Linked, Walk, Eat, Move, OpenAt, DepthsOf, DepthOf;
      ghost var s := Now(messages.pos);
      if messages.Truncated() {
        TruncateCall(Source(), s, stackHeight - 1, at);
        Annotate(at, items.instructions[at].(hasDroppedLogMessages := true));
        assert Now(messages.pos) == s.(out := items.instructions);
        return Ok;
      }
      MessageMeans(at, stackHeight);
      StartIsKnown(start);
      if messages.Ended() {
        return Fail(Complaint(tx, instructions[start], "unexpected end of log"));
      }
      var result := messages.messages[messages.pos];
      if result.programId != items.instructions[at].programId {
        return Fail(Complaint(tx, instructions[start], "invoke result message and instruction program ids don't match"));
      }
      TakeResultMessage(at, stackHeight);
      // consume the inner calls that the log did not mention
      r := EatInvokeLessSubCalls(at, stackHeight - 1);
    }

    method TakeResultMessage(at: nat, ghost stackHeight: nat)
      requires Running(at, stackHeight) && !messages.Ended() && messages.messages[messages.pos].InvokeResult?
      requires messages.messages[messages.pos].programId == items.instructions[at].programId
      modifies items`instructions, messages`pos
      ensures Attested(stackHeight - 1) && Open() == old(Open())[..stackHeight - 1] && messages.pos == old(messages.pos) + 1
      ensures |items.instructions| == |old(items.instructions)| && items.instructions[..at] == old(items.instructions[..at])
      ensures items.instructions[at].instructionAddress == old(items.instructions[at].instructionAddress)
      ensures items.instructions[at].error == messages.messages[old(messages.pos)].error
    {
      hide Attributed, ScanTo, Step, Numbered, Renders, Linked, DepthsOf, DepthOf;
      ghost var s := Now(messages.pos);
      CloseCall(Source(), s, stackHeight, at);
      ScanNext(messages.messages, messages.pos);
      Annotate(at, items.instructions[at].(error := messages.messages[messages.pos].error));
      var _ := messages.Advance();
      assert Now(messages.pos) == Recorded(Source(), s, at, items.instructions[at]);
    }

    /** Emits inner calls the log did not mention, up to the next call at or above the level of `parent`. */
    method EatInvokeLessSubCalls(parent: nat, ghost level: nat) returns (r: Outcome)
      requires Attested(level) && instructionIndex <= tx.erroredInstruction
      requires parent < |items.instructions|
      modifies this`pos, this`lastAddress, this`addresses, items`instructions
      ensures r.Ok? ==> Attested(level) && pos >= old(pos)
      ensures var ins := old(items.instructions[parent]);
              match old(Eat(TheCourse(), Depths(), |ins.instructionAddress|, !Truthy(ins.error)))
              case At(hs) => r.Ok? && Depths() == hs
              case Lost(failure) => r == Fail(failure)
      ensures r.Ok? ==>
                var ins := old(items.instructions[parent]);
                && Stops(instructions, pos, |ins.instructionAddress|, !Truthy(ins.error))
                && old(addresses) <= addresses && DeeperThan(addresses[|old(addresses)|..], |ins.instructionAddress|)
      ensures old(items.instructions) <= items.instructions
    {
      hide Attributed, ScanTo, Step, Linked, HeightFits, DeeperThan, DepthsOf, DepthOf;
      NoneDeeper(addresses, |items.instructions[parent].instructionAddress|);
      var depth, failed := |items.instructions[parent].instructionAddress|, Truthy(items.instructions[parent].error);
      while pos < |instructions|
        invariant Attested(level) && pos >= old(pos)
        invariant old(items.instructions) <= items.instructions
        invariant Eat(TheCourse(), Depths(), depth, !failed) == old(Eat(TheCourse(), Depths(), depth, !failed))
        invariant old(addresses) <= addresses && DeeperThan(addresses[|old(addresses)|..], depth)
        decreases |instructions| - pos
      {
        var stackHeight := match instructions[pos].stackHeight
          case None => if failed then depth + 1 else 2
          case Some(height) => height;
        if stackHeight <= depth { return Ok; }
        ghost var soFar := addresses;
        r := PushDropped(stackHeight, level);
        if r.Fail? { return; }
        OneDeeper(soFar, |old(addresses)|, lastAddress, depth);
      }
      return Ok;
    }

    static lemma NoneDeeper(addrs: seq<Address>, depth: nat)
      ensures DeeperThan(addrs[|addrs|..], depth)
    {
    }

    static lemma OneDeeper(addrs: seq<Address>, n: nat, next: Address, depth: nat)
      requires n <= |addrs| && DeeperThan(addrs[n..], depth) && |next| > depth
      ensures DeeperThan((addrs + [next])[n..], depth)
    {
    }

    lemma EnterCall(s: Moment, at: nat, stackHeight: nat)
      requires 0 < messages.pos <= |messages.messages|
      requires s.p == messages.pos - 1 && s.scan == ScanTo(messages.messages, s.p) && s.scan.Brackets?
      requires |s.scan.open| == stackHeight - 1 && Attributed(Source(), s, stackHeight - 1)
      requires at == |s.out| && |items.instructions| == at + 1 && s.out == items.instructions[..at] && items.logs == s.logs
      requires messages.claims == s.claims[s.p := at] && messages.owners == s.owners[at := s.p]
      requires var ins := items.instructions[at];
        && messages.messages[s.p] == Message.Invoke(ins.programId, stackHeight)
        && |ins.instructionAddress| == stackHeight
        && !ins.hasDroppedLogMessages && ins.error == None && ins.computeUnitsConsumed == None
      ensures ScanTo(messages.messages, messages.pos).Brackets?
      ensures Attributed(Source(), Now(messages.pos), stackHeight)
      ensures Open() == s.scan.open + [s.p]
    {
      hide Attributed, DepthsOf, DepthOf;
      AddClaimed(Source(), s, items.instructions[at]);
      assert Now(messages.pos) == Claim(Source(), s, items.instructions[at]);
    }

    /** The instruction at `at` owns the innermost bracket, at depth `stackHeight`. */
    ghost predicate Running(at: nat, stackHeight: nat)
      reads this, messages, items
    {
      && stackHeight >= 1 && Attested(stackHeight) && |Open()| == stackHeight
      && first <= at < |items.instructions|
      && Lookup(messages.owners, at) == Some(Open()[stackHeight - 1])
    }

    method TakeTextMessage(at: nat, ghost stackHeight: nat)
      requires Running(at, stackHeight) && !messages.Ended() && messages.messages[messages.pos].Text?
      modifies items`logs, messages`pos
      ensures Running(at, stackHeight) && Open() == old(Open()) && messages.pos == old(messages.pos) + 1
      ensures old(items.logs) <= items.logs
    {
      hide Attributed, ScanTo, Step, Numbered, Renders, DepthsOf, DepthOf;
      ghost var s := Now(messages.pos);
      var ins, text := items.instructions[at], messages.messages[messages.pos];
      var entry := LogMessage(tx.transactionIndex, messages.pos, ins.instructionAddress, ins.programId, text.kind, text.message);
      OwnerIsClaimed(Source(), s, stackHeight, at);
      TakeText(Source(), s, stackHeight, entry);
      ScanNext(messages.messages, messages.pos);
      items.logs := items.logs + [entry];
      var _ := messages.Advance();
      assert Now(messages.pos) == s.(p := s.p + 1, scan := Step(s.scan, messages.messages, s.p), logs := s.logs + [entry]);
    }

    method TakeUnitsMessage(at: nat, ghost stackHeight: nat)
      requires Running(at, stackHeight) && !messages.Ended() && messages.messages[messages.pos].ComputeUnits?
      requires messages.messages[messages.pos].programId == items.instructions[at].programId
      modifies items`instructions, messages`pos
      ensures Running(at, stackHeight) && Open() == old(Open()) && messages.pos == old(messages.pos) + 1
      ensures |items.instructions| == |old(items.instructions)| && items.instructions[..at] == old(items.instructions[..at])
      ensures items.instructions[at].instructionAddress == old(items.instructions[at].instructionAddress)
      ensures items.instructions[at].programId == old(items.instructions[at].programId)
    {
      hide Attributed, ScanTo, Step, Numbered, Renders, DepthsOf, DepthOf;
      ghost var s := Now(messages.pos);
      TakeUnits(Source(), s, stackHeight, at);
      ScanNext(messages.messages, messages.pos);
      Annotate(at, items.instructions[at].(computeUnitsConsumed := Some(messages.messages[messages.pos].consumed)));
      var _ := messages.Advance();
      assert Now(messages.pos) == s.(p := s.p + 1, scan := Step(s.scan, messages.messages, s.p), out := items.instructions);
    }

    /** Gives the messages up to the result of the call to the instruction at `at`; inner calls take theirs. */
    method TakeInstructionMessages(at: nat, start: nat, stackHeight: nat) returns (r: Outcome)
      requires Running(at, stackHeight) && at + 1 == |items.instructions|
      requires instructionIndex <= tx.erroredInstruction && start < pos
      requires |items.instructions[at].instructionAddress| == stackHeight
      modifies this`pos, this`lastAddress, this`addresses, items, messages
      ensures r.Ok? ==> Attested(stackHeight) && pos >= old(pos) && Remaining() <= old(Remaining())
      ensures r.Ok? ==> stackHeight <= |Open()| && Open()[..stackHeight] == old(Open())
      ensures r.Ok? && !messages.Truncated() ==>
                |Open()| == stackHeight && (messages.Ended() || messages.messages[messages.pos].InvokeResult?)
      ensures Extends(old(Now(messages.pos)).(out := old(items.instructions)[..at]))
      ensures at < |items.instructions|
              && items.instructions[at].instructionAddress == old(items.instructions[at].instructionAddress)
      ensures OnTheWay(old(Onward()), r)
      decreases Remaining(), 4
    {
      hide Attributed, ScanTo, Step, Linked, Walk, DepthsOf, DepthOf;
      ghost var was := Now(messages.pos).(out := items.instructions[..at]);
      var address := items.instructions[at].instructionAddress;
      while !messages.Ended() && !messages.messages[messages.pos].InvokeResult?
        invariant Attested(stackHeight) && pos >= old(pos) && Remaining() <= old(Remaining())
        invariant stackHeight <= |Open()| && Open()[..stackHeight] == old(Open())
        invariant messages.Truncated() || |Open()| == stackHeight
        invariant Extends(was) && Onward() == old(Onward())
        invariant at < |items.instructions| && items.instructions[at].instructionAddress == address
        decreases Remaining()
      {
        assert Running(at, stackHeight);
        r := TakeMessage(at, start, stackHeight);
        if r.Fail? { return; }
      }
      return Ok;
    }

    /** Takes one message of the running call, or a whole inner call. */
    method TakeMessage(at: nat, start: nat, stackHeight: nat) returns (r: Outcome)
      requires Running(at, stackHeight) && !messages.Ended() && !messages.messages[messages.pos].InvokeResult?
      requires instructionIndex <= tx.erroredInstruction && start < pos
      requires |items.instructions[at].instructionAddress| == stackHeight
      modifies this`pos, this`lastAddress, this`addresses, items, messages
      ensures r.Ok? ==> Attested(stackHeight) && pos >= old(pos) && Remaining() < old(Remaining())
      ensures r.Ok? ==> stackHeight <= |Open()| && Open()[..stackHeight] == old(Open())
      ensures r.Ok? ==> messages.Truncated() || |Open()| == stackHeight
      ensures Extends(old(Now(messages.pos)).(out := old(items.instructions)[..at]))
      ensures at < |items.instructions|
              && items.instructions[at].instructionAddress == old(items.instructions[at].instructionAddress)
      ensures OnTheWay(old(Onward()), r)
      decreases Remaining(), 3
    {
      hide Attributed, ScanTo, Step, Linked, Walk, Move, OpenAt, Eat, DepthsOf, DepthOf, IsHere, OnwardFrom;
      if !messages.messages[messages.pos].Invoke? { MessageMeans(at, stackHeight); }
      StartIsKnown(start);
      r := Ok;
      match messages.messages[messages.pos]
      case Text(_, _) =>
        TakeTextMessage(at, stackHeight);
      case ComputeUnits(program, _) =>
        if program != items.instructions[at].programId {
          return Fail(Complaint(tx, instructions[start], "unexpected programId in compute unit message"));
        }
        TakeUnitsMessage(at, stackHeight);
      case Invoke(_, _) =>
        r := Call(|items.instructions[at].instructionAddress| + 1);
    }

    /** Emits what is left, at given heights or right below the top level. */
    method FinishLogLess() returns (r: Outcome)
      requires Attested(0) && instructionIndex <= tx.erroredInstruction
      modifies this`pos, this`lastAddress, this`addresses, items`instructions
      ensures r.Ok? ==> Attested(0) && pos == |instructions|
      ensures old(items.instructions) <= items.instructions
      ensures match old(Finish(TheCourse(), Depths()))
              case At(hs) => r.Ok? && Depths() == hs
              case Lost(failure) => r == Fail(failure)
    {
      hide Attributed, ScanTo, Step, Linked, HeightFits, DepthsOf, DepthOf;
      while pos < |instructions|
        invariant Attested(0) && pos >= old(pos)
        invariant old(items.instructions) <= items.instructions
        invariant Finish(TheCourse(), Depths()) == old(Finish(TheCourse(), Depths()))
        decreases |instructions| - pos
      {
        r := PushDropped(HeightOr2(instructions[pos]), 0);
        if r.Fail? { return; }
      }
      return Ok;
    }

    lemma LinkedCount()
      requires Linked()
      ensures |addresses| == pos
    {
    }

    lemma AllListed()
      requires Linked() && pos == |instructions|
      ensures first <= |items.instructions| && Lists(tx, instructions, items.instructions[first..], addresses)
      ensures Numbered([instructionIndex - 1], addresses)
      ensures forall a <- addresses :: a != [] && a[0] == instructionIndex
    {
      hide Numbered, Renders;
    }

    /** At the top level, or with the log cut, only what is left is to be emitted. */
    lemma OnlyTheRest()
      requires Within(TheCourse(), Here()) && (messages.Truncated() || Open() == [])
      requires |Depths()| == pos
      requires pos == 0 ==>
                 && messages.Truncated() && instructions != [] && instructions[0].stackHeight == Some(1)
                 && instructions[0].programIdIndex < |tx.accounts|
      ensures Onward() == match Finish(TheCourse(), Depths())
                          case At(hs) => Through(messages.pos, hs)
                          case Lost(failure) => Stuck(failure)
    {
      hide ScanTo, Walk, Finish, Close;
      WalkOn(TheCourse(), Here());
    }

    method Traverse() returns (r: Outcome)
      requires pos == 0 && Attested(0) && instructions[0].stackHeight == Some(1)
      requires messages.Truncated() || Open() == []
      modifies this`pos, this`lastAddress, this`addresses, items, messages
      ensures r.Ok? ==> Attested(0) && pos == |instructions| && (messages.Truncated() || Open() == [])
      ensures Extends(old(Now(messages.pos)))
      ensures match old(CourseFate(TheCourse(), instructionIndex, messages.pos))
              case Through(q, hs) => r.Ok? && Here() == Cursor(q, hs)
              case Stuck(failure) => r == Fail(failure)
      ensures old(messages.Truncated()) ==> unchanged(messages) && items.logs == old(items.logs)
    {
      hide Attributed, ScanTo, Step, Linked, Walk, Finish, HeightFits, TransactionContext.Knows, Move, DepthsOf, DepthOf;
      StartsBelow();
      if tx.erroredInstruction >= instructionIndex {
        r := TraverseByLog();
        if r.Fail? { return; }
      } else {
        if |instructions| != 1 {
          return Fail(Complaint(tx, instructions[0], "failed instructions should not have inner calls"));
        }
        ghost var s := Now(messages.pos);
        r := Push(1);
        if r.Fail? { return; }
        AddUnclaimed(Source(), s, 0, items.instructions[|items.instructions| - 1]);
        assert Now(messages.pos) == s.(out := items.instructions);
        LinkedCount();
      }
      // the closing check of the original, that all instructions have been consumed, cannot fail
      assert pos == |instructions|;
      return Ok;
    }

    /** The call of the first instruction, and what the log leaves of the group. */
    method TraverseByLog() returns (r: Outcome)
      requires pos == 0 && Attested(0) && instructions[0].stackHeight == Some(1)
      requires instructionIndex <= tx.erroredInstruction && (messages.Truncated() || Open() == [])
      modifies this`pos, this`lastAddress, this`addresses, items, messages
      ensures r.Ok? ==> Attested(0) && pos == |instructions| && (messages.Truncated() || Open() == [])
      ensures Extends(old(Now(messages.pos)))
      ensures match old(Onward())
              case Through(q, hs) => r.Ok? && Here() == Cursor(q, hs)
              case Stuck(failure) => r == Fail(failure)
      ensures old(messages.Truncated()) ==> unchanged(messages) && items.logs == old(items.logs)
    {
      hide Attributed, ScanTo, Step, Linked, Walk, Finish, HeightFits, TransactionContext.Knows, Move, DepthsOf, DepthOf;
      StartsBelow();
      r := Call(1);
      if r.Fail? { return; }
      OnlyTheRest();
      r := FinishLogLess();
    }

    lemma StartsBelow()
      requires Linked() && pos == 0
      ensures instructions != [] && |lastAddress| == 1 && addresses == []
    {
    }
  }

  // ---------- Depths ----------

  function DepthsOf(addrs: seq<Address>): (hs: seq<nat>)
    ensures |hs| == |addrs|
  {
    seq(|addrs|, i requires 0 <= i < |addrs| => |addrs[i]|)
  }

  lemma DepthsMore(addrs: seq<Address>, next: Address)
    ensures DepthsOf(addrs + [next]) == DepthsOf(addrs) + [|next|]
  {
  }

  lemma DepthsConcat(a: seq<Address>, b: seq<Address>)
    ensures DepthsOf(a + b) == DepthsOf(a) + DepthsOf(b)
  {
  }

  // ---------- A whole transaction ----------

  /** `out` holds the instructions of `list`, one entry each and in order, at the addresses `addrs`. */
  ghost predicate Lists(context: TransactionContext, list: seq<RpcInstruction>, out: seq<Instruction>, addrs: seq<Address>) {
    && |out| == |addrs| == |list|
    && forall k :: 0 <= k < |list| ==> Renders(context, list[k], out[k]) && out[k].instructionAddress == addrs[k]
  }

  lemma ListsConcat(context: TransactionContext, a: seq<RpcInstruction>, outA: seq<Instruction>, addrsA: seq<Address>,
                    b: seq<RpcInstruction>, outB: seq<Instruction>, addrsB: seq<Address>)
    requires Lists(context, a, outA, addrsA) && Lists(context, b, outB, addrsB)
    ensures Lists(context, a + b, outA + outB, addrsA + addrsB)
  {
    hide Renders;
  }

  /** The numbering has reached top-level number `n - 1`, and each group starts with its own top-level address. */
  ghost predicate Rooted(tx: RpcTransaction, n: nat, addrs: seq<Address>)
    requires n <= |tx.instructions|
  {
    && Numbered([-1], addrs)
    && Latest([-1], addrs) != [] && Latest([-1], addrs)[0] == n - 1
    && forall i {:trigger Executed(tx, i)} :: 0 <= i < n ==>
         |Executed(tx, i)| < |addrs| && addrs[|Executed(tx, i)|] == [i]
  }

  ghost predicate Mapped(tx: RpcTransaction, n: nat, out: seq<Instruction>, addrs: seq<Address>)
    requires n <= |tx.instructions|
  {
    Lists(tx.context, Executed(tx, n), out, addrs) && Rooted(tx, n, addrs)
  }

  lemma RootGroup(tx: RpcTransaction, n: nat, addrs: seq<Address>, more: seq<Address>)
    requires n < |tx.instructions| && Rooted(tx, n, addrs) && |addrs| == |Executed(tx, n)|
    requires Numbered([n - 1], more) && more != []
    requires forall a <- more :: a != [] && a[0] == n
    ensures Rooted(tx, n + 1, addrs + more)
  {
    Rebase(Latest([-1], addrs), [n - 1], more, n);
    NumberedConcat([-1], addrs, more);
    hide Numbered, Executed;
    var all := addrs + more;
    assert all[|all| - 1] == more[|more| - 1] && more[|more| - 1] in more;
    forall i {:trigger Executed(tx, i)} | 0 <= i < n + 1 ensures |Executed(tx, i)| < |all| && all[|Executed(tx, i)|] == [i] {
    }
  }

  lemma MapGroup(tx: RpcTransaction, n: nat, out: seq<Instruction>, addrs: seq<Address>,
                 added: seq<Instruction>, more: seq<Address>)
    requires n < |tx.instructions| && Mapped(tx, n, out, addrs)
    requires Lists(tx.context, Group(tx, n), added, more) && Numbered([n - 1], more)
    requires forall a <- more :: a != [] && a[0] == n
    ensures Mapped(tx, n + 1, out + added, addrs + more)
  {
    RootGroup(tx, n, addrs, more);
    ListsConcat(tx.context, Executed(tx, n), out, addrs, Group(tx, n), added, more);
    hide Lists, Rooted;
  }

  /** How a transaction came to be mapped: with its own log or without, the final moment, the addresses. */
  datatype Parse = Parse(byLog: bool, msgs: seq<Message>, at: Moment, addrs: seq<Address>)

  ghost predicate Parsed(tx: RpcTransaction, before: seq<Instruction>, logsBefore: seq<LogMessage>,
                         out: seq<Instruction>, logs: seq<LogMessage>, hasDropped: bool, parse: Parse)
  {
    var m := parse.at;
    && before <= out && logsBefore <= logs && m.out == out && m.logs == logs
    && m.p <= |parse.msgs| && m.scan == ScanTo(parse.msgs, m.p) && m.scan.Brackets?
    && Attributed(Origin(tx.context, parse.msgs, |before|, |logsBefore|), m, 0)
    && Mapped(tx, |tx.instructions|, out[|before|..], parse.addrs)
    && if parse.byLog then
         && parse.msgs == tx.logMessages && FirstPass(tx) == Through(m.p, DepthsOf(parse.addrs))
         && if hasDropped then m.p < |parse.msgs| && parse.msgs[m.p].Truncate?
            else m.p == |parse.msgs| && m.scan.open == []
       else
         && parse.msgs == [Truncate] && m.p == 0 && hasDropped && logs == logsBefore
         && IsLogLess(tx) && DepthsOf(parse.addrs) == GivenHeights(Executed(tx, |tx.instructions|)) && FirstPass(tx).Stuck?
  }

  /** The items of a block collected so far. */
  class ItemMapping {
    var instructions: seq<Instruction>
    var logs: seq<LogMessage>

    constructor ()
      ensures instructions == [] && logs == []
    {
      instructions, logs := [], [];
    }

    ghost function Progress(messages: MessageStream): Moment
      requires messages.pos <= |messages.messages|
      reads this, messages
    {
      Moment(instructions, logs, messages.pos, ScanTo(messages.messages, messages.pos), messages.claims, messages.owners)
    }

    /** A boundary between top-level instructions: no bracket is open unless the log has been cut. */
    ghost predicate Between(tx: RpcTransaction, messages: MessageStream, base: nat, logBase: nat)
      reads this, messages
    {
      && messages.pos <= |messages.messages|
      && ScanTo(messages.messages, messages.pos).Brackets?
      && Attributed(Origin(tx.context, messages.messages, base, logBase), Progress(messages), 0)
      && (messages.Truncated() || ScanTo(messages.messages, messages.pos).open == [])
    }

    method TraverseGroup(tx: RpcTransaction, messages: MessageStream, i: nat, ghost base: nat, ghost logBase: nat,
                         ghost addrs: seq<Address>)
        returns (r: Outcome, ghost more: seq<Address>)
      requires i < |tx.instructions| && base <= |instructions| && Between(tx, messages, base, logBase)
      requires Mapped(tx, i, instructions[base..], addrs)
      modifies this, messages
      ensures old(instructions) <= instructions && old(logs) <= logs
      ensures r.Ok? ==> Between(tx, messages, base, logBase) && Mapped(tx, i + 1, instructions[base..], addrs + more)
      ensures match old(GroupFate(tx, i, messages.messages, messages.pos))
              case Through(q, hs) => r.Ok? && messages.pos == q && DepthsOf(more) == hs
              case Stuck(failure) => r == Fail(failure)
      ensures old(messages.Truncated()) ==> unchanged(messages) && logs == old(logs)
    {
      hide Attributed, ScanTo, Step, Numbered, Lists, Rooted, Renders, CourseFate;
      more := [];
      var traversal := new InstructionTreeTraversal(tx.context, messages, i, tx.instructions[i],
                                                    InnerOf(tx.innerInstructions, i), this, base, logBase);
      assert traversal.instructions == Group(tx, i);
      r := traversal.Traverse();
      if r.Ok? {
        more := traversal.addresses;
        ghost var added := instructions[traversal.first..];
        traversal.AllListed();
        MapGroup(tx, i, old(instructions[base..]), addrs, added, more);
        assert instructions[base..] == old(instructions[base..]) + added;
      }
    }

    method TraverseInstructions(tx: RpcTransaction, messages: MessageStream, ghost base: nat, ghost logBase: nat)
        returns (r: Outcome, ghost addrs: seq<Address>)
      requires base == |instructions| && logBase == |logs|
      requires messages.pos == 0 && messages.claims == map[] && messages.owners == map[]
      modifies this, messages
      ensures old(instructions) <= instructions && old(logs) <= logs
      ensures r.Ok? ==> Between(tx, messages, base, logBase)
                        && Mapped(tx, |tx.instructions|, instructions[base..], addrs)
      ensures match FateUpTo(tx, |tx.instructions|, messages.messages)
              case Through(q, hs) => r.Ok? && messages.pos == q && DepthsOf(addrs) == hs
              case Stuck(failure) => r == Fail(failure)
      ensures old(messages.Truncated()) ==> unchanged(messages) && logs == old(logs)
    {
      hide Attributed, ScanTo, Step, Lists, Rooted, Mapped, GroupFate, FateUpTo, DepthsOf;
      addrs := [];
      r := Ok;
      StartMapping(tx, messages, base, logBase);
      FateStarts(tx, messages.messages);
      for i := 0 to |tx.instructions|
        invariant r.Ok? && FateUpTo(tx, i, messages.messages) == Through(messages.pos, DepthsOf(addrs))
        invariant old(instructions) <= instructions && old(logs) <= logs
        invariant Between(tx, messages, base, logBase) && Mapped(tx, i, instructions[base..], addrs)
        invariant old(messages.Truncated()) ==> unchanged(messages) && logs == old(logs)
      {
        ghost var more;
        FateGoesOn(tx, i, messages.messages);
        r, more := TraverseGroup(tx, messages, i, base, logBase, addrs);
        if r.Fail? {
          StuckStays(tx, i + 1, |tx.instructions|, messages.messages);
          return;
        }
        DepthsConcat(addrs, more);
        addrs := addrs + more;
      }
    }

    lemma FateStarts(tx: RpcTransaction, msgs: seq<Message>)
      ensures FateUpTo(tx, 0, msgs) == Through(0, DepthsOf([]))
    {
    }

    lemma FateGoesOn(tx: RpcTransaction, i: nat, msgs: seq<Message>)
      requires i < |tx.instructions| && FateUpTo(tx, i, msgs).Through?
      ensures FateUpTo(tx, i + 1, msgs) == match GroupFate(tx, i, msgs, FateUpTo(tx, i, msgs).q)
                                           case Stuck(failure) => Stuck(failure)
                                           case Through(q, hs) => Through(q, FateUpTo(tx, i, msgs).hs + hs)
    {
      hide GroupFate;
    }

    lemma StartMapping(tx: RpcTransaction, messages: MessageStream, base: nat, logBase: nat)
      requires base == |instructions| && logBase == |logs|
      requires messages.pos == 0 && messages.claims == map[] && messages.owners == map[]
      ensures Between(tx, messages, base, logBase) && Mapped(tx, 0, instructions[base..], [])
    {
    }

    /**
     Maps one transaction.  A parsing error takes back everything emitted for the transaction and
     maps it again as if its log had been cut at the very beginning.
     */
    method ProcessTransaction(tx: RpcTransaction) returns (r: Outcome, hasDroppedLogMessages: bool, ghost parse: Parse)
      modifies this
      ensures r == Verdict(tx)
      ensures r.Ok? ==> Parsed(tx, old(instructions), old(logs), instructions, logs, hasDroppedLogMessages, parse)
      ensures r.Ok? ==> (parse.byLog <==> ToldByLog(tx, DepthsOf(parse.addrs)))
      ensures r.Ok? ==> (parse.byLog <==> exists hs :: ToldByLog(tx, hs))
    {
      hide ToldByLog, Attributed, ScanTo, Step, Mapped, Executed, FateUpTo;
      var insCheckPoint, logCheckPoint := |instructions|, |logs|;
      ghost var addrs;
      var messages := new MessageStream(tx.logMessages);
      hasDroppedLogMessages, parse := false, Parse(true, tx.logMessages, Progress(messages), []);
      r, addrs := TraverseInstructions(tx, messages, insCheckPoint, logCheckPoint);
      if r.Ok? {
        hasDroppedLogMessages := messages.Truncated();
        parse := Parse(true, tx.logMessages, Progress(messages), addrs);
        if !messages.Ended() {
          r := Fail(ParsingError("not all log messages where consumed"));
        }
      }
      forall hs ensures (FirstPass(tx).Through? && FirstPass(tx).hs == hs) <==> ToldByLog(tx, hs) {
        FirstPassIff(tx, hs);
      }
      if r.Fail? && r.failure.ParsingError? {
        hasDroppedLogMessages := true;
        instructions := instructions[..insCheckPoint];
        logs := logs[..logCheckPoint];
        messages := new MessageStream([Truncate]);
        CutLogIffLess(tx, |tx.instructions|);
        r, addrs := TraverseInstructions(tx, messages, insCheckPoint, logCheckPoint);
        if r.Ok? {
          parse := Parse(false, [Truncate], Progress(messages), addrs);
        }
      }
    }
  }

  // ---------- What a mapped transaction means ----------

  function AddressesOf(out: seq<Instruction>): seq<Address> {
    seq(|out|, k requires 0 <= k < |out| => out[k].instructionAddress)
  }

  /** Every instruction is emitted once and in order, under the preorder addresses of a forest of calls. */
  lemma TransactionIsAForest(tx: RpcTransaction, before: seq<Instruction>, logsBefore: seq<LogMessage>,
                             out: seq<Instruction>, logs: seq<LogMessage>, hasDropped: bool, parse: Parse)
    requires Parsed(tx, before, logsBefore, out, logs, hasDropped, parse)
    ensures var n := |tx.instructions|;
            && |out| == |before| + |Executed(tx, n)|
            && (forall k :: 0 <= k < |Executed(tx, n)| ==> Renders(tx.context, Executed(tx, n)[k], out[|before| + k]))
            && exists forest :: AddressesOf(out[|before|..]) == Preorder(forest, [], 0)
  {
    hide Attributed, ScanTo, Numbered, Renders, IsLogLess, FirstPass, GivenHeights, Executed, Preorder;
    var added := out[|before|..];
    assert AddressesOf(added) == parse.addrs;
    FirstIsRoot(tx, |tx.instructions|, parse.addrs);
    NumberedIffForest(parse.addrs, 0);
  }

  lemma FirstIsRoot(tx: RpcTransaction, n: nat, addrs: seq<Address>)
    requires n <= |tx.instructions| && Rooted(tx, n, addrs) && |addrs| == |Executed(tx, n)|
    ensures addrs != [] ==> |addrs[0]| == 1
  {
    if addrs != [] {
      assert |Executed(tx, 0)| == 0;
    }
  }

  /** The depths of the walk decide all addresses. */
  lemma WalkDecidesAddresses(tx: RpcTransaction, before: seq<Instruction>, logsBefore: seq<LogMessage>,
                             out: seq<Instruction>, logs: seq<LogMessage>, hasDropped: bool, parse: Parse)
    requires Parsed(tx, before, logsBefore, out, logs, hasDropped, parse)
    ensures var fate := if parse.byLog then FirstPass(tx) else SecondPass(tx);
            fate.Through? && AddressesOf(out[|before|..]) == Addressing([-1], fate.hs)
  {
    hide Attributed, ScanTo, Numbered, IsLogLess, Executed, FirstPass, FateUpTo;
    assert AddressesOf(out[|before|..]) == parse.addrs;
    HeightsDetermineNumbering([-1], parse.addrs, DepthsOf(parse.addrs));
    SecondPassIff(tx);
  }

  lemma SecondPassIff(tx: RpcTransaction)
    ensures IsLogLess(tx) ==> SecondPass(tx) == Through(0, GivenHeights(Executed(tx, |tx.instructions|)))
  {
    hide FateUpTo;
    CutLogIffLess(tx, |tx.instructions|);
  }

  /** When every stack height is given, the addresses do not depend on the log. */
  lemma HeightsDecideAddresses(tx: RpcTransaction, before: seq<Instruction>, logsBefore: seq<LogMessage>,
                               out: seq<Instruction>, logs: seq<LogMessage>, hasDropped: bool, parse: Parse)
    requires Parsed(tx, before, logsBefore, out, logs, hasDropped, parse)
    requires HeightsGiven(Executed(tx, |tx.instructions|)) || !parse.byLog
    ensures AddressesOf(out[|before|..]) == Addressing([-1], GivenHeights(Executed(tx, |tx.instructions|)))
  {
    hide Attributed, ScanTo, Numbered, IsLogLess, Executed, FirstPass;
    var list, added := Executed(tx, |tx.instructions|), out[|before|..];
    assert AddressesOf(added) == parse.addrs;
    forall k | 0 <= k < |parse.addrs| ensures |parse.addrs[k]| == GivenHeights(list)[k] {
      if parse.byLog {
        assert list[k] in list;
        assert Renders(tx.context, list[k], added[k]);
      } else {
        assert |parse.addrs[k]| == DepthsOf(parse.addrs)[k];
      }
    }
    HeightsDetermineNumbering([-1], parse.addrs, GivenHeights(list));
  }

  /** The bracket at `k` is claimed by an instruction of its program, as deep as it is, that ends the same way. */
  ghost predicate BelongsToOne(msgs: seq<Message>, m: Moment, base: nat, out: seq<Instruction>, k: nat) {
    && k < |msgs| && m.scan.Brackets? && k in m.scan.errors && k in m.claims && base <= m.claims[k] < |out|
    && var ins := out[m.claims[k]];
       && msgs[k] == Invoke(ins.programId, |ins.instructionAddress|)
       && ins.error == m.scan.errors[k] && !ins.hasDroppedLogMessages
  }

  /**
   A log that was read to its end is balanced, and its brackets are shared out among the instructions:
   each belongs to exactly one, of the same program, as deep as the bracket, ending the same way; an
   instruction without one is marked as having lost its messages, unless it never ran.
   */
  lemma WholeLogIsShared(tx: RpcTransaction, before: seq<Instruction>, logsBefore: seq<LogMessage>,
                         out: seq<Instruction>, logs: seq<LogMessage>, parse: Parse)
    requires Parsed(tx, before, logsBefore, out, logs, false, parse)
    ensures exists tree :: WellFormed(tree, None) && tx.logMessages == Print(tree, 0)
    ensures forall k :: 0 <= k < |tx.logMessages| && tx.logMessages[k].Invoke? ==>
              BelongsToOne(tx.logMessages, parse.at, |before|, out, k)
    ensures forall j :: |before| <= j < |out| && j !in parse.at.claims.Values ==>
              out[j].error == None && out[j].instructionAddress != []
              && (out[j].hasDroppedLogMessages <==> out[j].instructionAddress[0] <= tx.context.erroredInstruction)
    ensures forall k, l :: k in parse.at.claims && l in parse.at.claims && k < l ==> parse.at.claims[k] < parse.at.claims[l]
  {
    hide ScanTo, Mapped, Step;
    var m, msgs := parse.at, tx.logMessages;
    var c := Origin(tx.context, msgs, |before|, |logsBefore|);
    BalancedIffTree(msgs);
    EveryInvokeIsABracket(msgs, |msgs|);
    forall j <- m.owners ensures j in m.claims.Values {
      assert Lookup(m.claims, m.owners[j]) == Some(j) && m.owners[j] in m.claims.Keys;
    }
    forall k | 0 <= k < |msgs| && msgs[k].Invoke? ensures BelongsToOne(msgs, m, |before|, out, k) {
      assert IsOpening(msgs, |msgs|, k);
      assert Attested(c, m, 0, m.claims[k]);
    }
    forall j | |before| <= j < |out| && j !in m.claims.Values
      ensures out[j].error == None && out[j].instructionAddress != []
      ensures out[j].hasDroppedLogMessages <==> out[j].instructionAddress[0] <= tx.context.erroredInstruction
    {
      assert Attested(c, m, 0, j);
    }
  }

  /** `entry` is a text of the log, under the instruction that owns the innermost bracket around it. */
  ghost predicate BelongsToInnermost(msgs: seq<Message>, claims: map<nat, nat>, out: seq<Instruction>, entry: LogMessage) {
    && entry.logIndex < |msgs| && msgs[entry.logIndex] == Text(entry.kind, entry.message)
    && ScanTo(msgs, entry.logIndex).Brackets?
    && var open := ScanTo(msgs, entry.logIndex).open;
       && open != []
       && var k := open[|open| - 1];
          && k in claims && claims[k] < |out|
          && entry.instructionAddress == out[claims[k]].instructionAddress && |entry.instructionAddress| == |open|
          && entry.programId == out[claims[k]].programId && entry.programId == ProgramAt(msgs, k)
  }

  /** The `n`-th text of the scan is written in `entry`. */
  ghost predicate Writes(c: Origin, m: Moment, n: nat, entry: LogMessage) {
    m.p <= |c.msgs| && m.scan == ScanTo(c.msgs, m.p) && m.scan.Brackets? && n < |m.scan.texts| && Reports(c, m, m.scan.texts[n], entry)
  }

  /** An entry is there because the log was read, and is written by one of its texts. */
  lemma EntryIsWritten(tx: RpcTransaction, before: seq<Instruction>, logsBefore: seq<LogMessage>,
                       out: seq<Instruction>, logs: seq<LogMessage>, hasDropped: bool, parse: Parse, i: nat)
    requires Parsed(tx, before, logsBefore, out, logs, hasDropped, parse) && |logsBefore| <= i < |logs|
    ensures var c := Origin(tx.context, tx.logMessages, |before|, |logsBefore|);
            Writes(c, parse.at, i - |logsBefore|, logs[i]) && Attributed(c, parse.at, 0) && parse.at.out == out
  {
    hide ScanTo, Mapped, IsLogLess, FirstPass, Scanned, Claimed, AllAttested, Reports;
    var m := parse.at;
    var c, n := Origin(tx.context, parse.msgs, |before|, |logsBefore|), i - |logsBefore|;
    ScanNone(parse.msgs);
    assert Reports(c, m, m.scan.texts[n], logs[i]);
  }

  lemma ClaimantFits(c: Origin, m: Moment, k: nat)
    requires Attributed(c, m, 0) && k in m.claims
    ensures m.claims[k] < |m.out| && k < |c.msgs| && c.msgs[k].Invoke?
    ensures var ins := m.out[m.claims[k]]; c.msgs[k] == Invoke(ins.programId, |ins.instructionAddress|)
  {
    hide Reported, OpenAtDepth, ClaimsComplete, ClaimsAscend;
    assert Attested(c, m, 0, m.claims[k]);
  }

  /** The innermost bracket around a text is claimed by an instruction as deep as the brackets are. */
  lemma WriterIsInnermost(c: Origin, m: Moment, n: nat, entry: LogMessage)
    requires Attributed(c, m, 0) && Writes(c, m, n, entry)
    ensures BelongsToInnermost(c.msgs, m.claims, m.out, entry)
  {
    hide ScanTo, Attributed;
    var text := m.scan.texts[n];
    TextsBelongToInnermost(c.msgs, m.p, n);
    OpenBracketsAreAtDepth(c.msgs, text.at);
    ClaimantFits(c, m, text.owner);
  }

  lemma WritesInOrder(c: Origin, m: Moment, n: nat, previous: LogMessage, entry: LogMessage)
    requires n > 0 && Writes(c, m, n - 1, previous) && Writes(c, m, n, entry)
    ensures previous.logIndex < entry.logIndex
  {
    hide ScanTo;
    TextsAscend(c.msgs, m.p, n);
  }

  /** Log entries keep the order of the log, each under the instruction that wrote its text. */
  lemma EntryFollowsItsBracket(tx: RpcTransaction, before: seq<Instruction>, logsBefore: seq<LogMessage>,
                               out: seq<Instruction>, logs: seq<LogMessage>, hasDropped: bool, parse: Parse, i: nat)
    requires Parsed(tx, before, logsBefore, out, logs, hasDropped, parse) && |logsBefore| <= i < |logs|
    ensures BelongsToInnermost(tx.logMessages, parse.at.claims, out, logs[i])
    ensures i > |logsBefore| ==> logs[i - 1].logIndex < logs[i].logIndex
  {
    hide Parsed, Writes, Attributed, BelongsToInnermost;
    var c, n := Origin(tx.context, tx.logMessages, |before|, |logsBefore|), i - |logsBefore|;
    EntryIsWritten(tx, before, logsBefore, out, logs, hasDropped, parse, i);
    WriterIsInnermost(c, parse.at, n, logs[i]);
    if n > 0 {
      EntryIsWritten(tx, before, logsBefore, out, logs, hasDropped, parse, i - 1);
      WritesInOrder(c, parse.at, n, logs[i - 1], logs[i]);
    }
  }

  /** Of the log that was read, exactly the texts inside a bracket are reported. */
  lemma TextsInsideAreReported(tx: RpcTransaction, before: seq<Instruction>, logsBefore: seq<LogMessage>,
                               out: seq<Instruction>, logs: seq<LogMessage>, hasDropped: bool, parse: Parse, at: nat)
    requires Parsed(tx, before, logsBefore, out, logs, hasDropped, parse) && parse.byLog
    requires at < parse.at.p && tx.logMessages[at].Text?
    ensures ScanTo(tx.logMessages, at).Brackets?
    ensures ScanTo(tx.logMessages, at).open != []
            <==> exists i :: |logsBefore| <= i < |logs| && logs[i].logIndex == at
  {
    hide ScanTo, Step, Mapped, Claimed, AllAttested;
    var m := parse.at;
    var c := Origin(tx.context, parse.msgs, |before|, |logsBefore|);
    TextsAreComplete(tx.logMessages, m.p, at);
    if n :| 0 <= n < |m.scan.texts| && m.scan.texts[n].at == at {
      assert Reports(c, m, m.scan.texts[n], logs[|logsBefore| + n]);
    }
    if i :| |logsBefore| <= i < |logs| && logs[i].logIndex == at {
      assert Reports(c, m, m.scan.texts[i - |logsBefore|], logs[i]);
    }
  }
}
