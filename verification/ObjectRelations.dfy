/**
 The object layers of EVM and Solana: the calls of a block arrive in any order, each with nothing but its
 transaction index and its address, and are linked into trees again.
 */
module ObjectRelations {
  import opened CallAddresses
  import opened KeyOrder
  import opened Selections

  // ---------- Keys ----------

  /** Transaction index and address in one: keys are compared like addresses. */
  function KeyOf(transactionIndex: nat, address: Address): Address {
    [transactionIndex] + address
  }

  /** `b` lies inside of `a`. */
  predicate Inside(a: Address, b: Address) {
    a < b
  }

  /** `b` lies inside of `a`, or is `a`. */
  predicate Holds(a: Address, b: Address) {
    a <= b
  }

  predicate IsParentOf(a: Address, b: Address) {
    Inside(a, b) && |b| == |a| + 1
  }

  // ---------- What lies inside a call comes right after it ----------

  /** Where the scan from `j` for calls inside of call `i` stops. */
  function ScanEnd(keys: seq<Address>, i: nat, j: nat): (end: nat)
    requires i < j <= |keys|
    ensures j <= end <= |keys|
    ensures forall k :: j <= k < end ==> Inside(keys[i], keys[k])
    ensures end < |keys| ==> !Inside(keys[i], keys[end])
    decreases |keys| - j
  {
    if j < |keys| && Inside(keys[i], keys[j]) then ScanEnd(keys, i, j + 1) else j
  }

  lemma InsideIsLater(a: Address, b: Address)
    requires Inside(a, b)
    ensures Before(a, b)
  {
    assert DivergeAt(a, b, |a|);
  }

  /** Between a call and one inside of it there are only calls inside of it. */
  lemma InsideBetween(a: Address, b: Address, c: Address)
    requires Before(a, b) && Before(b, c) && Inside(a, c)
    ensures Inside(a, b)
  {
    var i :| DivergeAt(a, b, i);
    assert i < |a| ==> DivergeAt(c, b, i) by {
      assert c[..|a|] == a && (i < |a| ==> c[..i] == a[..i]);
    }
    BeforeIrreflexive(b, c);
    assert a == b[..i];
  }

  /** The scan finds exactly the calls inside, whatever is missing in between. */
  lemma ScanFindsInside(keys: seq<Address>, i: nat, j: nat)
    requires Increasing(keys) && i < |keys| && j < |keys|
    ensures Inside(keys[i], keys[j]) <==> i < j < ScanEnd(keys, i, i + 1)
  {
    var end := ScanEnd(keys, i, i + 1);
    if Inside(keys[i], keys[j]) {
      InsideIsLater(keys[i], keys[j]);
      if j < i {
        BeforeIrreflexive(keys[j], keys[i]);
      } else if end < j {
        InsideBetween(keys[i], keys[end], keys[j]);
      }
    }
  }

  /** The last of the first `n` calls that is the parent of call `m`, -1 if there is none. */
  function ParentIndex(keys: seq<Address>, m: nat, n: nat): (p: int)
    requires m < |keys| && n <= |keys|
    ensures -1 <= p < n
    ensures p >= 0 ==> IsParentOf(keys[p], keys[m])
    ensures p < 0 ==> forall k :: 0 <= k < n ==> !IsParentOf(keys[k], keys[m])
  {
    if n == 0 then -1
    else if IsParentOf(keys[n - 1], keys[m]) then n - 1
    else ParentIndex(keys, m, n - 1)
  }

  lemma ParentIsUnique(keys: seq<Address>, m: nat, p: nat)
    requires Increasing(keys) && m < |keys| && p < |keys|
    ensures ParentIndex(keys, m, |keys|) == p <==> IsParentOf(keys[p], keys[m])
  {
    var q := ParentIndex(keys, m, |keys|);
    KeysDiffer(keys);
    assert IsParentOf(keys[p], keys[m]) ==> keys[p] == keys[m][..|keys[m]| - 1];
    assert q >= 0 ==> keys[q] == keys[m][..|keys[m]| - 1];
  }

  lemma KeysDiffer(keys: seq<Address>)
    requires Increasing(keys)
    ensures forall i, j :: 0 <= i < |keys| && 0 <= j < |keys| && keys[i] == keys[j] ==> i == j
  {
    forall i, j | 0 <= i < j < |keys| ensures keys[i] != keys[j] {
      BeforeIrreflexive(keys[i], keys[j]);
    }
  }

  // ---------- Linking calls ----------

  class Transaction {
    const transactionIndex: nat
    var calls: seq<Call>

    constructor (transactionIndex: nat)
      ensures this.transactionIndex == transactionIndex && calls == []
    {
      this.transactionIndex, calls := transactionIndex, [];
    }
  }

  class LogMessage {
    const transactionIndex: nat
    const logIndex: nat
    const address: Address
    var transaction: Transaction?
    var call: Call?

    constructor (transactionIndex: nat, logIndex: nat, address: Address)
      ensures this.transactionIndex == transactionIndex && this.logIndex == logIndex && this.address == address
      ensures transaction == null && call == null
    {
      this.transactionIndex, this.logIndex, this.address := transactionIndex, logIndex, address;
      transaction, call := null, null;
    }

    function Key(): Address {
      KeyOf(transactionIndex, address)
    }
  }

  /** A trace of EVM, or an instruction of Solana. */
  class Call {
    const transactionIndex: nat
    const address: Address
    var transaction: Transaction?
    var parent: Call?
    var children: seq<Call>  // all calls inside of this one
    var logs: seq<LogMessage>

    constructor (transactionIndex: nat, address: Address)
      ensures this.transactionIndex == transactionIndex && this.address == address
      ensures transaction == null && parent == null && children == [] && logs == []
    {
      this.transactionIndex, this.address := transactionIndex, address;
      transaction, parent, children, logs := null, null, [], [];
    }

    function Key(): Address {
      KeyOf(transactionIndex, address)
    }
  }

  function Keys(calls: seq<Call>): (keys: seq<Address>)
    ensures |keys| == |calls| && forall i :: 0 <= i < |calls| ==> keys[i] == calls[i].Key()
  {
    seq(|calls|, i requires 0 <= i < |calls| => calls[i].Key())
  }

  function ParentOf(calls: seq<Call>, m: nat, n: nat): Call?
    requires m < |calls| && n <= |calls|
  {
    var p := ParentIndex(Keys(calls), m, n);
    if p < 0 then null else calls[p]
  }

  /** Every call has its parent, as far as it is among the first `n` calls. */
  ghost predicate ParentsUpTo(parents: seq<Call?>, calls: seq<Call>, n: nat)
    requires n <= |calls|
  {
    |parents| == |calls| && forall m :: 0 <= m < |calls| ==> parents[m] == ParentOf(calls, m, n)
  }

  /** ... and the calls between `i` and `j` also if it is call `i`. */
  ghost predicate AreParents(parents: seq<Call?>, calls: seq<Call>, i: nat, j: nat)
    requires i < |calls|
  {
    && |parents| == |calls|
    && forall m :: 0 <= m < |calls| ==> parents[m] == ParentOf(calls, m, if i < m < j then i + 1 else i)
  }

  /** Links call `i` to all calls inside of it. */
  method LinkInner(calls: seq<Call>, i: nat, outer: Call, ghost parents: seq<Call?>) returns (ghost newParents: seq<Call?>)
    requires Increasing(Keys(calls)) && i < |calls| && outer == calls[i] && outer.children == []
    requires ParentsUpTo(parents, calls, i) && forall m :: 0 <= m < |calls| ==> calls[m].parent == parents[m]
    modifies outer`children, calls`parent
    ensures outer.children == Range(calls, i + 1, ScanEnd(Keys(calls), i, i + 1))
    ensures ParentsUpTo(newParents, calls, i + 1) && |newParents| == |calls|
    ensures forall m :: 0 <= m < |calls| ==> calls[m].parent == newParents[m]
  {
    hide Increasing, ScanEnd, Inside, Range, AreParents, ParentsUpTo, Keys;
    ghost var keys := Keys(calls);
    NothingInside(calls, i, parents);
    newParents := parents;
    var j := i + 1;
    while j < |calls|
      invariant i < j <= |calls| && ScanEnd(keys, i, j) == ScanEnd(keys, i, i + 1)
      invariant outer.children == Range(calls, i + 1, j)
      invariant AreParents(newParents, calls, i, j) && |newParents| == |calls|
      invariant forall m :: 0 <= m < |calls| ==> calls[m].parent == newParents[m]
    {
      var next := calls[j];
      ScanStep(calls, i, j);
      if !Inside(outer.Key(), next.Key()) { break; }
      RangeMore(calls, i + 1, j);
      OneMoreParent(calls, i, j, newParents);
      DiffersFrom(calls, j);
      outer.children := outer.children + [next];
      if |next.address| == |outer.address| + 1 {
        next.parent := outer;
      }
      newParents := newParents[j := next.parent];
      j := j + 1;
    }
    ScanStep(calls, i, j);
    ParentsBeyond(calls, i, j, newParents);
  }

  lemma NothingInside(calls: seq<Call>, i: nat, parents: seq<Call?>)
    requires i < |calls| && ParentsUpTo(parents, calls, i)
    ensures AreParents(parents, calls, i, i + 1) && |parents| == |calls| && Range(calls, i + 1, i + 1) == []
  {
  }

  lemma OneMoreParent(calls: seq<Call>, i: nat, j: nat, parents: seq<Call?>)
    requires i < j < |calls| && Inside(calls[i].Key(), calls[j].Key()) && AreParents(parents, calls, i, j)
    ensures |parents| == |calls|
    ensures var parent := if |calls[j].address| == |calls[i].address| + 1 then calls[i] else parents[j];
            AreParents(parents[j := parent], calls, i, j + 1)
  {
    ParentStep(calls, i, j);
  }

  function Range(calls: seq<Call>, a: nat, b: nat): seq<Call>
    requires a <= b <= |calls|
  {
    calls[a..b]
  }

  lemma RangeMore(calls: seq<Call>, a: nat, b: nat)
    requires a <= b < |calls|
    ensures Range(calls, a, b + 1) == Range(calls, a, b) + [calls[b]]
  {
  }

  lemma ScanStep(calls: seq<Call>, i: nat, j: nat)
    requires i < j <= |calls|
    ensures j < |calls| && Inside(calls[i].Key(), calls[j].Key()) ==> ScanEnd(Keys(calls), i, j) == ScanEnd(Keys(calls), i, j + 1)
    ensures j == |calls| || !Inside(calls[i].Key(), calls[j].Key()) ==> ScanEnd(Keys(calls), i, j) == j
  {
  }

  lemma DiffersFrom(calls: seq<Call>, j: nat)
    requires Increasing(Keys(calls)) && j < |calls|
    ensures forall m :: 0 <= m < |calls| && m != j ==> calls[m] != calls[j]
  {
    KeysDiffer(Keys(calls));
  }

  lemma ParentStep(calls: seq<Call>, i: nat, m: nat)
    requires i < |calls| && m < |calls|
    ensures ParentOf(calls, m, i + 1)
         == if Inside(calls[i].Key(), calls[m].Key()) && |calls[m].address| == |calls[i].address| + 1 then calls[i]
            else ParentOf(calls, m, i)
  {
  }

  /** Outside of the range of calls inside of call `i` nothing has it as its parent. */
  lemma ParentsBeyond(calls: seq<Call>, i: nat, j: nat, parents: seq<Call?>)
    requires Increasing(Keys(calls)) && i < j <= |calls| && j == ScanEnd(Keys(calls), i, i + 1) && AreParents(parents, calls, i, j)
    ensures ParentsUpTo(parents, calls, i + 1)
  {
    forall m | 0 <= m < |calls| ensures parents[m] == ParentOf(calls, m, i + 1) {
      ScanFindsInside(Keys(calls), i, m);
      ParentStep(calls, i, m);
    }
  }

  // ---------- Transactions ----------

  /** The last transaction with the given index. */
  function WithIndex(transactions: seq<Transaction>, index: nat): (r: Transaction?)
    ensures r != null ==> r in transactions && r.transactionIndex == index
    ensures r == null ==> forall tx <- transactions :: tx.transactionIndex != index
  {
    if transactions == [] then null
    else if transactions[|transactions| - 1].transactionIndex == index then transactions[|transactions| - 1]
    else WithIndex(transactions[..|transactions| - 1], index)
  }

  function TxAt(txs: seq<Transaction?>, index: nat): Transaction? {
    if index < |txs| then txs[index] else null
  }

  ghost predicate InIndexOrder(transactions: seq<Transaction>) {
    forall i, j :: 0 <= i < j < |transactions| ==> transactions[i].transactionIndex <= transactions[j].transactionIndex
  }

  ghost predicate Indexed(txs: seq<Transaction?>, transactions: seq<Transaction>) {
    forall index: nat :: TxAt(txs, index) == WithIndex(transactions, index)
  }

  method IndexTransactions(transactions: seq<Transaction>) returns (txs: seq<Transaction?>)
    requires InIndexOrder(transactions)
    ensures Indexed(txs, transactions)
  {
    txs := seq(if transactions == [] then 0 else transactions[|transactions| - 1].transactionIndex + 1, _ => null);
    for n := 0 to |transactions|
      invariant transactions != [] ==> |txs| == transactions[|transactions| - 1].transactionIndex + 1
      invariant transactions == [] ==> txs == []
      invariant Indexed(txs, transactions[..n])
    {
      var tx := transactions[n];
      assert transactions[..n + 1][..n] == transactions[..n];
      txs := txs[tx.transactionIndex := tx];
    }
    assert transactions[..|transactions|] == transactions;
  }

  /** The calls of one transaction. */
  function Belonging(calls: seq<Call>, index: nat): seq<Call> {
    if calls == [] then []
    else
      var before, last := Belonging(calls[..|calls| - 1], index), calls[|calls| - 1];
      if last.transactionIndex == index then before + [last] else before
  }

  lemma OneMoreCall(calls: seq<Call>, i: nat, index: nat)
    requires i < |calls|
    ensures Belonging(calls[..i + 1], index)
         == Belonging(calls[..i], index) + if calls[i].transactionIndex == index then [calls[i]] else []
  {
    assert calls[..i + 1][..i] == calls[..i];
  }

  /** What has been set up for the first `n` calls. */
  ghost predicate ChildrenSet(calls: seq<Call>, n: nat, m: nat, children: seq<Call>)
    requires m < |calls|
  {
    children == if m < n then Range(calls, m + 1, ScanEnd(Keys(calls), m, m + 1)) else []
  }

  method LinkCalls(calls: seq<Call>, txs: seq<Transaction?>)
    requires Increasing(Keys(calls))
    requires forall index :: 0 <= index < |txs| && txs[index] != null ==> txs[index].transactionIndex == index && txs[index].calls == []
    requires forall m :: 0 <= m < |calls| ==> calls[m].transaction == null && calls[m].parent == null && calls[m].children == []
    modifies calls`transaction, calls`parent, calls`children, (set tx | tx in txs && tx != null)`calls
    ensures forall m :: 0 <= m < |calls| ==> ChildrenSet(calls, |calls|, m, calls[m].children)
    ensures forall m :: 0 <= m < |calls| ==> calls[m].parent == ParentOf(calls, m, |calls|)
    ensures forall m :: 0 <= m < |calls| ==> calls[m].transaction == TxAt(txs, calls[m].transactionIndex)
    ensures forall index :: 0 <= index < |txs| && txs[index] != null ==> txs[index].calls == Belonging(calls, index)
  {
    hide Increasing, ScanEnd, Inside, Range, AreParents, Keys, ParentOf, Belonging, ChildrenSet, ParentsUpTo;
    ghost var parents := NoParents(calls);
    NoChildren(calls);
    DiffersFromAll(calls);
    for i := 0 to |calls|
      invariant |parents| == |calls| && ParentsUpTo(parents, calls, i)
      invariant forall m :: 0 <= m < |calls| ==> calls[m].parent == parents[m]
      invariant forall m :: 0 <= m < |calls| ==> ChildrenSet(calls, i, m, calls[m].children)
      invariant forall m :: 0 <= m < |calls| ==>
                  calls[m].transaction == if m < i then TxAt(txs, calls[m].transactionIndex) else null
      invariant forall index :: 0 <= index < |txs| && txs[index] != null ==> txs[index].calls == Belonging(calls[..i], index)
    {
      var outer := calls[i];
      ChildrenStep(calls, i);
      BelongingStep(calls, i);
      var tx := TxAt(txs, outer.transactionIndex);
      if tx != null {
        outer.transaction := tx;
        tx.calls := tx.calls + [outer];
      }
      parents := LinkInner(calls, i, outer, parents);
    }
    assert calls[..|calls|] == calls;
    AllParents(calls, parents);
  }

  lemma NoParents(calls: seq<Call>) returns (parents: seq<Call?>)
    ensures ParentsUpTo(parents, calls, 0) && |parents| == |calls| && forall m :: 0 <= m < |calls| ==> parents[m] == null
  {
    parents := seq(|calls|, _ => null);
  }

  lemma AllParents(calls: seq<Call>, parents: seq<Call?>)
    requires ParentsUpTo(parents, calls, |calls|)
    ensures |parents| == |calls| && forall m :: 0 <= m < |calls| ==> parents[m] == ParentOf(calls, m, |calls|)
  {
  }

  lemma NoChildren(calls: seq<Call>)
    ensures forall m :: 0 <= m < |calls| ==> ChildrenSet(calls, 0, m, [])
    ensures forall index :: Belonging(calls[..0], index) == []
  {
  }

  lemma ChildrenStep(calls: seq<Call>, i: nat)
    requires i < |calls|
    ensures forall children :: ChildrenSet(calls, i, i, children) ==> children == []
    ensures ChildrenSet(calls, i + 1, i, Range(calls, i + 1, ScanEnd(Keys(calls), i, i + 1)))
    ensures forall m, children {:trigger ChildrenSet(calls, i + 1, m, children)} ::
              0 <= m < |calls| && m != i && ChildrenSet(calls, i, m, children) ==> ChildrenSet(calls, i + 1, m, children)
  {
  }

  lemma BelongingStep(calls: seq<Call>, i: nat)
    requires i < |calls|
    ensures forall index :: Belonging(calls[..i + 1], index)
              == Belonging(calls[..i], index) + if calls[i].transactionIndex == index then [calls[i]] else []
  {
    forall index: nat ensures Belonging(calls[..i + 1], index)
              == Belonging(calls[..i], index) + if calls[i].transactionIndex == index then [calls[i]] else [] {
      OneMoreCall(calls, i, index);
    }
  }

  lemma DiffersFromAll(calls: seq<Call>)
    requires Increasing(Keys(calls))
    ensures forall i, j :: 0 <= i < j < |calls| ==> calls[i] != calls[j]
  {
    KeysDiffer(Keys(calls));
  }

  function InTransaction(index: nat): Call -> bool {
    (c: Call) => c.transactionIndex == index
  }

  lemma {:induction false} BelongingSelects(calls: seq<Call>, index: nat)
    ensures Selects(calls, InTransaction(index), Belonging(calls, index))
  {
    hide Selects;
    if calls == [] {
      SelectsNone(calls, InTransaction(index));
    } else {
      var n := |calls| - 1;
      BelongingSelects(calls[..n], index);
      SelectsMore(calls[..n], InTransaction(index), Belonging(calls[..n], index), calls[n]);
      assert calls == calls[..n] + [calls[n]];
    }
  }

  // ---------- Log messages of Solana ----------

  /** The first call that does not come before `key`. */
  function LowerBound(calls: seq<Call>, key: Address): (k: nat)
    ensures k <= |calls|
    ensures forall m :: 0 <= m < k ==> Compare(calls[m].Key(), key, 0) < 0
    ensures k < |calls| ==> Compare(calls[k].Key(), key, 0) >= 0
  {
    if calls == [] || Compare(calls[0].Key(), key, 0) >= 0 then 0
    else 1 + LowerBound(calls[1..], key)
  }

  /** From the lower bound on, a call holds `key` only if it has that very key. */
  lemma HoldsIsEqual(calls: seq<Call>, key: Address, m: nat)
    requires Increasing(Keys(calls)) && m < |calls|
    ensures LowerBound(calls, key) <= m && Holds(calls[m].Key(), key) <==> calls[m].Key() == key
  {
    var k := LowerBound(calls, key);
    CompareIsBefore(calls[m].Key(), key, 0);
    if calls[m].Key() < key {
      InsideIsLater(calls[m].Key(), key);
      assert Before(calls[m].Key(), key);
      if k <= m {
        CompareIsBefore(calls[k].Key(), key, 0);
        assert Keys(calls)[k] == calls[k].Key() && Keys(calls)[m] == calls[m].Key();
        if k < m { BeforeTransitive(calls[k].Key(), calls[m].Key(), key); }
      }
    }
  }

  function CallAt(calls: seq<Call>, key: Address, n: nat): (r: Call?)
    requires n <= |calls|
    ensures r != null ==> r in calls[..n] && r.Key() == key
    ensures r == null ==> forall m :: 0 <= m < n ==> calls[m].Key() != key
  {
    if n == 0 then null
    else if calls[n - 1].Key() == key then calls[n - 1]
    else CallAt(calls, key, n - 1)
  }

  /** The messages written by the call with the given key. */
  function LogsAt(logs: seq<LogMessage>, key: Address): seq<LogMessage> {
    if logs == [] then []
    else
      var before, last := LogsAt(logs[..|logs| - 1], key), logs[|logs| - 1];
      if last.Key() == key then before + [last] else before
  }

  function WrittenBy(c: Call): LogMessage -> bool {
    (log: LogMessage) => log.transactionIndex == c.transactionIndex && log.address == c.address
  }

  lemma SameKey(c: Call, log: LogMessage)
    ensures c.Key() == log.Key() <==> WrittenBy(c)(log)
  {
    assert c.Key()[0] == c.transactionIndex && log.Key()[0] == log.transactionIndex;
    assert c.Key()[1..] == c.address && log.Key()[1..] == log.address;
  }

  lemma {:induction false} LogsAtSelects(logs: seq<LogMessage>, c: Call)
    ensures Selects(logs, WrittenBy(c), LogsAt(logs, c.Key()))
  {
    hide Selects;
    if logs == [] {
      SelectsNone(logs, WrittenBy(c));
    } else {
      var n := |logs| - 1;
      LogsAtSelects(logs[..n], c);
      SelectsMore(logs[..n], WrittenBy(c), LogsAt(logs[..n], c.Key()), logs[n]);
      SameKey(c, logs[n]);
      assert logs == logs[..n] + [logs[n]];
    }
  }

  /** By transaction, and by position in its log. */
  ghost predicate InLogOrder(logs: seq<LogMessage>) {
    forall i, j :: 0 <= i < j < |logs| ==>
      || logs[i].transactionIndex < logs[j].transactionIndex
      || (logs[i].transactionIndex == logs[j].transactionIndex && logs[i].logIndex <= logs[j].logIndex)
  }

  lemma LogsInOrder(logs: seq<LogMessage>, c: Call, r: seq<LogMessage>)
    requires InLogOrder(logs) && Selects(logs, WrittenBy(c), r)
    ensures InLogOrder(r)
  {
    hide Selects;
    forall i, j | 0 <= i < j < |r|
      ensures r[i].transactionIndex < r[j].transactionIndex
              || (r[i].transactionIndex == r[j].transactionIndex && r[i].logIndex <= r[j].logIndex)
    {
      var p, q := SelectionKeepsOrder(logs, WrittenBy(c), r, i, j);
    }
  }

  /** Each message has the call that wrote it, and none if there is no such call. */
  ghost predicate HasWriter(log: LogMessage, calls: seq<Call>)
    reads log
  {
    if log.call == null then forall c <- calls :: !WrittenBy(c)(log) else log.call in calls && WrittenBy(log.call)(log)
  }

  lemma CallAtIsWriter(calls: seq<Call>, log: LogMessage)
    requires log.call == CallAt(calls, log.Key(), |calls|)
    ensures HasWriter(log, calls)
  {
    assert calls[..|calls|] == calls;
    forall c: Call | c in calls ensures c.Key() == log.Key() <==> WrittenBy(c)(log) {
      SameKey(c, log);
    }
  }

  lemma LogsStep(logs: seq<LogMessage>, n: nat)
    requires n < |logs|
    ensures forall key :: LogsAt(logs[..n + 1], key) == LogsAt(logs[..n], key) + if logs[n].Key() == key then [logs[n]] else []
  {
    assert logs[..n + 1][..n] == logs[..n];
  }

  /** Attaches one message to the call that wrote it. */
  method AttachLog(calls: seq<Call>, log: LogMessage, txs: seq<Transaction?>)
    requires Increasing(Keys(calls)) && log.call == null
    modifies log`transaction, log`call, calls`logs
    ensures log.transaction == TxAt(txs, log.transactionIndex) && log.call == CallAt(calls, log.Key(), |calls|)
    ensures forall m :: 0 <= m < |calls| ==>
              calls[m].logs == old(calls[m].logs) + if calls[m].Key() == log.Key() then [log] else []
  {
    hide Increasing, Keys, Compare, LowerBound, CallAt, Holds, KeyOf, TxAt;
    log.transaction := TxAt(txs, log.transactionIndex);
    var k := LowerBound(calls, log.Key());
    NoneBelow(calls, log.Key());
    while k < |calls|
      invariant LowerBound(calls, log.Key()) <= k <= |calls|
      invariant log.call == CallAt(calls, log.Key(), k) && log.transaction == TxAt(txs, log.transactionIndex)
      invariant forall m :: 0 <= m < |calls| ==>
                  calls[m].logs == old(calls[m].logs) + if m < k && calls[m].Key() == log.Key() then [log] else []
    {
      var call := calls[k];
      DiffersFrom(calls, k);
      HoldsIsEqual(calls, log.Key(), k);
      CallStep(calls, log, k);
      AttachTo(call, log);
      k := k + 1;
    }
  }

  method AttachTo(call: Call, log: LogMessage)
    modifies call`logs, log`call
    ensures call.logs == old(call.logs) + if Holds(call.Key(), log.Key()) then [log] else []
    ensures log.call == if Holds(call.Key(), log.Key()) && |call.address| == |log.address| then call else old(log.call)
  {
    if Holds(call.Key(), log.Key()) {
      call.logs := call.logs + [log];
      if |call.address| == |log.address| {
        log.call := call;
      }
    }
  }

  lemma NoneBelow(calls: seq<Call>, key: Address)
    requires Increasing(Keys(calls))
    ensures CallAt(calls, key, LowerBound(calls, key)) == null
    ensures forall m :: 0 <= m < LowerBound(calls, key) ==> calls[m].Key() != key
  {
    forall m | 0 <= m < LowerBound(calls, key) ensures calls[m].Key() != key {
      HoldsIsEqual(calls, key, m);
    }
  }

  lemma CallStep(calls: seq<Call>, log: LogMessage, k: nat)
    requires k < |calls|
    ensures CallAt(calls, log.Key(), k + 1) == if calls[k].Key() == log.Key() then calls[k] else CallAt(calls, log.Key(), k)
    ensures calls[k].Key() == log.Key() ==> |calls[k].address| == |log.address|
  {
  }

  method AttachLogs(calls: seq<Call>, logs: seq<LogMessage>, txs: seq<Transaction?>)
    requires Increasing(Keys(calls))
    requires forall m :: 0 <= m < |calls| ==> calls[m].logs == []
    requires forall i, j :: 0 <= i < j < |logs| ==> logs[i] != logs[j]
    requires forall n :: 0 <= n < |logs| ==> logs[n].call == null
    modifies logs`transaction, logs`call, calls`logs
    ensures forall n :: 0 <= n < |logs| ==>
              logs[n].transaction == TxAt(txs, logs[n].transactionIndex) && logs[n].call == CallAt(calls, logs[n].Key(), |calls|)
    ensures forall m :: 0 <= m < |calls| ==> calls[m].logs == LogsAt(logs, calls[m].Key())
  {
    hide Increasing, Keys, LogsAt, CallAt;
    NoLogs(logs);
    for n := 0 to |logs|
      invariant forall l :: 0 <= l < n ==>
                  logs[l].transaction == TxAt(txs, logs[l].transactionIndex) && logs[l].call == CallAt(calls, logs[l].Key(), |calls|)
      invariant forall l :: n <= l < |logs| ==> logs[l].call == null
      invariant forall m :: 0 <= m < |calls| ==> calls[m].logs == LogsAt(logs[..n], calls[m].Key())
    {
      LogsStep(logs, n);
      AttachLog(calls, logs[n], txs);
    }
    assert logs[..|logs|] == logs;
  }

  lemma NoLogs(logs: seq<LogMessage>)
    ensures forall key :: LogsAt(logs[..0], key) == []
  {
  }

  // ---------- A whole block ----------

  ghost predicate Links(calls: seq<Call>)
    reads calls
  {
    && (forall m :: 0 <= m < |calls| ==> calls[m].children == Range(calls, m + 1, ScanEnd(Keys(calls), m, m + 1)))
    && (forall m :: 0 <= m < |calls| ==> calls[m].parent == ParentOf(calls, m, |calls|))
  }

  /**
   Calls and messages have their transactions, the last ones with their index, and these have their calls; calls
   have exactly the messages they wrote, in log order, and messages the call that wrote them.
   */
  ghost predicate AreRelated(transactions: seq<Transaction>, calls: seq<Call>, logs: seq<LogMessage>)
    reads transactions, calls, logs
  {
    && (forall c <- calls :: c.transaction == WithIndex(transactions, c.transactionIndex))
    && (forall c <- calls :: Selects(logs, WrittenBy(c), c.logs) && InLogOrder(c.logs))
    && (forall log <- logs :: log.transaction == WithIndex(transactions, log.transactionIndex) && HasWriter(log, calls))
    && (forall tx <- transactions :: WithIndex(transactions, tx.transactionIndex) == tx ==>
          tx.calls == Belonging(calls, tx.transactionIndex) && Selects(calls, InTransaction(tx.transactionIndex), tx.calls))
  }

  class Block {
    var transactions: seq<Transaction>
    var calls: seq<Call>
    var logs: seq<LogMessage>

    constructor (transactions: seq<Transaction>, calls: seq<Call>, logs: seq<LogMessage>)
      ensures this.transactions == transactions && this.calls == calls && this.logs == logs
    {
      this.transactions, this.calls, this.logs := transactions, calls, logs;
    }

    /** Nothing is linked yet, and keys are unique. */
    ghost predicate Unlinked()
      reads this, transactions, calls, logs
    {
      && (forall i, j :: 0 <= i < j < |calls| ==> calls[i].Key() != calls[j].Key())
      && (forall i, j :: 0 <= i < j < |logs| ==> logs[i] != logs[j])
      && (forall tx <- transactions :: tx.calls == [])
      && (forall c <- calls :: c.transaction == null && c.parent == null && c.children == [] && c.logs == [])
      && (forall log <- logs :: log.call == null)
    }

    method SetUpRelations()
      requires Unlinked()
      modifies this, transactions, calls, logs
      ensures multiset(calls) == multiset(old(calls)) && Increasing(Keys(calls)) && Links(calls)
      ensures multiset(logs) == multiset(old(logs)) && InLogOrder(logs)
      ensures multiset(transactions) == multiset(old(transactions)) && InIndexOrder(transactions)
      ensures AreRelated(transactions, calls, logs)
    {
      hide AreRelated, Selects, HasWriter, InLogOrder, InIndexOrder, Increasing, Keys, Links, WithIndex, LogsAt, CallAt, Belonging, SortBy, Range, ScanEnd, ParentOf, ChildrenSet;
      SortCalls(calls);
      SortTransactions(transactions);
      SortLogs(logs);
      var sortedTransactions := SortBy((tx: Transaction) => [tx.transactionIndex], transactions);
      var sortedCalls := SortBy((c: Call) => c.Key(), calls);
      var sortedLogs := SortBy((log: LogMessage) => [log.transactionIndex, log.logIndex], logs);
      transactions, calls, logs := sortedTransactions, sortedCalls, sortedLogs;
      LinkSorted(sortedTransactions, sortedCalls, sortedLogs);
    }
  }

  method LinkSorted(transactions: seq<Transaction>, calls: seq<Call>, logs: seq<LogMessage>)
    requires InIndexOrder(transactions) && InLogOrder(logs)
    requires Increasing(Keys(calls)) && forall i, j :: 0 <= i < j < |logs| ==> logs[i] != logs[j]
    requires forall tx <- transactions :: tx.calls == []
    requires forall c <- calls :: c.transaction == null && c.parent == null && c.children == [] && c.logs == []
    requires forall log <- logs :: log.call == null
    modifies transactions, calls, logs
    ensures Links(calls) && AreRelated(transactions, calls, logs)
  {
    hide Selects, HasWriter, InLogOrder, Increasing, Keys, Links, WithIndex, LogsAt, CallAt, Belonging, Range, ScanEnd, ParentOf, ChildrenSet, TxAt;
    var txs := IndexTransactions(transactions);
    FromIndex(txs, transactions);
    LinkCalls(calls, txs);
    AttachLogs(calls, logs, txs);
    AllLinked(calls);
    forall c <- calls ensures Selects(logs, WrittenBy(c), c.logs) && InLogOrder(c.logs) {
      LogsAtSelects(logs, c);
      LogsInOrder(logs, c, c.logs);
    }
    forall log <- logs ensures HasWriter(log, calls) {
      CallAtIsWriter(calls, log);
    }
    forall tx <- transactions ensures Selects(calls, InTransaction(tx.transactionIndex), Belonging(calls, tx.transactionIndex)) {
      BelongingSelects(calls, tx.transactionIndex);
    }
  }

  lemma SortCalls(calls: seq<Call>)
    requires forall i, j :: 0 <= i < j < |calls| ==> calls[i].Key() != calls[j].Key()
    ensures var r := SortBy((c: Call) => c.Key(), calls);
            multiset(r) == multiset(calls) && Increasing(Keys(r)) && (forall c :: c in r <==> c in calls) && (forall i :: 0 <= i < |r| ==> r[i] in calls)
  {
    var r := SortBy((c: Call) => c.Key(), calls);
    SortSorts((c: Call) => c.Key(), calls);
    SortStrictly((c: Call) => c.Key(), calls);
    SameMembers(r, calls);
  }

  lemma SortTransactions(transactions: seq<Transaction>)
    ensures var r := SortBy((tx: Transaction) => [tx.transactionIndex], transactions);
            && multiset(r) == multiset(transactions) && (forall tx :: tx in r <==> tx in transactions) && (forall i :: 0 <= i < |r| ==> r[i] in transactions)
            && InIndexOrder(r)
  {
    var r := SortBy((tx: Transaction) => [tx.transactionIndex], transactions);
    SortSorts((tx: Transaction) => [tx.transactionIndex], transactions);
    SameMembers(r, transactions);
    forall i, j | 0 <= i < j < |r| ensures r[i].transactionIndex <= r[j].transactionIndex {
      SingleKeys(r[i].transactionIndex, r[j].transactionIndex);
    }
  }

  lemma SortLogs(logs: seq<LogMessage>)
    requires forall i, j :: 0 <= i < j < |logs| ==> logs[i] != logs[j]
    ensures var r := SortBy((log: LogMessage) => [log.transactionIndex, log.logIndex], logs);
            && multiset(r) == multiset(logs) && (forall log :: log in r <==> log in logs) && (forall i :: 0 <= i < |r| ==> r[i] in logs)
            && (forall i, j :: 0 <= i < j < |r| ==> r[i] != r[j]) && InLogOrder(r)
  {
    var r := SortBy((log: LogMessage) => [log.transactionIndex, log.logIndex], logs);
    SortSorts((log: LogMessage) => [log.transactionIndex, log.logIndex], logs);
    SameMembers(r, logs);
    StaysDistinct(logs, r);
    forall i, j | 0 <= i < j < |r|
      ensures r[i].transactionIndex < r[j].transactionIndex
              || (r[i].transactionIndex == r[j].transactionIndex && r[i].logIndex <= r[j].logIndex)
    {
      PairKeys(r[i].transactionIndex, r[i].logIndex, r[j].transactionIndex, r[j].logIndex);
    }
  }

  lemma PairKeys(i: nat, j: nat, k: nat, l: nat)
    ensures !Before([k, l], [i, j]) ==> i < k || (i == k && j <= l)
  {
    CompareIsBefore([k, l], [i, j], 0);
  }

  lemma FromIndex(txs: seq<Transaction?>, transactions: seq<Transaction>)
    requires Indexed(txs, transactions)
    ensures forall index: nat :: TxAt(txs, index) == WithIndex(transactions, index)
    ensures forall index :: 0 <= index < |txs| ==> txs[index] == WithIndex(transactions, index)
    ensures forall tx <- txs :: tx != null ==> tx in transactions
    ensures forall index :: 0 <= index < |txs| && txs[index] != null ==> txs[index].transactionIndex == index
    ensures forall tx <- transactions :: tx.transactionIndex < |txs|
  {
    assert forall index :: 0 <= index < |txs| ==> txs[index] == TxAt(txs, index);
    forall tx <- transactions ensures tx.transactionIndex < |txs| {
      assert WithIndex(transactions, tx.transactionIndex) != null;
      assert TxAt(txs, tx.transactionIndex) != null;
    }
  }

  lemma AllLinked(calls: seq<Call>)
    requires forall m :: 0 <= m < |calls| ==> ChildrenSet(calls, |calls|, m, calls[m].children)
    requires forall m :: 0 <= m < |calls| ==> calls[m].parent == ParentOf(calls, m, |calls|)
    ensures Links(calls)
  {
  }

  // ---------- Trees ----------

  /** The forest a run of calls stands for, read off their links alone. */
  ghost function Rebuilt(calls: seq<Call>): Forest
    reads calls
    decreases |calls|
  {
    if calls == [] then NoCalls
    else
      var inner := calls[0].children;
      if inner <= calls[1..] then Calls(Rebuilt(inner), Rebuilt(calls[1 + |inner|..])) else NoCalls
  }

  lemma {:induction false} PreorderBelow(f: Forest, prefix: Address, start: int, k: nat)
    requires k < |Preorder(f, prefix, start)|
    ensures var a := Preorder(f, prefix, start)[k]; Inside(prefix, a) && a[|prefix|] >= start
    decreases f
  {
    var inner, next := f.inner, f.next;
    var root, below := prefix + [start], Preorder(inner, prefix + [start], 0);
    if 0 < k <= |below| {
      PreorderBelow(inner, root, 0, k - 1);
      assert below[k - 1][..|root|] == root && root[|prefix|] == start;
    } else if k > |below| {
      PreorderBelow(next, prefix, start + 1, k - 1 - |below|);
    }
  }

  /** The keys from `a` on are the preorder of a forest below `prefix`, and what follows lies elsewhere. */
  ghost predicate HoldsForest(keys: seq<Address>, a: nat, b: nat, f: Forest, prefix: Address, start: int) {
    a <= b <= |keys| && keys[a..b] == Preorder(f, prefix, start) && (b < |keys| ==> !Inside(prefix, keys[b]))
  }

  lemma RunSplits(keys: seq<Address>, a: nat, b: nat, f: Forest, prefix: Address, start: int)
    requires a <= b <= |keys| && keys[a..b] == Preorder(f, prefix, start) && f.Calls?
    ensures var root, m := prefix + [start], a + 1 + |Preorder(f.inner, prefix + [start], 0)|;
            && a < m <= b && keys[a] == root && keys[a + 1..m] == Preorder(f.inner, root, 0)
            && keys[m..b] == Preorder(f.next, prefix, start + 1)
  {
    var root := prefix + [start];
    var below, rest := Preorder(f.inner, root, 0), Preorder(f.next, prefix, start + 1);
    var m := a + 1 + |below|;
    assert keys[a..b] == [root] + below + rest;
    assert |keys[a..b]| == b - a && keys[a] == keys[a..b][0];
    Pieces(root, below, rest);
    RunWithin(keys, a, b, 1, 1 + |below|);
    RunWithin(keys, a, b, 1 + |below|, b - a);
  }

  lemma Pieces(root: Address, below: seq<Address>, rest: seq<Address>)
    ensures var all := [root] + below + rest;
            && |all| == 1 + |below| + |rest| && all[0] == root && all[1..1 + |below|] == below && all[1 + |below|..|all|] == rest
  {
    var all := [root] + below + rest;
    assert all[1..1 + |below|] == below;
    assert all[1 + |below|..|all|] == rest;
  }

  lemma RunWithin(keys: seq<Address>, a: nat, b: nat, x: nat, y: nat)
    requires a <= b <= |keys| && x <= y <= b - a
    ensures keys[a..b][x..y] == keys[a + x..a + y]
  {
    forall i | 0 <= i < y - x ensures keys[a..b][x..y][i] == keys[a + x..a + y][i] {
      assert keys[a..b][x..y][i] == keys[a..b][x + i];
    }
  }

  /** The calls inside of the first root are those of its inner forest. */
  lemma RootScan(keys: seq<Address>, a: nat, b: nat, f: Forest, prefix: Address, start: int)
    requires HoldsForest(keys, a, b, f, prefix, start) && f.Calls?
    ensures var root, m := prefix + [start], a + 1 + |Preorder(f.inner, prefix + [start], 0)|;
            && a < m <= b && ScanEnd(keys, a, a + 1) == m && keys[a] == root
            && HoldsForest(keys, a + 1, m, f.inner, root, 0) && HoldsForest(keys, m, b, f.next, prefix, start + 1)
  {
    hide ScanEnd, Inside, Preorder;
    var m := a + 1 + |Preorder(f.inner, prefix + [start], 0)|;
    RunSplits(keys, a, b, f, prefix, start);
    AllInside(keys, a, m, f.inner);
    NextOutside(keys, m, b, f.next, prefix, start);
    ScanStopsAt(keys, a, a + 1, m);
  }

  lemma AllInside(keys: seq<Address>, a: nat, m: nat, inner: Forest)
    requires a < m <= |keys| && keys[a + 1..m] == Preorder(inner, keys[a], 0)
    ensures forall k :: a < k < m ==> Inside(keys[a], keys[k])
  {
    forall k | a < k < m ensures Inside(keys[a], keys[k]) {
      PreorderBelow(inner, keys[a], 0, k - a - 1);
      assert keys[k] == keys[a + 1..m][k - a - 1];
    }
  }

  lemma NextOutside(keys: seq<Address>, m: nat, b: nat, next: Forest, prefix: Address, start: int)
    requires m <= b <= |keys| && keys[m..b] == Preorder(next, prefix, start + 1) && (b < |keys| ==> !Inside(prefix, keys[b]))
    ensures m < |keys| ==> !Inside(prefix + [start], keys[m])
  {
    if m < b {
      PreorderBelow(next, prefix, start + 1, 0);
      assert keys[m] == keys[m..b][0];
      NotInside(prefix + [start], keys[m], |prefix|);
    } else if b < |keys| {
      BelowToo(prefix, start, keys[b]);
    }
  }

  lemma NotInside(a: Address, b: Address, i: nat)
    requires i < |a| && i < |b| && a[i] != b[i]
    ensures !Inside(a, b)
  {
  }

  lemma BelowToo(prefix: Address, start: int, b: Address)
    ensures Inside(prefix + [start], b) ==> Inside(prefix, b)
  {
    if Inside(prefix + [start], b) {
      assert b[..|prefix|] == (prefix + [start])[..|prefix|] == prefix;
    }
  }

  lemma {:induction false} ScanStopsAt(keys: seq<Address>, i: nat, j: nat, m: nat)
    requires i < j <= m <= |keys| && (forall k :: j <= k < m ==> Inside(keys[i], keys[k]))
    requires m < |keys| ==> !Inside(keys[i], keys[m])
    ensures ScanEnd(keys, i, j) == m
    decreases m - j
  {
    if j < m { ScanStopsAt(keys, i, j + 1, m); }
  }

  /** The links of calls flattened from a tree rebuild that tree. */
  lemma {:induction false} LinksRebuildForest(calls: seq<Call>, a: nat, b: nat, f: Forest, prefix: Address, start: int)
    requires Links(calls) && HoldsForest(Keys(calls), a, b, f, prefix, start)
    ensures b <= |calls| && Rebuilt(calls[a..b]) == f
    decreases f
  {
    hide Links, ScanEnd, Inside, HoldsForest;
    ForestFits(Keys(calls), a, b, f, prefix, start);
    match f
    case NoCalls =>
      assert calls[a..b] == [];
    case Calls(inner, next) =>
      RootScan(Keys(calls), a, b, f, prefix, start);
      var m := a + 1 + |Preorder(inner, prefix + [start], 0)|;
      LinksRebuildForest(calls, a + 1, m, inner, prefix + [start], 0);
      LinksRebuildForest(calls, m, b, next, prefix, start + 1);
      ChildrenAre(calls, a, m);
      RebuiltStep(calls, a, m, b);
  }

  lemma ForestFits(keys: seq<Address>, a: nat, b: nat, f: Forest, prefix: Address, start: int)
    requires HoldsForest(keys, a, b, f, prefix, start)
    ensures a <= b <= |keys| && (f.NoCalls? ==> a == b)
  {
    assert |keys[a..b]| == b - a;
  }

  lemma ChildrenAre(calls: seq<Call>, a: nat, m: nat)
    requires Links(calls) && a < |calls| && ScanEnd(Keys(calls), a, a + 1) == m
    ensures a < m <= |calls| && calls[a].children == calls[a + 1..m]
  {
  }

  lemma RebuiltStep(calls: seq<Call>, a: nat, m: nat, b: nat)
    requires a < m <= b <= |calls| && calls[a].children == calls[a + 1..m]
    ensures Rebuilt(calls[a..b]) == Calls(Rebuilt(calls[a + 1..m]), Rebuilt(calls[m..b]))
  {
    var run := calls[a..b];
    var inner := run[0].children;
    assert run[0] == calls[a] && inner == calls[a + 1..m];
    assert run[1..] == inner + calls[m..b] && run[1 + |inner|..] == calls[m..b];
  }

  /** A block of traced transactions: whatever order its calls arrived in, their links give back the call trees. */
  lemma ShuffledForest(calls: seq<Call>, f: Forest, start: int)
    requires Links(calls) && Increasing(Keys(calls)) && multiset(Keys(calls)) == multiset(Preorder(f, [], start))
    ensures Rebuilt(calls) == f
  {
    hide Links, Preorder, Increasing, Rebuilt;
    var addrs := Preorder(f, [], start);
    PreorderIncreases(f, [], start);
    OneOrder(Keys(calls), addrs);
    assert Keys(calls)[0..|calls|] == addrs && calls[0..|calls|] == calls;
    LinksRebuildForest(calls, 0, |calls|, f, [], start);
  }

  lemma PreorderIncreases(f: Forest, prefix: Address, start: int)
    ensures Increasing(Preorder(f, prefix, start))
  {
    var addrs, last := Preorder(f, prefix, start), prefix + [start - 1];
    PreorderIsNumbered(f, last, prefix, start);
    forall i, j | 0 <= i < j < |addrs| ensures Before(addrs[i], addrs[j]) {
      NumberedIncreases(last, addrs, i, j);
    }
  }

  // ---------- One forest for each transaction ----------

  datatype Traced = Traced(transactionIndex: nat, forest: Forest)

  function KeysOf(tx: Traced): seq<Address> {
    Preorder(tx.forest, [tx.transactionIndex], 0)
  }

  /** The keys of all calls of a block, transaction by transaction. */
  function BlockKeys(txs: seq<Traced>): seq<Address> {
    if txs == [] then [] else BlockKeys(txs[..|txs| - 1]) + KeysOf(txs[|txs| - 1])
  }

  ghost predicate TransactionsAscend(txs: seq<Traced>) {
    forall i, j :: 0 <= i < j < |txs| ==> txs[i].transactionIndex < txs[j].transactionIndex
  }

  /** Key `k` belongs to transaction `index`. */
  predicate IsOf(key: Address, index: nat) {
    key != [] && key[0] == index
  }

  lemma KeysAreOf(tx: Traced, k: nat)
    requires k < |KeysOf(tx)|
    ensures IsOf(KeysOf(tx)[k], tx.transactionIndex)
  {
    PreorderBelow(tx.forest, [tx.transactionIndex], 0, k);
  }

  lemma {:induction false} BlockKeysAreOf(txs: seq<Traced>, k: nat) returns (r: nat)
    requires k < |BlockKeys(txs)|
    ensures r < |txs| && IsOf(BlockKeys(txs)[k], txs[r].transactionIndex)
  {
    hide IsOf, KeysOf;
    var n := |txs| - 1;
    if k < |BlockKeys(txs[..n])| {
      r := BlockKeysAreOf(txs[..n], k);
    } else {
      r := n;
      KeysAreOf(txs[n], k - |BlockKeys(txs[..n])|);
    }
  }

  lemma SmallerIndexIsBefore(a: Address, b: Address, i: nat, j: nat)
    requires IsOf(a, i) && IsOf(b, j) && i < j
    ensures Before(a, b)
  {
    assert DivergeAt(a, b, 0);
  }

  lemma {:induction false} BlockKeysIncrease(txs: seq<Traced>)
    requires TransactionsAscend(txs)
    ensures Increasing(BlockKeys(txs))
  {
    hide KeysOf, IsOf, Before;
    if txs != [] {
      var n := |txs| - 1;
      var before, last := BlockKeys(txs[..n]), KeysOf(txs[n]);
      BlockKeysIncrease(txs[..n]);
      LastIncreases(txs[n]);
      forall i, j | 0 <= i < |before| && 0 <= j < |last| ensures Before(before[i], last[j]) {
        var r := BlockKeysAreOf(txs[..n], i);
        KeysAreOf(txs[n], j);
        SmallerIndexIsBefore(before[i], last[j], txs[r].transactionIndex, txs[n].transactionIndex);
      }
    }
  }

  lemma LastIncreases(tx: Traced)
    ensures Increasing(KeysOf(tx))
  {
    PreorderIncreases(tx.forest, [tx.transactionIndex], 0);
  }

  /** The keys of transaction `r` are those from `a` to `b`, and nothing else of the block is of this transaction. */
  ghost predicate RunAt(keys: seq<Address>, a: nat, b: nat, tx: Traced) {
    && a <= b <= |keys| && keys[a..b] == KeysOf(tx)
    && (forall k :: 0 <= k < a ==> !IsOf(keys[k], tx.transactionIndex))
    && (forall k :: b <= k < |keys| ==> !IsOf(keys[k], tx.transactionIndex))
  }

  lemma {:induction false} FindRun(txs: seq<Traced>, r: nat) returns (a: nat, b: nat)
    requires TransactionsAscend(txs) && r < |txs|
    ensures RunAt(BlockKeys(txs), a, b, txs[r])
  {
    hide IsOf, KeysOf;
    var n := |txs| - 1;
    var before, last := BlockKeys(txs[..n]), KeysOf(txs[n]);
    if r == n {
      a, b := |before|, |before| + |last|;
      assert (before + last)[a..b] == last;
      forall k | 0 <= k < a ensures !IsOf(before[k], txs[n].transactionIndex) {
        var o := BlockKeysAreOf(txs[..n], k);
        OfOne(before[k], txs[o].transactionIndex, txs[n].transactionIndex);
      }
    } else {
      a, b := FindRun(txs[..n], r);
      assert (before + last)[a..b] == before[a..b];
      forall k | 0 <= k < |last| ensures !IsOf(last[k], txs[r].transactionIndex) {
        KeysAreOf(txs[n], k);
        OfOne(last[k], txs[n].transactionIndex, txs[r].transactionIndex);
      }
    }
  }

  lemma OfOne(key: Address, i: nat, j: nat)
    requires IsOf(key, i) && i != j
    ensures !IsOf(key, j)
  {
  }

  /** The calls of a transaction are its run of calls. */
  lemma {:induction false} RunBelongs(calls: seq<Call>, a: nat, b: nat, index: nat)
    requires a <= b <= |calls|
    requires forall k :: 0 <= k < |calls| ==> (calls[k].transactionIndex == index <==> a <= k < b)
    ensures Belonging(calls, index) == calls[a..b]
    decreases |calls|
  {
    if calls != [] {
      var n := |calls| - 1;
      RunBelongs(calls[..n], if a < n then a else n, if b < n then b else n, index);
      assert b <= n ==> calls[..n][a..b] == calls[a..b];
      assert a <= n < b ==> calls[..n][a..n] + [calls[n]] == calls[a..b];
    }
  }

  lemma RunIsOf(calls: seq<Call>, a: nat, b: nat, tx: Traced)
    requires RunAt(Keys(calls), a, b, tx)
    ensures a <= b <= |calls| && forall k :: 0 <= k < |calls| ==> (calls[k].transactionIndex == tx.transactionIndex <==> a <= k < b)
    ensures HoldsForest(Keys(calls), a, b, tx.forest, [tx.transactionIndex], 0)
  {
    hide Keys, Inside;
    var keys := Keys(calls);
    forall k | 0 <= k < |calls| ensures calls[k].transactionIndex == tx.transactionIndex <==> a <= k < b {
      assert keys[k] == calls[k].Key();
      if a <= k < b {
        KeysAreOf(tx, k - a);
        assert keys[k] == keys[a..b][k - a];
      } else {
        assert !IsOf(keys[k], tx.transactionIndex);
      }
    }
    if b < |keys| {
      OutsideRun(keys[b], tx.transactionIndex);
    }
  }

  lemma OutsideRun(key: Address, index: nat)
    requires !IsOf(key, index)
    ensures !Inside([index], key)
  {
  }

  /**
   A block where every transaction has a forest of calls: whatever order the calls arrived in, the links of
   each transaction's calls give back its forest.
   */
  lemma ShuffledForests(calls: seq<Call>, txs: seq<Traced>, r: nat)
    requires Links(calls) && Increasing(Keys(calls)) && multiset(Keys(calls)) == multiset(BlockKeys(txs))
    requires TransactionsAscend(txs) && r < |txs|
    ensures Rebuilt(Belonging(calls, txs[r].transactionIndex)) == txs[r].forest
  {
    hide Links, Increasing, Rebuilt, Belonging, BlockKeys, RunAt, HoldsForest, Keys;
    BlockKeysIncrease(txs);
    OneOrder(Keys(calls), BlockKeys(txs));
    var a, b := FindRun(txs, r);
    RunIsOf(calls, a, b, txs[r]);
    RunBelongs(calls, a, b, txs[r].transactionIndex);
    LinksRebuildForest(calls, a, b, txs[r].forest, [txs[r].transactionIndex], 0);
  }

  lemma InRange(calls: seq<Call>, a: nat, end: nat, b: nat)
    requires a < end <= |calls| && b < |calls| && forall m :: 0 <= m < |calls| && m != b ==> calls[m] != calls[b]
    ensures calls[b] in calls[a + 1..end] <==> a < b < end
  {
    if calls[b] in calls[a + 1..end] {
      var k :| 0 <= k < end - (a + 1) && calls[a + 1..end][k] == calls[b];
      assert calls[a + 1 + k] == calls[b];
    }
    if a < b < end {
      assert calls[a + 1..end][b - a - 1] == calls[b];
    }
  }

  /** What the links mean, call by call. */
  lemma ChildrenMean(calls: seq<Call>, a: nat, b: nat)
    requires Links(calls) && Increasing(Keys(calls)) && a < |calls| && b < |calls|
    ensures calls[b] in calls[a].children <==> Inside(calls[a].Key(), calls[b].Key())
  {
    hide Links, Increasing, Inside, ScanEnd, Keys;
    var end := ScanEnd(Keys(calls), a, a + 1);
    ScanFindsInside(Keys(calls), a, b);
    DiffersFrom(calls, b);
    ChildrenAre(calls, a, end);
    InRange(calls, a, end, b);
  }

  lemma ParentsMean(calls: seq<Call>, a: nat, b: nat)
    requires Links(calls) && Increasing(Keys(calls)) && a < |calls| && b < |calls|
    ensures calls[b].parent == calls[a] <==> IsParentOf(calls[a].Key(), calls[b].Key())
    ensures calls[b].parent == null <==> forall k :: 0 <= k < |calls| ==> !IsParentOf(calls[k].Key(), calls[b].Key())
  {
    hide Increasing, ScanEnd, IsParentOf;
    ParentIsUnique(Keys(calls), b, a);
    var p := ParentIndex(Keys(calls), b, |calls|);
    if p >= 0 { DiffersFrom(calls, p); }
  }
}
