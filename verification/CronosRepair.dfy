/**
 Repair of Cronos blocks: transactions that never had an effect are stripped, and receipts the node left
 out are fetched one by one.
 */
module CronosRepair {
  import opened Wrappers
  import opened KeyOrder
  import opened Selections
  import CallAddresses

  type Hash = string

  class Transaction {
    const hash: Hash
    const sender: string
    const nonce: nat
    var transactionIndex: nat

    constructor (hash: Hash, sender: string, nonce: nat, transactionIndex: nat)
      ensures this.hash == hash && this.sender == sender && this.nonce == nonce && this.transactionIndex == transactionIndex
    {
      this.hash, this.sender, this.nonce, this.transactionIndex := hash, sender, nonce, transactionIndex;
    }
  }

  class Log {
    var transactionIndex: nat

    constructor (transactionIndex: nat)
      ensures this.transactionIndex == transactionIndex
    {
      this.transactionIndex := transactionIndex;
    }
  }

  class Receipt {
    const transactionHash: Hash
    const blockHash: Hash
    const status: Option<nat>
    const logs: seq<Log>
    var transactionIndex: nat

    constructor (transactionHash: Hash, blockHash: Hash, status: Option<nat>, logs: seq<Log>, transactionIndex: nat)
      ensures this.transactionHash == transactionHash && this.blockHash == blockHash && this.status == status
      ensures this.logs == logs && this.transactionIndex == transactionIndex
    {
      this.transactionHash, this.blockHash, this.status := transactionHash, blockHash, status;
      this.logs, this.transactionIndex := logs, transactionIndex;
    }
  }

  // ---------- Which transactions are phantoms ----------

  /** The receipt of a transaction; of several the last one counts. */
  function ReceiptOf(receipts: seq<Receipt>, hash: Hash): (r: Option<Receipt>)
    ensures r == None <==> forall x <- receipts :: x.transactionHash != hash
    ensures r.Some? ==> r.value in receipts && r.value.transactionHash == hash
  {
    if receipts == [] then None
    else if receipts[|receipts| - 1].transactionHash == hash then Some(receipts[|receipts| - 1])
    else ReceiptOf(receipts[..|receipts| - 1], hash)
  }

  predicate HasStatus(receipts: seq<Receipt>, hash: Hash, status: nat) {
    var receipt := ReceiptOf(receipts, hash);
    receipt.Some? && receipt.value.status == Some(status)
  }

  /** No receipt, or one that says the transaction failed. */
  predicate IsCandidate(receipts: seq<Receipt>, tx: Transaction) {
    ReceiptOf(receipts, tx.hash) == None || HasStatus(receipts, tx.hash, 0)
  }

  /** `other` is a different transaction that uses the same nonce. */
  predicate Competes(tx: Transaction, other: Transaction) {
    other.sender == tx.sender && other.nonce == tx.nonce && other.hash != tx.hash
  }

  datatype Verdict = Phantom | Executed | Unclear

  /** The block's transactions, the receipts known so far, and the nonces the senders have reached. */
  ghost function Judge(txs: seq<Transaction>, receipts: seq<Receipt>, nonceAfter: string -> nat, tx: Transaction): Verdict {
    if tx.nonce >= nonceAfter(tx.sender) then Phantom
    else if exists other <- txs :: Competes(tx, other) && HasStatus(receipts, other.hash, 1) then Phantom
    else if exists other <- txs :: Competes(tx, other) && IsCandidate(receipts, other) then Unclear
    else Executed
  }

  /** The hashes to strip: none at all as soon as one candidate is unclear. */
  ghost function Phantoms(txs: seq<Transaction>, receipts: seq<Receipt>, nonceAfter: string -> nat): set<Hash> {
    if exists tx <- txs :: IsCandidate(receipts, tx) && Judge(txs, receipts, nonceAfter, tx) == Unclear then {}
    else set tx | tx in txs && IsCandidate(receipts, tx) && Judge(txs, receipts, nonceAfter, tx) == Phantom :: tx.hash
  }

  // ---------- What is to be stripped, said of the block alone ----------

  /** The last receipt with this hash has that status. */
  ghost predicate HasReceipt(receipts: seq<Receipt>, hash: Hash, status: Option<nat>) {
    exists i :: 0 <= i < |receipts| && receipts[i].transactionHash == hash && receipts[i].status == status &&
      forall j :: i < j < |receipts| ==> receipts[j].transactionHash != hash
  }

  ghost predicate Succeeded(receipts: seq<Receipt>, tx: Transaction) {
    HasReceipt(receipts, tx.hash, Some(1))
  }

  /** Without a receipt, or with one that says that it failed. */
  ghost predicate IsSuspect(receipts: seq<Receipt>, tx: Transaction) {
    (forall r <- receipts :: r.transactionHash != tx.hash) || HasReceipt(receipts, tx.hash, Some(0))
  }

  /** Some transaction that succeeded used the nonce of `tx`. */
  ghost predicate IsReplaced(txs: seq<Transaction>, receipts: seq<Receipt>, tx: Transaction) {
    exists other <- txs :: Competes(tx, other) && Succeeded(receipts, other)
  }

  /** Two suspects with a nonce that was used up, by neither of the transactions that succeeded. */
  ghost predicate Dispute(txs: seq<Transaction>, receipts: seq<Receipt>, nonceAfter: string -> nat, a: Transaction, b: Transaction) {
    && IsSuspect(receipts, a) && IsSuspect(receipts, b) && Competes(a, b)
    && a.nonce < nonceAfter(a.sender) && !IsReplaced(txs, receipts, a)
  }

  ghost predicate InDispute(txs: seq<Transaction>, receipts: seq<Receipt>, nonceAfter: string -> nat) {
    exists a, b :: a in txs && b in txs && Dispute(txs, receipts, nonceAfter, a, b)
  }

  /** A suspect whose nonce was not used up, or by another transaction. */
  ghost predicate HadNoEffect(txs: seq<Transaction>, receipts: seq<Receipt>, nonceAfter: string -> nat, tx: Transaction) {
    IsSuspect(receipts, tx) && (nonceAfter(tx.sender) <= tx.nonce || IsReplaced(txs, receipts, tx))
  }

  ghost predicate AreStripped(txs: seq<Transaction>, receipts: seq<Receipt>, nonceAfter: string -> nat, phantoms: set<Hash>) {
    forall hash :: hash in phantoms <==> exists tx <- txs :: tx.hash == hash && HadNoEffect(txs, receipts, nonceAfter, tx)
  }

  /** Who is left without success has used its nonce up, and alone, but for statuses other than 0 and 1. */
  ghost predicate IsSettled(left: seq<Transaction>, receipts: seq<Receipt>, nonceAfter: string -> nat) {
    forall tx <- left :: IsSuspect(receipts, tx) ==>
      tx.nonce < nonceAfter(tx.sender) && forall other <- left :: Competes(tx, other) ==>
        !IsSuspect(receipts, other) && !Succeeded(receipts, other)
  }

  lemma {:induction false} ReceiptIsLast(receipts: seq<Receipt>, hash: Hash) returns (i: nat)
    requires ReceiptOf(receipts, hash).Some?
    ensures i < |receipts| && receipts[i] == ReceiptOf(receipts, hash).value
    ensures forall j :: i < j < |receipts| ==> receipts[j].transactionHash != hash
  {
    i := |receipts| - 1;
    if receipts[i].transactionHash != hash {
      i := ReceiptIsLast(receipts[..i], hash);
    }
  }

  lemma HasReceiptIff(receipts: seq<Receipt>, hash: Hash, status: Option<nat>)
    ensures HasReceipt(receipts, hash, status) <==> var r := ReceiptOf(receipts, hash); r.Some? && r.value.status == status
  {
    if i :| 0 <= i < |receipts| && receipts[i].transactionHash == hash {
      assert receipts[i] in receipts;
    }
    if ReceiptOf(receipts, hash).Some? {
      var i := ReceiptIsLast(receipts, hash);
      assert receipts[i].transactionHash == hash;
    }
  }

  lemma SuspectIff(receipts: seq<Receipt>, tx: Transaction)
    ensures IsSuspect(receipts, tx) <==> IsCandidate(receipts, tx)
    ensures Succeeded(receipts, tx) <==> HasStatus(receipts, tx.hash, 1)
  {
    hide HasReceipt;
    HasReceiptIff(receipts, tx.hash, Some(0));
    HasReceiptIff(receipts, tx.hash, Some(1));
  }

  lemma LackIsMissing(txs: seq<Transaction>, receipts: seq<Receipt>)
    ensures (exists tx <- txs :: LacksStatus(receipts, tx)) <==> exists tx <- txs :: HasReceipt(receipts, tx.hash, None)
  {
    hide HasReceipt;
    forall tx: Transaction | tx in txs ensures LacksStatus(receipts, tx) <==> HasReceipt(receipts, tx.hash, None) {
      HasReceiptIff(receipts, tx.hash, None);
    }
  }

  lemma JudgeMeans(txs: seq<Transaction>, receipts: seq<Receipt>, nonceAfter: string -> nat, tx: Transaction)
    requires IsSuspect(receipts, tx)
    ensures Judge(txs, receipts, nonceAfter, tx) == Phantom <==> HadNoEffect(txs, receipts, nonceAfter, tx)
    ensures Judge(txs, receipts, nonceAfter, tx) == Unclear <==> exists b <- txs :: Dispute(txs, receipts, nonceAfter, tx, b)
  {
    hide IsSuspect, IsCandidate, Succeeded, HasStatus, Competes;
    forall other: Transaction | other in txs
      ensures IsSuspect(receipts, other) <==> IsCandidate(receipts, other)
      ensures Succeeded(receipts, other) <==> HasStatus(receipts, other.hash, 1)
    {
      SuspectIff(receipts, other);
    }
  }

  /** The verdicts on the candidates come to what is to be stripped. */
  lemma PhantomsAreStripped(txs: seq<Transaction>, receipts: seq<Receipt>, nonceAfter: string -> nat)
    ensures var phantoms := Phantoms(txs, receipts, nonceAfter);
            if InDispute(txs, receipts, nonceAfter) then phantoms == {} else AreStripped(txs, receipts, nonceAfter, phantoms)
  {
    hide IsSuspect, IsCandidate, Judge, Dispute, HadNoEffect;
    forall tx: Transaction | tx in txs ensures IsSuspect(receipts, tx) <==> IsCandidate(receipts, tx) {
      SuspectIff(receipts, tx);
    }
    forall tx: Transaction | tx in txs && IsSuspect(receipts, tx)
      ensures Judge(txs, receipts, nonceAfter, tx) == Phantom <==> HadNoEffect(txs, receipts, nonceAfter, tx)
      ensures Judge(txs, receipts, nonceAfter, tx) == Unclear <==> exists b <- txs :: Dispute(txs, receipts, nonceAfter, tx, b)
    {
      JudgeMeans(txs, receipts, nonceAfter, tx);
    }
    OnlySuspects(txs, receipts, nonceAfter);
  }

  lemma OnlySuspects(txs: seq<Transaction>, receipts: seq<Receipt>, nonceAfter: string -> nat)
    ensures forall tx :: HadNoEffect(txs, receipts, nonceAfter, tx) ==> IsSuspect(receipts, tx)
    ensures forall a, b :: Dispute(txs, receipts, nonceAfter, a, b) ==> IsSuspect(receipts, a)
  {
  }

  ghost function Survives(txs: seq<Transaction>, receipts: seq<Receipt>, nonceAfter: string -> nat): Transaction -> bool {
    (tx: Transaction) => !HadNoEffect(txs, receipts, nonceAfter, tx)
  }

  /** Where nothing is disputed, those who are left have settled who used which nonce. */
  lemma LeftAreSettled(txs: seq<Transaction>, receipts: seq<Receipt>, nonceAfter: string -> nat, left: seq<Transaction>)
    requires !InDispute(txs, receipts, nonceAfter) && Selects(txs, Survives(txs, receipts, nonceAfter), left)
    ensures IsSettled(left, receipts, nonceAfter)
  {
    hide IsSuspect, Succeeded, Competes;
    forall tx: Transaction | tx in left ensures tx in txs && !HadNoEffect(txs, receipts, nonceAfter, tx) {
      SelectedIsKept(txs, Survives(txs, receipts, nonceAfter), left, tx);
    }
    forall tx: Transaction, other: Transaction | tx in left && other in left && IsSuspect(receipts, tx) && Competes(tx, other)
      ensures !IsSuspect(receipts, other) && !Succeeded(receipts, other)
    {
      assert !Dispute(txs, receipts, nonceAfter, tx, other);
    }
  }

  /** A receipt without a status, which the code refuses. */
  predicate LacksStatus(receipts: seq<Receipt>, tx: Transaction) {
    var receipt := ReceiptOf(receipts, tx.hash);
    receipt.Some? && receipt.value.status == None
  }

  method FindCandidates(txs: seq<Transaction>, receipts: seq<Receipt>) returns (r: Option<seq<Transaction>>)
    ensures r == None <==> exists tx <- txs :: LacksStatus(receipts, tx)
    ensures r.Some? ==> forall tx :: tx in r.value <==> tx in txs && IsCandidate(receipts, tx)
  {
    var candidates := [];
    for i := 0 to |txs|
      invariant forall tx <- txs[..i] :: !LacksStatus(receipts, tx)
      invariant forall tx :: tx in candidates <==> tx in txs[..i] && IsCandidate(receipts, tx)
    {
      assert txs[..i + 1] == txs[..i] + [txs[i]];
      if LacksStatus(receipts, txs[i]) { return None; }
      if IsCandidate(receipts, txs[i]) {
        candidates := candidates + [txs[i]];
      }
    }
    assert txs[..|txs|] == txs;
    return Some(candidates);
  }

  /** The transactions that use the nonce of `tx`. */
  method SameNonce(txs: seq<Transaction>, tx: Transaction) returns (same: seq<Transaction>)
    ensures forall other :: other in same <==> other in txs && other.sender == tx.sender && other.nonce == tx.nonce
  {
    same := [];
    for i := 0 to |txs|
      invariant forall other :: other in same <==> other in txs[..i] && other.sender == tx.sender && other.nonce == tx.nonce
    {
      assert txs[..i + 1] == txs[..i] + [txs[i]];
      if txs[i].sender == tx.sender && txs[i].nonce == tx.nonce {
        same := same + [txs[i]];
      }
    }
    assert txs[..|txs|] == txs;
  }

  /** Goes through the candidates and gives up at the first unclear one; fails if a status is missing. */
  method FindPhantoms(txs: seq<Transaction>, receipts: seq<Receipt>, nonceAfter: string -> nat) returns (r: Option<set<Hash>>)
    ensures r == None <==> exists tx <- txs :: HasReceipt(receipts, tx.hash, None)
    ensures r.Some? ==> r.value == Phantoms(txs, receipts, nonceAfter)
    ensures r.Some? ==> if InDispute(txs, receipts, nonceAfter) then r.value == {} else AreStripped(txs, receipts, nonceAfter, r.value)
  {
    hide Judge, IsCandidate, LacksStatus, HasReceipt, InDispute, AreStripped;
    LackIsMissing(txs, receipts);
    PhantomsAreStripped(txs, receipts, nonceAfter);
    var found := FindCandidates(txs, receipts);
    if found == None { return None; }
    var candidates, phantoms := found.value, {};
    for i := 0 to |candidates|
      invariant forall tx <- candidates[..i] :: Judge(txs, receipts, nonceAfter, tx) != Unclear
      invariant phantoms == set tx | tx in candidates[..i] && Judge(txs, receipts, nonceAfter, tx) == Phantom :: tx.hash
    {
      var candidate := candidates[i];
      assert candidates[..i + 1] == candidates[..i] + [candidate];
      var verdict := Decide(txs, receipts, nonceAfter, candidate);
      if verdict == Unclear { return Some({}); }
      if verdict == Phantom {
        phantoms := phantoms + {candidate.hash};
      }
    }
    assert candidates[..|candidates|] == candidates;
    return Some(phantoms);
  }

  method Decide(txs: seq<Transaction>, receipts: seq<Receipt>, nonceAfter: string -> nat, candidate: Transaction)
      returns (verdict: Verdict)
    ensures verdict == Judge(txs, receipts, nonceAfter, candidate)
  {
    if candidate.nonce >= nonceAfter(candidate.sender) { return Phantom; }
    var same := SameNonce(txs, candidate);
    var successfulCompeter := exists tx <- same :: tx.hash != candidate.hash && HasStatus(receipts, tx.hash, 1);
    if successfulCompeter { return Phantom; }
    var shared := exists tx <- same :: tx.hash != candidate.hash && IsCandidate(receipts, tx);
    return if shared then Unclear else Executed;
  }

  /** Equal hashes mean equal transactions. */
  ghost predicate HashesIdentify(txs: seq<Transaction>) {
    forall a, b :: a in txs && b in txs && a.hash == b.hash ==> a.sender == b.sender && a.nonce == b.nonce
  }

  /** A transaction that succeeded is never stripped. */
  lemma SuccessStays(txs: seq<Transaction>, receipts: seq<Receipt>, nonceAfter: string -> nat, tx: Transaction)
    requires HasStatus(receipts, tx.hash, 1)
    ensures tx.hash !in Phantoms(txs, receipts, nonceAfter)
  {
  }

  /** Whoever's nonce was used up in this block keeps a transaction with it. */
  lemma ConsumedNonceStays(txs: seq<Transaction>, receipts: seq<Receipt>, nonceAfter: string -> nat, tx: Transaction)
      returns (kept: Transaction)
    requires HashesIdentify(txs) && tx in txs && tx.nonce < nonceAfter(tx.sender)
    ensures kept in txs && kept.hash !in Phantoms(txs, receipts, nonceAfter)
    ensures kept.sender == tx.sender && kept.nonce == tx.nonce
  {
    if tx.hash !in Phantoms(txs, receipts, nonceAfter) {
      kept := tx;
    } else {
      var c :| c in txs && IsCandidate(receipts, c) && Judge(txs, receipts, nonceAfter, c) == Phantom && c.hash == tx.hash;
      kept :| kept in txs && Competes(c, kept) && HasStatus(receipts, kept.hash, 1);
      SuccessStays(txs, receipts, nonceAfter, kept);
    }
  }

  /** The verdict does not depend on the order in which transactions are looked at. */
  lemma OrderDoesNotMatter(txs: seq<Transaction>, others: seq<Transaction>, receipts: seq<Receipt>, nonceAfter: string -> nat)
    requires forall tx :: tx in txs <==> tx in others
    ensures Phantoms(txs, receipts, nonceAfter) == Phantoms(others, receipts, nonceAfter)
  {
    assert forall tx :: Judge(txs, receipts, nonceAfter, tx) == Judge(others, receipts, nonceAfter, tx);
  }

  // ---------- Renumbering ----------

  /** The position of a hash; of several the last one counts. */
  function IndexOf(txs: seq<Transaction>, hash: Hash): (i: Option<nat>)
    ensures i.Some? ==> i.value < |txs| && txs[i.value].hash == hash
    ensures i == None ==> forall tx <- txs :: tx.hash != hash
  {
    if txs == [] then None
    else if txs[|txs| - 1].hash == hash then Some(|txs| - 1)
    else IndexOf(txs[..|txs| - 1], hash)
  }

  ghost predicate DistinctHashes(txs: seq<Transaction>) {
    forall i, j :: 0 <= i < j < |txs| ==> txs[i].hash != txs[j].hash
  }

  lemma IndexIsPosition(txs: seq<Transaction>, i: nat)
    requires DistinctHashes(txs) && i < |txs|
    ensures IndexOf(txs, txs[i].hash) == Some(i)
  {
    var j := IndexOf(txs, txs[i].hash);
    assert txs[i] in txs;
  }

  function Kept(txs: seq<Transaction>, phantoms: set<Hash>): seq<Transaction> {
    if txs == [] then []
    else
      var n := |txs| - 1;
      Kept(txs[..n], phantoms) + if txs[n].hash in phantoms then [] else [txs[n]]
  }

  function KeptReceipts(receipts: seq<Receipt>, phantoms: set<Hash>): seq<Receipt> {
    if receipts == [] then []
    else
      var n := |receipts| - 1;
      KeptReceipts(receipts[..n], phantoms) + if receipts[n].transactionHash in phantoms then [] else [receipts[n]]
  }

  function NotAmong(phantoms: set<Hash>): Transaction -> bool {
    (tx: Transaction) => tx.hash !in phantoms
  }

  function IsOfNone(phantoms: set<Hash>): Receipt -> bool {
    (r: Receipt) => r.transactionHash !in phantoms
  }

  lemma {:induction false} KeptSelects(txs: seq<Transaction>, phantoms: set<Hash>)
    ensures Selects(txs, NotAmong(phantoms), Kept(txs, phantoms))
  {
    hide Selects;
    if txs == [] {
      SelectsNone(txs, NotAmong(phantoms));
    } else {
      var n := |txs| - 1;
      KeptSelects(txs[..n], phantoms);
      SelectsMore(txs[..n], NotAmong(phantoms), Kept(txs[..n], phantoms), txs[n]);
      assert txs == txs[..n] + [txs[n]] && Kept(txs[..n], phantoms) + [] == Kept(txs[..n], phantoms);
    }
  }

  lemma {:induction false} KeptReceiptsSelects(receipts: seq<Receipt>, phantoms: set<Hash>)
    ensures Selects(receipts, IsOfNone(phantoms), KeptReceipts(receipts, phantoms))
  {
    hide Selects;
    if receipts == [] {
      SelectsNone(receipts, IsOfNone(phantoms));
    } else {
      var n := |receipts| - 1;
      KeptReceiptsSelects(receipts[..n], phantoms);
      SelectsMore(receipts[..n], IsOfNone(phantoms), KeptReceipts(receipts[..n], phantoms), receipts[n]);
      assert receipts == receipts[..n] + [receipts[n]];
      assert KeptReceipts(receipts[..n], phantoms) + [] == KeptReceipts(receipts[..n], phantoms);
    }
  }

  /** Keeping what is not among the stripped hashes is keeping what had an effect. */
  lemma StrippedAre(txs: seq<Transaction>, receipts: seq<Receipt>, nonceAfter: string -> nat, phantoms: set<Hash>)
    requires DistinctHashes(txs) && AreStripped(txs, receipts, nonceAfter, phantoms)
    ensures Selects(txs, Survives(txs, receipts, nonceAfter), Kept(txs, phantoms))
  {
    hide HadNoEffect, Selects;
    KeptSelects(txs, phantoms);
    forall tx: Transaction | tx in txs ensures NotAmong(phantoms)(tx) == Survives(txs, receipts, nonceAfter)(tx) {
      SameOfHash(txs, tx);
    }
    SelectsAlike(txs, NotAmong(phantoms), Survives(txs, receipts, nonceAfter), Kept(txs, phantoms));
  }

  lemma SameOfHash(txs: seq<Transaction>, tx: Transaction)
    requires DistinctHashes(txs) && tx in txs
    ensures forall other <- txs :: other.hash == tx.hash ==> other == tx
  {
  }

  lemma {:induction false} KeptMeans(txs: seq<Transaction>, phantoms: set<Hash>)
    ensures forall i :: 0 <= i < |Kept(txs, phantoms)| ==> Kept(txs, phantoms)[i] in txs && Kept(txs, phantoms)[i].hash !in phantoms
    ensures forall i :: 0 <= i < |txs| && txs[i].hash !in phantoms ==> txs[i] in Kept(txs, phantoms)
  {
    if txs != [] {
      var n := |txs| - 1;
      KeptMeans(txs[..n], phantoms);
      assert txs == txs[..n] + [txs[n]];
    }
  }

  lemma {:induction false} KeptReceiptsMean(receipts: seq<Receipt>, phantoms: set<Hash>)
    ensures forall i :: 0 <= i < |KeptReceipts(receipts, phantoms)| ==>
              KeptReceipts(receipts, phantoms)[i] in receipts && KeptReceipts(receipts, phantoms)[i].transactionHash !in phantoms
    ensures forall i :: 0 <= i < |receipts| && receipts[i].transactionHash !in phantoms ==>
              receipts[i] in KeptReceipts(receipts, phantoms)
    ensures Apart(receipts) ==> Apart(KeptReceipts(receipts, phantoms))
  {
    if receipts != [] {
      var n := |receipts| - 1;
      KeptReceiptsMean(receipts[..n], phantoms);
      assert receipts == receipts[..n] + [receipts[n]];
      if Apart(receipts) {
        var before := KeptReceipts(receipts[..n], phantoms);
        forall i | 0 <= i < |before| ensures before[i] != receipts[n] && forall log <- before[i].logs :: log !in receipts[n].logs {
          assert before[i] in receipts[..n];
          var j :| 0 <= j < n && receipts[..n][j] == before[i];
          assert receipts[j] == before[i];
        }
      }
    }
  }

  lemma {:induction false} KeptDistinct(txs: seq<Transaction>, phantoms: set<Hash>)
    requires DistinctHashes(txs)
    ensures DistinctHashes(Kept(txs, phantoms))
  {
    if txs != [] {
      KeptDistinct(txs[..|txs| - 1], phantoms);
      KeptMeans(txs[..|txs| - 1], phantoms);
      var before := Kept(txs[..|txs| - 1], phantoms);
      forall i | 0 <= i < |before| ensures before[i].hash != txs[|txs| - 1].hash {
        assert before[i] in txs[..|txs| - 1];
        var j :| 0 <= j < |txs| - 1 && txs[..|txs| - 1][j] == before[i];
        assert txs[j] == before[i];
      }
    }
  }

  ghost predicate Numbered(txs: seq<Transaction>)
    reads txs
  {
    forall i :: 0 <= i < |txs| ==> txs[i].transactionIndex == i
  }

  /** A receipt and its logs carry the position of their transaction. */
  ghost predicate Follows(receipt: Receipt, txs: seq<Transaction>)
    reads receipt, receipt.logs
  {
    var i := IndexOf(txs, receipt.transactionHash);
    i.Some? ==> receipt.transactionIndex == i.value && forall log <- receipt.logs :: log.transactionIndex == i.value
  }

  /** No two receipts share a log, and none appears twice. */
  ghost predicate Apart(receipts: seq<Receipt>) {
    forall i, j :: 0 <= i < j < |receipts| ==> receipts[i] != receipts[j] && forall log <- receipts[i].logs :: log !in receipts[j].logs
  }

  method NumberTransactions(txs: seq<Transaction>)
    requires DistinctHashes(txs)
    modifies txs
    ensures Numbered(txs)
  {
    for i := 0 to |txs|
      invariant forall j :: 0 <= j < i ==> txs[j].transactionIndex == j
    {
      txs[i].transactionIndex := i;
    }
  }

  method NumberLogs(logs: seq<Log>, index: nat)
    modifies logs
    ensures forall log <- logs :: log.transactionIndex == index
  {
    for i := 0 to |logs|
      invariant forall log <- logs[..i] :: log.transactionIndex == index
    {
      assert logs[..i + 1] == logs[..i] + [logs[i]];
      logs[i].transactionIndex := index;
    }
    assert logs[..|logs|] == logs;
  }

  ghost function AllLogs(receipts: seq<Receipt>): set<Log> {
    set receipt, log | receipt in receipts && log in receipt.logs :: log
  }

  lemma LogsAreAmongAll(receipts: seq<Receipt>, i: nat)
    requires i < |receipts|
    ensures forall k :: 0 <= k < |receipts[i].logs| ==> receipts[i].logs[k] in AllLogs(receipts)
  {
    forall k | 0 <= k < |receipts[i].logs| ensures receipts[i].logs[k] in AllLogs(receipts) {
      assert receipts[i] in receipts && receipts[i].logs[k] in receipts[i].logs;
    }
  }

  method NumberReceipts(receipts: seq<Receipt>, txs: seq<Transaction>)
    requires Apart(receipts)
    modifies receipts, AllLogs(receipts)
    ensures forall i :: 0 <= i < |receipts| ==> Follows(receipts[i], txs)
  {
    hide IndexOf;
    for i := 0 to |receipts|
      invariant forall j :: 0 <= j < i ==> Follows(receipts[j], txs)
    {
      var receipt := receipts[i];
      var index := IndexOf(txs, receipt.transactionHash);
      if index == None { continue; }
      receipt.transactionIndex := index.value;
      LogsAreAmongAll(receipts, i);
      NumberLogs(receipt.logs, index.value);
    }
  }

  // ---------- Missing receipts ----------

  function Missing(txs: seq<Transaction>, receipts: seq<Receipt>): (r: seq<Transaction>)
    ensures forall tx <- r :: tx in txs && ReceiptOf(receipts, tx.hash) == None
    ensures forall tx <- txs :: ReceiptOf(receipts, tx.hash) == None ==> tx in r
  {
    if txs == [] then []
    else
      var n := |txs| - 1;
      Missing(txs[..n], receipts) + if ReceiptOf(receipts, txs[n].hash) == None then [txs[n]] else []
  }

  method FindMissing(txs: seq<Transaction>, receipts: seq<Receipt>) returns (missing: seq<Transaction>)
    ensures missing == Missing(txs, receipts)
  {
    missing := [];
    for i := 0 to |txs|
      invariant missing == Missing(txs[..i], receipts)
    {
      assert txs[..i + 1][..i] == txs[..i];
      if ReceiptOf(receipts, txs[i].hash) == None {
        missing := missing + [txs[i]];
      }
    }
    assert txs[..|txs|] == txs;
  }

  /** What the node answers when asked for the receipt of one transaction. */
  type Node = Hash -> Option<Receipt>

  predicate Answers(node: Node, block: Hash, tx: Transaction) {
    node(tx.hash).Some? && node(tx.hash).value.blockHash == block
  }

  /** The answers for the given transactions, up to the first one that is of no use. */
  function Recovered(node: Node, block: Hash, missing: seq<Transaction>): (r: seq<Receipt>)
    ensures |r| <= |missing|
    ensures (forall tx <- missing :: Answers(node, block, tx)) ==> |r| == |missing|
    ensures forall i :: 0 <= i < |r| ==> Answers(node, block, missing[i]) && r[i] == node(missing[i].hash).value
  {
    if missing == [] || !Answers(node, block, missing[0]) then []
    else [node(missing[0].hash).value] + Recovered(node, block, missing[1..])
  }

  function Key(txs: seq<Transaction>): Receipt -> seq<int> {
    (r: Receipt) => [IndexOf(txs, r.transactionHash).GetOr(0)]
  }

  /** One receipt for each transaction, at its position. */
  ghost predicate LinedUp(receipts: seq<Receipt>, txs: seq<Transaction>) {
    |receipts| == |txs| && forall i :: 0 <= i < |txs| ==> receipts[i].transactionHash == txs[i].hash
  }

  ghost predicate OneEach(receipts: seq<Receipt>, txs: seq<Transaction>) {
    && (forall i, j :: 0 <= i < j < |receipts| ==> receipts[i].transactionHash != receipts[j].transactionHash)
    && (forall r <- receipts :: IndexOf(txs, r.transactionHash).Some?)
    && forall tx <- txs :: exists r <- receipts :: r.transactionHash == tx.hash
  }

  /** Increasing numbers that are exactly those below `n` are 0, 1, 2, ... */
  lemma {:induction false} Consecutive(s: seq<int>, n: nat)
    requires forall i, j :: 0 <= i < j < |s| ==> s[i] < s[j]
    requires forall v :: 0 <= v < n <==> v in s
    ensures |s| == n && forall i :: 0 <= i < n ==> s[i] == i
    decreases n
  {
    assert forall i :: 0 <= i < |s| ==> s[i] in s;
    assert |s| > 0 ==> s[0] in s;
    if n > 0 {
      var k := |s| - 1;
      assert n - 1 in s && s[k] == n - 1;
      var shorter := s[..k];
      forall v | v in shorter ensures 0 <= v < n - 1 {
        var i :| 0 <= i < k && shorter[i] == v;
        assert s[i] in s && s[i] < s[k];
      }
      forall v | 0 <= v < n - 1 ensures v in shorter {
        assert v in s;
        var i :| 0 <= i < |s| && s[i] == v;
        assert i < k;
        assert shorter[i] == v;
      }
      Consecutive(shorter, n - 1);
      assert forall i :: 0 <= i < k ==> s[i] == shorter[i];
    }
  }

  function Positions(txs: seq<Transaction>, receipts: seq<Receipt>): (r: seq<int>)
    ensures |r| == |receipts|
  {
    seq(|receipts|, i requires 0 <= i < |receipts| => IndexOf(txs, receipts[i].transactionHash).GetOr(0))
  }

  lemma SingleBefore(x: int, y: int)
    ensures CallAddresses.Before([x], [y]) ==> x < y
  {
  }

  lemma KeysDiffer(receipts: seq<Receipt>, txs: seq<Transaction>)
    requires OneEach(receipts, txs)
    ensures forall i, j :: 0 <= i < j < |receipts| ==> Key(txs)(receipts[i]) != Key(txs)(receipts[j])
  {
    forall i, j | 0 <= i < j < |receipts| ensures Key(txs)(receipts[i]) != Key(txs)(receipts[j]) {
      assert receipts[i] in receipts && receipts[j] in receipts;
      KeyDiffers(txs, receipts[i], receipts[j]);
    }
  }

  lemma KeyDiffers(txs: seq<Transaction>, x: Receipt, y: Receipt)
    requires IndexOf(txs, x.transactionHash).Some? && IndexOf(txs, y.transactionHash).Some?
    requires x.transactionHash != y.transactionHash
    ensures Key(txs)(x) != Key(txs)(y)
  {
    var a, b := IndexOf(txs, x.transactionHash).value, IndexOf(txs, y.transactionHash).value;
    assert txs[a].hash != txs[b].hash;
    assert Key(txs)(x) == [a] && Key(txs)(y) == [b];
    assert Key(txs)(x)[0] != Key(txs)(y)[0];
  }

  lemma PositionsIncrease(receipts: seq<Receipt>, txs: seq<Transaction>)
    requires OneEach(receipts, txs)
    ensures var p := Positions(txs, SortBy(Key(txs), receipts)); forall i, j :: 0 <= i < j < |p| ==> p[i] < p[j]
  {
    KeysDiffer(receipts, txs);
    SortStrictly(Key(txs), receipts);
    var s := SortBy(Key(txs), receipts);
    var p := Positions(txs, s);
    forall i, j | 0 <= i < j < |p| ensures p[i] < p[j] {
      assert Key(txs)(s[i]) == [p[i]] && Key(txs)(s[j]) == [p[j]];
      SingleBefore(p[i], p[j]);
    }
  }

  /** The positions of one receipt for each transaction are all positions. */
  lemma PositionsCover(receipts: seq<Receipt>, txs: seq<Transaction>)
    requires DistinctHashes(txs) && OneEach(receipts, txs)
    ensures forall v :: 0 <= v < |txs| <==> v in Positions(txs, receipts)
  {
    var p := Positions(txs, receipts);
    forall v | v in p ensures 0 <= v < |txs| {
      var i :| 0 <= i < |p| && p[i] == v;
      var r := receipts[i];
      assert r in receipts && IndexOf(txs, r.transactionHash).Some?;
      assert v == IndexOf(txs, r.transactionHash).value;
    }
    forall v | 0 <= v < |txs| ensures v in p {
      assert txs[v] in txs;
      var r :| r in receipts && r.transactionHash == txs[v].hash;
      var i :| 0 <= i < |receipts| && receipts[i] == r;
      IndexIsPosition(txs, v);
      assert p[i] == v;
    }
  }

  lemma OneEachSorted(receipts: seq<Receipt>, sorted: seq<Receipt>, txs: seq<Transaction>)
    requires OneEach(receipts, txs) && multiset(sorted) == multiset(receipts)
    ensures OneEach(sorted, txs)
  {
    SameMembers(sorted, receipts);
    SameMembers(receipts, sorted);
    forall i, j | 0 <= i < j < |receipts| ensures receipts[i] != receipts[j] {
    }
    StaysDistinct(receipts, sorted);
    forall i, j | 0 <= i < j < |sorted| ensures sorted[i].transactionHash != sorted[j].transactionHash {
      assert sorted[i] in receipts && sorted[j] in receipts;
    }
    forall tx <- txs ensures exists r <- sorted :: r.transactionHash == tx.hash {
      var r :| r in receipts && r.transactionHash == tx.hash;
      assert r in sorted;
    }
  }

  /** Sorting by position lines receipts up with transactions. */
  lemma SortLinesUp(receipts: seq<Receipt>, txs: seq<Transaction>)
    requires DistinctHashes(txs) && OneEach(receipts, txs)
    ensures LinedUp(SortBy(Key(txs), receipts), txs)
    ensures multiset(SortBy(Key(txs), receipts)) == multiset(receipts)
  {
    hide SortBy, IndexOf, DistinctHashes;
    var sorted := SortBy(Key(txs), receipts);
    SortSorts(Key(txs), receipts);
    OneEachSorted(receipts, sorted, txs);
    PositionsIncrease(receipts, txs);
    PositionsCover(sorted, txs);
    Consecutive(Positions(txs, sorted), |txs|);
    forall i | 0 <= i < |txs| ensures sorted[i].transactionHash == txs[i].hash {
      assert sorted[i] in sorted && Positions(txs, sorted)[i] == i;
    }
  }

  // ---------- The repairs ----------

  class Block {
    const hash: Hash
    var transactions: seq<Transaction>
    var receipts: seq<Receipt>

    constructor (hash: Hash, transactions: seq<Transaction>, receipts: seq<Receipt>)
      ensures this.hash == hash && this.transactions == transactions && this.receipts == receipts
    {
      this.hash, this.transactions, this.receipts := hash, transactions, receipts;
    }

    /** Asks the node for the missing receipts; if it has them all, receipts line up with transactions. */
    method RecoverReceipts(node: Node) returns (ok: bool)
      requires DistinctHashes(transactions)
      requires forall i, j :: 0 <= i < j < |receipts| ==> receipts[i].transactionHash != receipts[j].transactionHash
      requires forall r <- receipts :: IndexOf(transactions, r.transactionHash).Some?
      requires forall tx <- transactions :: node(tx.hash).Some? ==> node(tx.hash).value.transactionHash == tx.hash
      requires Apart(Together(transactions, receipts, node, hash))
      modifies this, Together(transactions, receipts, node, hash), AllLogs(Together(transactions, receipts, node, hash))
      ensures transactions == old(transactions)
      ensures ok <==> forall tx <- Missing(transactions, old(receipts)) :: Answers(node, hash, tx)
      ensures Missing(transactions, old(receipts)) == [] ==> receipts == old(receipts)
      ensures ok && Missing(transactions, old(receipts)) != [] ==>
                && LinedUp(receipts, transactions)
                && multiset(receipts) == multiset(old(Together(transactions, receipts, node, hash)))
                && forall i :: 0 <= i < |receipts| ==> Follows(receipts[i], transactions)
    {
      hide DistinctHashes, Apart, Follows, IndexOf, SortBy, LinedUp, OneEach, Recovered, Missing;
      ghost var before := receipts;
      var missing := FindMissing(transactions, receipts);
      if missing == [] { return true; }
      ok := GatherReceipts(node, missing);
      if !ok { return; }
      AllHaveReceipts(transactions, before, node, hash);
      LineUp();
    }

    /** Appends the receipts the node answers with, up to the first missing one it has no use for. */
    method GatherReceipts(node: Node, missing: seq<Transaction>) returns (ok: bool)
      modifies this`receipts
      ensures ok <==> forall tx <- missing :: Answers(node, hash, tx)
      ensures ok ==> receipts == old(receipts) + Recovered(node, hash, missing)
      ensures ok ==> |Recovered(node, hash, missing)| == |missing|
    {
      hide Recovered;
      for i := 0 to |missing|
        invariant i <= |Recovered(node, hash, missing)|
        invariant receipts == old(receipts) + Recovered(node, hash, missing)[..i]
      {
        var recovered := node(missing[i].hash);
        RecoveredMore(node, hash, missing, i);
        if recovered == None || recovered.value.blockHash != hash { return false; }
        receipts := receipts + [recovered.value];
      }
      AllAnswer(node, hash, missing);
      ok := true;
    }

    /** Sorts receipts by the position of their transactions, and numbers them. */
    method LineUp()
      requires DistinctHashes(transactions) && OneEach(receipts, transactions) && Apart(receipts)
      modifies this`receipts, receipts, AllLogs(receipts)
      ensures LinedUp(receipts, transactions) && multiset(receipts) == multiset(old(receipts))
      ensures forall i :: 0 <= i < |receipts| ==> Follows(receipts[i], transactions)
    {
      hide DistinctHashes, Apart, Follows, IndexOf, SortBy, LinedUp, OneEach;
      SortLinesUp(receipts, transactions);
      SortStaysApart(receipts, SortBy(Key(transactions), receipts));
      var sorted := SortBy(Key(transactions), receipts);
      receipts := sorted;
      NumberReceipts(sorted, transactions);
    }

    /**
     Strips phantoms and renumbers what is left, or changes nothing.  Nothing is changed either when there is a
     dispute, or when a receipt has no status.
     */
    method StripPhantoms(nonceAfter: string -> nat) returns (r: Option<set<Hash>>)
      requires DistinctHashes(transactions) && Apart(receipts)
      modifies this, transactions, receipts, AllLogs(receipts)
      ensures r == None <==> exists tx <- old(transactions) :: HasReceipt(old(receipts), tx.hash, None)
      ensures r.Some? ==> r.value == Phantoms(old(transactions), old(receipts), nonceAfter)
      ensures r.Some? && InDispute(old(transactions), old(receipts), nonceAfter) ==> r.value == {}
      ensures r.Some? && !InDispute(old(transactions), old(receipts), nonceAfter) ==>
                && Selects(old(transactions), Survives(old(transactions), old(receipts), nonceAfter), transactions)
                && IsSettled(transactions, old(receipts), nonceAfter)
      ensures r.Some? ==> Selects(old(receipts), IsOfNone(r.value), receipts)
      ensures DistinctHashes(transactions) && Apart(receipts)
      ensures r in {None, Some({})} ==>
                && transactions == old(transactions) && receipts == old(receipts)
                && unchanged(transactions) && unchanged(receipts) && unchanged(AllLogs(receipts))
      ensures r !in {None, Some({})} ==> Numbered(transactions) && forall i :: 0 <= i < |receipts| ==> Follows(receipts[i], transactions)
    {
      hide Phantoms, Kept, KeptReceipts, DistinctHashes, Apart, Numbered, Follows, HasReceipt, InDispute, AreStripped, Selects, IsSettled;
      r := FindPhantoms(transactions, receipts, nonceAfter);
      if r == None { return; }
      var phantoms := r.value;
      KeptSelects(transactions, phantoms);
      KeptReceiptsSelects(receipts, phantoms);
      if !InDispute(transactions, receipts, nonceAfter) {
        StrippedAre(transactions, receipts, nonceAfter, phantoms);
        LeftAreSettled(transactions, receipts, nonceAfter, Kept(transactions, phantoms));
      }
      if phantoms == {} {
        KeptNone(transactions, receipts);
        return;
      }
      KeptDistinct(transactions, phantoms);
      KeptMeans(transactions, phantoms);
      KeptReceiptsMean(receipts, phantoms);
      var kept, keptReceipts := Kept(transactions, phantoms), KeptReceipts(receipts, phantoms);
      FewerLogs(receipts, keptReceipts);
      transactions := kept;
      NumberTransactions(kept);
      receipts := keptReceipts;
      NumberReceipts(keptReceipts, kept);
    }
  }

  /** The receipts known, and those the node adds. */
  function Together(txs: seq<Transaction>, receipts: seq<Receipt>, node: Node, block: Hash): seq<Receipt> {
    receipts + Recovered(node, block, Missing(txs, receipts))
  }

  lemma {:induction false} RecoveredMore(node: Node, block: Hash, missing: seq<Transaction>, i: nat)
    requires i < |missing| && i <= |Recovered(node, block, missing)|
    ensures i < |Recovered(node, block, missing)| <==> Answers(node, block, missing[i])
    ensures i < |Recovered(node, block, missing)| ==> Recovered(node, block, missing)[i] == node(missing[i].hash).value
    decreases i
  {
    if i > 0 { RecoveredMore(node, block, missing[1..], i - 1); }
  }

  lemma AllAnswer(node: Node, block: Hash, missing: seq<Transaction>)
    requires |Recovered(node, block, missing)| == |missing|
    ensures Recovered(node, block, missing)[..|missing|] == Recovered(node, block, missing)
    ensures forall tx <- missing :: Answers(node, block, tx)
  {
  }

  /** With an answer for every missing transaction there is one receipt for each. */
  lemma AllHaveReceipts(txs: seq<Transaction>, receipts: seq<Receipt>, node: Node, block: Hash)
    requires DistinctHashes(txs)
    requires forall i, j :: 0 <= i < j < |receipts| ==> receipts[i].transactionHash != receipts[j].transactionHash
    requires forall r <- receipts :: IndexOf(txs, r.transactionHash).Some?
    requires forall tx <- txs :: node(tx.hash).Some? ==> node(tx.hash).value.transactionHash == tx.hash
    requires |Recovered(node, block, Missing(txs, receipts))| == |Missing(txs, receipts)|
    ensures OneEach(Together(txs, receipts, node, block), txs)
  {
    hide Recovered, Missing, IndexOf, DistinctHashes;
    var missing := Missing(txs, receipts);
    var more, all := Recovered(node, block, missing), Together(txs, receipts, node, block);
    NamedAsMissing(txs, receipts, node, block);
    MissingDistinct(txs, receipts);
    forall i, j | 0 <= i < j < |all| ensures all[i].transactionHash != all[j].transactionHash {
      if i < |receipts| <= j {
        assert missing[j - |receipts|] in missing && receipts[i] in receipts;
      } else if |receipts| <= i {
        assert missing[i - |receipts|].hash != missing[j - |receipts|].hash;
      }
    }
    forall r <- all ensures IndexOf(txs, r.transactionHash).Some? {
      if r !in receipts {
        var i :| 0 <= i < |more| && more[i] == r;
        assert missing[i] in missing && missing[i] in txs;
      }
    }
    forall tx <- txs ensures exists r <- all :: r.transactionHash == tx.hash {
      var known := ReceiptOf(receipts, tx.hash);
      if known.Some? {
        assert known.value in all;
      } else {
        var i :| 0 <= i < |missing| && missing[i] == tx;
        assert more[i] in all;
      }
    }
  }

  lemma NamedAsMissing(txs: seq<Transaction>, receipts: seq<Receipt>, node: Node, block: Hash)
    requires forall tx <- txs :: node(tx.hash).Some? ==> node(tx.hash).value.transactionHash == tx.hash
    ensures var missing := Missing(txs, receipts);
            forall i :: 0 <= i < |Recovered(node, block, missing)| ==>
              Recovered(node, block, missing)[i].transactionHash == missing[i].hash
  {
    var missing := Missing(txs, receipts);
    forall i | 0 <= i < |Recovered(node, block, missing)|
      ensures Recovered(node, block, missing)[i].transactionHash == missing[i].hash
    {
      assert missing[i] in missing && missing[i] in txs;
    }
  }

  lemma {:induction false} MissingDistinct(txs: seq<Transaction>, receipts: seq<Receipt>)
    requires DistinctHashes(txs)
    ensures DistinctHashes(Missing(txs, receipts))
    ensures forall i, j :: 0 <= i < j < |Missing(txs, receipts)| ==> Missing(txs, receipts)[i].hash != Missing(txs, receipts)[j].hash
  {
    if txs != [] {
      var n := |txs| - 1;
      MissingDistinct(txs[..n], receipts);
      var before := Missing(txs[..n], receipts);
      forall tx <- before ensures tx.hash != txs[n].hash {
        LastDiffers(txs, tx);
      }
    }
  }

  lemma LastDiffers(txs: seq<Transaction>, tx: Transaction)
    requires DistinctHashes(txs) && txs != [] && tx in txs[..|txs| - 1]
    ensures tx.hash != txs[|txs| - 1].hash
  {
    var j :| 0 <= j < |txs| - 1 && txs[..|txs| - 1][j] == tx;
    assert txs[j] == tx;
  }

  lemma SortStaysApart(receipts: seq<Receipt>, sorted: seq<Receipt>)
    requires Apart(receipts) && multiset(sorted) == multiset(receipts)
    ensures Apart(sorted) && AllLogs(sorted) == AllLogs(receipts)
    ensures forall i :: 0 <= i < |sorted| ==> sorted[i] in receipts
  {
    SameMembers(sorted, receipts);
    StaysDistinct(receipts, sorted);
    forall i, j | 0 <= i < j < |sorted| ensures forall log <- sorted[i].logs :: log !in sorted[j].logs {
      var a :| 0 <= a < |receipts| && receipts[a] == sorted[i];
      var b :| 0 <= b < |receipts| && receipts[b] == sorted[j];
      assert a != b;
    }
  }

  lemma FewerLogs(receipts: seq<Receipt>, fewer: seq<Receipt>)
    requires forall i :: 0 <= i < |fewer| ==> fewer[i] in receipts
    ensures AllLogs(fewer) <= AllLogs(receipts)
  {
  }

  lemma {:induction false} KeptNone(txs: seq<Transaction>, receipts: seq<Receipt>)
    ensures Kept(txs, {}) == txs && KeptReceipts(receipts, {}) == receipts
    decreases |txs| + |receipts|
  {
    if txs != [] { KeptNone(txs[..|txs| - 1], []); }
    if receipts != [] { KeptNone([], receipts[..|receipts| - 1]); }
  }
}
