/**
 The roots in which a block commits to its transactions: the Merkle root over transaction ids, and the
 witness commitment in an output of the coinbase.
 */
module BlockRoots {
  import opened Wrappers
  import opened ByteOrder
  import opened MerkleTree
  import TransactionCodec

  type Transaction = TransactionCodec.Transaction

  /** The hashes in use: of bytes, of two digests, and of a root with the value reserved in the coinbase. */
  datatype Hashes<!T> = Hashes(ofBytes: Bytes -> T, combine: (T, T) -> T, seal: (T, Bytes) -> T, zero: T)

  /** A transaction as it comes, with the id it claims to have. */
  datatype Claimed<T> = Claimed(tx: Transaction, txid: T)

  function Id<T>(hashes: Hashes<T>, tx: Transaction, withWitness: bool): T {
    hashes.ofBytes(TransactionCodec.Encoded(tx, withWitness))
  }

  function Ids<T>(hashes: Hashes<T>, txs: seq<Transaction>): (ids: seq<T>)
    ensures |ids| == |txs|
  {
    seq(|txs|, i requires 0 <= i < |txs| => Id(hashes, txs[i], false))
  }

  /** Ids over everything, witnesses included; the coinbase counts as zero. */
  function WitnessIds<T>(hashes: Hashes<T>, txs: seq<Transaction>): (ids: seq<T>)
    ensures |ids| == |txs|
  {
    seq(|txs|, i requires 0 <= i < |txs| => if i == 0 then hashes.zero else Id(hashes, txs[i], true))
  }

  function RootOrZero<T>(hashes: Hashes<T>, ids: seq<T>): T {
    if ids == [] then hashes.zero else Root(hashes.combine, ids)
  }

  function TransactionsOf<T>(claimed: seq<Claimed<T>>): (txs: seq<Transaction>)
    ensures |txs| == |claimed|
  {
    seq(|claimed|, i requires 0 <= i < |claimed| => claimed[i].tx)
  }

  lemma IdIs<T>(hashes: Hashes<T>, tx: Transaction, withWitness: bool)
    ensures Id(hashes, tx, withWitness) == hashes.ofBytes(TransactionCodec.Encoded(tx, withWitness))
  {
  }

  lemma OneMoreId<T>(hashes: Hashes<T>, claimed: seq<Claimed<T>>, i: nat)
    requires i < |claimed|
    ensures Ids(hashes, TransactionsOf(claimed[..i + 1]))
         == Ids(hashes, TransactionsOf(claimed[..i])) + [Id(hashes, claimed[i].tx, false)]
  {
    hide Id;
  }

  lemma OneMoreWitnessId<T>(hashes: Hashes<T>, txs: seq<Transaction>, i: nat)
    requires 0 < i < |txs|
    ensures WitnessIds(hashes, txs[..i + 1]) == WitnessIds(hashes, txs[..i]) + [Id(hashes, txs[i], true)]
  {
    hide Id;
  }

  /** Fails on the first transaction whose id is not the one it claims. */
  method TransactionsRoot<T(==)>(hashes: Hashes<T>, claimed: seq<Claimed<T>>) returns (r: Option<T>)
    ensures r.Some? <==> forall c <- claimed :: c.txid == Id(hashes, c.tx, false)
    ensures r.Some? ==> r.value == RootOrZero(hashes, Ids(hashes, TransactionsOf(claimed)))
  {
    hide Id, Root, TransactionCodec.Encoded;
    var txids := [];
    for i := 0 to |claimed|
      invariant txids == Ids(hashes, TransactionsOf(claimed[..i]))
      invariant forall k :: 0 <= k < i ==> claimed[k].txid == Id(hashes, claimed[k].tx, false)
    {
      var bytes := TransactionCodec.EncodeTransaction(claimed[i].tx, false);
      var id := hashes.ofBytes(bytes);
      assert id == Id(hashes, claimed[i].tx, false) by { IdIs(hashes, claimed[i].tx, false); }
      if claimed[i].txid != id {
        assert claimed[i] in claimed;
        return None;
      }
      OneMoreId(hashes, claimed, i);
      txids := txids + [id];
    }
    assert claimed[..|claimed|] == claimed;
    var root := MerkleRoot(hashes.combine, txids, hashes.zero);
    r := Some(root);
  }

  // ---------- The witness commitment ----------

  const COMMITMENT_TAG: Bytes := [0x6a, 0x24, 0xaa, 0x21, 0xa9, 0xed]

  predicate IsCommitment(script: Bytes) {
    COMMITMENT_TAG <= script && |script| >= 38
  }

  /** Output `i` is the last one whose script is the tag, then `value`, then anything. */
  ghost predicate CommitsLast(vout: seq<TransactionCodec.Output>, i: nat, value: Bytes) {
    && i < |vout| && CommitsTo(vout[i], value) && forall j :: i < j < |vout| ==> forall other :: !CommitsTo(vout[j], other)
  }

  ghost predicate CommitsTo(out: TransactionCodec.Output, value: Bytes) {
    |value| == 32 && COMMITMENT_TAG + value <= out.script.GetOr([])
  }

  lemma CommitmentIff(out: TransactionCodec.Output)
    ensures var script := out.script.GetOr([]); IsCommitment(script) ==> CommitsTo(out, script[6..38])
    ensures !IsCommitment(out.script.GetOr([])) ==> forall value :: !CommitsTo(out, value)
  {
    var script := out.script.GetOr([]);
    if IsCommitment(script) {
      assert COMMITMENT_TAG + script[6..38] == script[..38];
    }
    forall value | CommitsTo(out, value) ensures IsCommitment(script) {
      assert script[..6] == (COMMITMENT_TAG + value)[..6] == COMMITMENT_TAG;
    }
  }

  /** The commitment in the last output that has one. */
  function CommitmentIn(vout: seq<TransactionCodec.Output>): (r: Option<Bytes>)
    ensures r == None <==> forall out <- vout :: !IsCommitment(out.script.GetOr([]))
    ensures r.Some? ==> |r.value| == 32
  {
    if vout == [] then None
    else
      var script := vout[|vout| - 1].script.GetOr([]);
      if IsCommitment(script) then Some(script[6..38]) else CommitmentIn(vout[..|vout| - 1])
  }

  lemma {:induction false} CommitmentStands(vout: seq<TransactionCodec.Output>) returns (i: nat)
    requires CommitmentIn(vout).Some?
    ensures CommitsLast(vout, i, CommitmentIn(vout).value)
  {
    hide CommitsTo, IsCommitment;
    i := |vout| - 1;
    CommitmentIff(vout[i]);
    if !IsCommitment(vout[i].script.GetOr([])) {
      i := CommitmentStands(vout[..i]);
    }
  }

  /** `value` is the first item of the coinbase's witness. */
  ghost predicate Carries(coinbase: Transaction, value: Bytes) {
    coinbase.vin != [] && coinbase.vin[0].Coinbase? && |value| == 32 && exists rest :: coinbase.vin[0].txinwitness == Some([value] + rest)
  }

  lemma {:induction false} ReservedIs(coinbase: Transaction)
    ensures forall value :: Carries(coinbase, value) ==> ReservedValue(coinbase) == value
    ensures (forall value :: !Carries(coinbase, value)) ==> ReservedValue(coinbase) == seq(32, _ => 0)
  {
    if coinbase.vin != [] && coinbase.vin[0].Coinbase? && coinbase.vin[0].txinwitness.Some? {
      var stack := coinbase.vin[0].txinwitness.value;
      if stack != [] && |stack[0]| == 32 {
        assert stack == [stack[0]] + stack[1..];
        assert Carries(coinbase, stack[0]);
      }
    }
  }

  /** 32 zero bytes unless the coinbase carries a value of that size. */
  function ReservedValue(coinbase: Transaction): (r: Bytes)
    ensures |r| == 32
  {
    if coinbase.vin == [] || coinbase.vin[0].Spend? then TransactionCodec.Zeros(32)
    else
      var stack := coinbase.vin[0].txinwitness.GetOr([]);
      if stack == [] || |stack[0]| != 32 then TransactionCodec.Zeros(32) else stack[0]
  }

  function Sealed<T>(hashes: Hashes<T>, txs: seq<Transaction>): T
    requires txs != []
  {
    hashes.seal(Root(hashes.combine, WitnessIds(hashes, txs)), ReservedValue(txs[0]))
  }

  method FindCommitment(vout: seq<TransactionCodec.Output>) returns (r: Option<Bytes>)
    ensures r == CommitmentIn(vout)
    ensures r == None ==> forall out, value :: out in vout ==> !CommitsTo(out, value)
    ensures r.Some? ==> exists i: nat :: CommitsLast(vout, i, r.value)
  {
    r := None;
    for i := 0 to |vout|
      invariant r == CommitmentIn(vout[..i])
    {
      assert vout[..i + 1][..i] == vout[..i];
      var script := vout[i].script.GetOr([]);
      if IsCommitment(script) { r := Some(script[6..38]); }
    }
    assert vout[..|vout|] == vout;
    if r.Some? {
      ghost var i := CommitmentStands(vout);
    }
    forall out | out in vout && r == None ensures forall value :: !CommitsTo(out, value) {
      CommitmentIff(out);
    }
  }

  /** What the coinbase should commit to, if it commits to anything. */
  method WitnessCommitment<T>(hashes: Hashes<T>, txs: seq<Transaction>) returns (r: Option<T>)
    requires txs != []
    ensures r == if CommitmentIn(txs[0].vout) == None then None else Some(Sealed(hashes, txs))
    ensures r == None <==> forall out, value :: out in txs[0].vout ==> !CommitsTo(out, value)
  {
    hide CommitsTo, Id, Root, TransactionCodec.Encoded, CommitmentIn, ReservedValue;
    var commitment := FindCommitment(txs[0].vout);
    if commitment == None { return None; }
    var wtxids := [hashes.zero];
    for i := 1 to |txs|
      invariant wtxids == WitnessIds(hashes, txs[..i])
    {
      var bytes := TransactionCodec.EncodeTransaction(txs[i], true);
      IdIs(hashes, txs[i], true);
      OneMoreWitnessId(hashes, txs, i);
      wtxids := wtxids + [hashes.ofBytes(bytes)];
    }
    assert txs[..|txs|] == txs;
    var root := MerkleRoot(hashes.combine, wtxids, hashes.zero);
    r := Some(hashes.seal(root, ReservedValue(txs[0])));
  }

  // ---------- What the roots say about the transactions ----------

  ghost predicate AllInRange(txs: seq<Transaction>) {
    forall tx <- txs :: TransactionCodec.InRange(tx) && tx.vin != []
  }

  /** The hash tells the encodings of transactions at the same place apart. */
  ghost predicate EncodingsApart<T>(hashes: Hashes<T>, a: seq<Transaction>, b: seq<Transaction>, withWitness: bool)
    requires |a| == |b|
  {
    forall i :: 0 <= i < |a| && Id(hashes, a[i], withWitness) == Id(hashes, b[i], withWitness) ==>
      TransactionCodec.Encoded(a[i], withWitness) == TransactionCodec.Encoded(b[i], withWitness)
  }

  /** Transactions agree from number `from` on, apart from witnesses unless these count. */
  ghost predicate Agree(a: seq<Transaction>, b: seq<Transaction>, from: nat, withWitness: bool) {
    && |a| == |b|
    && forall i :: from <= i < |a| ==> TransactionCodec.Plain(a[i], withWitness) == TransactionCodec.Plain(b[i], withWitness)
  }

  lemma SameId<T>(hashes: Hashes<T>, a: seq<Transaction>, b: seq<Transaction>, withWitness: bool, i: nat)
    requires |a| == |b| && i < |a| && AllInRange(a) && AllInRange(b) && EncodingsApart(hashes, a, b, withWitness)
    ensures Id(hashes, a[i], withWitness) == Id(hashes, b[i], withWitness)
            <==> TransactionCodec.Plain(a[i], withWitness) == TransactionCodec.Plain(b[i], withWitness)
  {
    hide TransactionCodec.Encoded, TransactionCodec.Plain, TransactionCodec.InRange;
    TransactionCodec.EncodingIsInjective(a[i], b[i], withWitness);
  }

  /** Blocks with as many transactions have the same root exactly when their transactions agree but for witnesses. */
  lemma RootBindsTransactions<T>(hashes: Hashes<T>, a: seq<Transaction>, b: seq<Transaction>)
    requires a != [] && |a| == |b| && AllInRange(a) && AllInRange(b)
    requires EncodingsApart(hashes, a, b, false) && NoCollision(hashes.combine, Ids(hashes, a), Ids(hashes, b))
    ensures RootOrZero(hashes, Ids(hashes, a)) == RootOrZero(hashes, Ids(hashes, b)) <==> Agree(a, b, 0, false)
  {
    hide Id, Root, NoCollision, EncodingsApart, TransactionCodec.Plain, TransactionCodec.InRange;
    RootTellsApart(hashes.combine, Ids(hashes, a), Ids(hashes, b));
    forall i | 0 <= i < |a|
      ensures Ids(hashes, a)[i] == Ids(hashes, b)[i]
              <==> TransactionCodec.Plain(a[i], false) == TransactionCodec.Plain(b[i], false)
    {
      SameId(hashes, a, b, false, i);
    }
  }

  /** ... and seal the same value exactly when they also agree on witnesses, the coinbase apart, and on the reserved value. */
  lemma SealBindsWitnesses<T>(hashes: Hashes<T>, a: seq<Transaction>, b: seq<Transaction>)
    requires a != [] && |a| == |b| && AllInRange(a) && AllInRange(b) && EncodingsApart(hashes, a, b, true)
    requires NoCollision(hashes.combine, WitnessIds(hashes, a), WitnessIds(hashes, b))
    requires var r, s := Root(hashes.combine, WitnessIds(hashes, a)), Root(hashes.combine, WitnessIds(hashes, b));
             Sealed(hashes, a) == Sealed(hashes, b) ==> r == s && ReservedValue(a[0]) == ReservedValue(b[0])
    ensures Sealed(hashes, a) == Sealed(hashes, b)
            <==> Agree(a, b, 1, true) && ReservedValue(a[0]) == ReservedValue(b[0])
  {
    hide Id, Root, NoCollision, EncodingsApart, ReservedValue, TransactionCodec.Plain, TransactionCodec.InRange;
    RootTellsApart(hashes.combine, WitnessIds(hashes, a), WitnessIds(hashes, b));
    forall i | 1 <= i < |a|
      ensures WitnessIds(hashes, a)[i] == WitnessIds(hashes, b)[i]
              <==> TransactionCodec.Plain(a[i], true) == TransactionCodec.Plain(b[i], true)
    {
      SameId(hashes, a, b, true, i);
    }
  }
}
