/**
 The serialization of Bitcoin transactions with and without witnesses (the "Serialization" section of BIP 144),
 and a parser that undoes it.
 */
module TransactionCodec {
  import opened Wrappers
  import opened ByteOrder

  // ---------- Numbers ----------

  function VarInt(n: nat): (s: Bytes)
    ensures s != []
  {
    if n < 0xfd then [n]
    else if n <= 0xffff then [0xfd] + LittleEndian(n, 2)
    else if n <= 0xffff_ffff then [0xfe] + LittleEndian(n, 4)
    else [0xff] + LittleEndian(n, 8)
  }

  function ReadNumber(s: Bytes, k: nat): Option<(nat, Bytes)> {
    if |s| < k then None else Some((FromLittleEndian(s[..k]), s[k..]))
  }

  function ReadVarInt(s: Bytes): Option<(nat, Bytes)> {
    if s == [] then None
    else if s[0] < 0xfd then Some((s[0], s[1..]))
    else ReadNumber(s[1..], if s[0] == 0xfd then 2 else if s[0] == 0xfe then 4 else 8)
  }

  lemma NumberBack(n: nat, k: nat, rest: Bytes)
    requires n < Pow256(k)
    ensures ReadNumber(LittleEndian(n, k) + rest, k) == Some((n, rest))
  {
    LittleEndianBack(n, k);
    var s := LittleEndian(n, k) + rest;
    assert s[..k] == LittleEndian(n, k) && s[k..] == rest;
  }

  /** A length tells where it ends. */
  lemma VarIntBack(n: nat, rest: Bytes)
    requires n < 0x1_0000_0000_0000_0000
    ensures ReadVarInt(VarInt(n) + rest) == Some((n, rest))
  {
    hide LittleEndian, ReadNumber, Pow256;
    Powers();
    var s := VarInt(n) + rest;
    if n < 0xfd {
      assert s[1..] == rest;
    } else {
      var k := if n <= 0xffff then 2 else if n <= 0xffff_ffff then 4 else 8;
      assert s[1..] == LittleEndian(n, k) + rest;
      NumberBack(n, k, rest);
    }
  }

  /** Of all the bytes that are read as this length, these are the fewest, and the only ones that are so few. */
  lemma VarIntIsShortest(n: nat, s: Bytes)
    requires ReadVarInt(s) == Some((n, []))
    ensures s == VarInt(n) || |s| > |VarInt(n)|
  {
    hide LittleEndian, FromLittleEndian, Pow256;
    Powers();
    if s[0] < 0xfd {
      assert s == [s[0]] + s[1..];
    } else {
      var k := if s[0] == 0xfd then 2 else if s[0] == 0xfe then 4 else 8;
      assert s[1..][..k] == s[1..] && s == [s[0]] + s[1..];
      FromLittleEndianBack(s[1..]);
    }
  }

  /** No length is the beginning of another one. */
  lemma VarIntsDiffer(m: nat, n: nat, a: Bytes, b: Bytes)
    requires m < 0x1_0000_0000_0000_0000 && n < 0x1_0000_0000_0000_0000
    ensures VarInt(m) + a == VarInt(n) + b <==> m == n && a == b
  {
    VarIntBack(m, a);
    VarIntBack(n, b);
  }

  // ---------- Transactions ----------

  /** Hashes are given in the order in which they are printed, which is the reverse of the order of their bytes. */
  datatype Input =
    | Coinbase(script: Bytes, sequence: Option<nat>, txinwitness: Option<seq<Bytes>>)
    | Spend(txid: Bytes, vout: nat, scriptSig: Option<Bytes>, sequence: Option<nat>, txinwitness: Option<seq<Bytes>>)

  datatype Output = Output(sats: nat, script: Option<Bytes>)

  datatype Transaction = Transaction(version: Option<nat>, vin: seq<Input>, vout: seq<Output>, locktime: Option<nat>)

  function Reverse(s: Bytes): (r: Bytes)
    ensures |r| == |s| && forall i :: 0 <= i < |s| ==> r[i] == s[|s| - 1 - i]
  {
    seq(|s|, i requires 0 <= i < |s| => s[|s| - 1 - i])
  }

  function Zeros(n: nat): (s: Bytes)
    ensures |s| == n && forall i :: 0 <= i < n ==> s[i] == 0
  {
    if n == 0 then [] else [0] + Zeros(n - 1)
  }

  const NULL_OUTPOINT: Bytes := Zeros(32) + [0xff, 0xff, 0xff, 0xff]

  function EncodeOutpoint(vin: Input): Bytes {
    match vin
    case Coinbase(_, _, _) => NULL_OUTPOINT
    case Spend(txid, vout, _, _, _) => Reverse(txid) + LittleEndian(vout, 4)
  }

  function EncodeScript(script: Bytes): Bytes {
    VarInt(|script|) + script
  }

  function ScriptOf(vin: Input): Bytes {
    match vin
    case Coinbase(script, _, _) => script
    case Spend(_, _, scriptSig, _, _) => scriptSig.GetOr([])
  }

  function EncodeVin(vin: Input): Bytes {
    EncodeOutpoint(vin) + EncodeScript(ScriptOf(vin)) + LittleEndian(vin.sequence.GetOr(0xffff_ffff), 4)
  }

  function EncodeVout(vout: Output): Bytes {
    LittleEndian(vout.sats, 8) + EncodeScript(vout.script.GetOr([]))
  }

  function Concat(parts: seq<Bytes>): Bytes {
    if parts == [] then [] else parts[0] + Concat(parts[1..])
  }

  /** A list of items encoded one after the other, behind their number. */
  function EncodeList<T>(encode: T -> Bytes, items: seq<T>): Bytes {
    VarInt(|items|) + Items(encode, items)
  }

  function Items<T>(encode: T -> Bytes, items: seq<T>): Bytes {
    if items == [] then [] else encode(items[0]) + Items(encode, items[1..])
  }

  function WitnessOf(vin: Input): seq<Bytes> {
    match vin
    case Coinbase(_, _, _) => []  // whatever the coinbase carries is not encoded
    case Spend(_, _, _, _, txinwitness) => txinwitness.GetOr([])
  }

  function EncodeWitnessStack(vin: Input): Bytes {
    EncodeList(EncodeScript, WitnessOf(vin))
  }

  predicate HasWitness(tx: Transaction) {
    exists vin <- tx.vin :: WitnessOf(vin) != []
  }

  function Encoded(tx: Transaction, withWitness: bool): Bytes {
    var useWitness := withWitness && HasWitness(tx);
    LittleEndian(tx.version.GetOr(1), 4) + (if useWitness then [0x00, 0x01] else [])
    + EncodeList(EncodeVin, tx.vin) + EncodeList(EncodeVout, tx.vout)
    + (if useWitness then Items(EncodeWitnessStack, tx.vin) else [])
    + LittleEndian(tx.locktime.GetOr(0), 4)
  }

  lemma {:induction false} ConcatMore(parts: seq<Bytes>, last: Bytes)
    ensures Concat(parts + [last]) == Concat(parts) + last
  {
    if parts != [] {
      ConcatMore(parts[1..], last);
      assert (parts + [last])[1..] == parts[1..] + [last];
    }
  }

  lemma {:induction false} ItemsMore<T>(encode: T -> Bytes, items: seq<T>, last: T)
    ensures Items(encode, items + [last]) == Items(encode, items) + encode(last)
  {
    if items != [] {
      ItemsMore(encode, items[1..], last);
      assert (items + [last])[1..] == items[1..] + [last];
    }
  }

  // ---------- What an encoding says ----------

  datatype PlainInput = PlainCoinbase(script: Bytes, sequence: nat) | PlainSpend(txid: Bytes, vout: nat, script: Bytes, sequence: nat)

  datatype PlainTransaction = PlainTransaction(version: nat, vin: seq<PlainInput>, vout: seq<(nat, Bytes)>,
                                               stacks: Option<seq<seq<Bytes>>>, locktime: nat)

  function PlainVin(vin: Input): PlainInput {
    match vin
    case Coinbase(_, sequence, _) => PlainCoinbase(ScriptOf(vin), sequence.GetOr(0xffff_ffff))
    case Spend(txid, vout, _, sequence, _) => PlainSpend(txid, vout, ScriptOf(vin), sequence.GetOr(0xffff_ffff))
  }

  function PlainVout(vout: Output): (nat, Bytes) {
    (vout.sats, vout.script.GetOr([]))
  }

  function Map<A, B>(f: A -> B, s: seq<A>): (r: seq<B>)
    ensures |r| == |s|
  {
    seq(|s|, i requires 0 <= i < |s| => f(s[i]))
  }

  /** A transaction with its defaults filled in, and without witnesses unless they are encoded. */
  function Plain(tx: Transaction, withWitness: bool): PlainTransaction {
    PlainTransaction(tx.version.GetOr(1), Map(PlainVin, tx.vin), Map(PlainVout, tx.vout),
                     if withWitness && HasWitness(tx) then Some(Map(WitnessOf, tx.vin)) else None,
                     tx.locktime.GetOr(0))
  }

  /** The input is told as it is, a missing script as an empty one and a missing sequence number as the highest. */
  ghost predicate TellsInput(vin: Input, p: PlainInput) {
    match vin
    case Coinbase(script, sequence, _) => p == PlainCoinbase(script, sequence.GetOr(0xffff_ffff))
    case Spend(txid, vout, scriptSig, sequence, _) => p == PlainSpend(txid, vout, scriptSig.GetOr([]), sequence.GetOr(0xffff_ffff))
  }

  /** Some input other than the coinbase carries a witness. */
  ghost predicate Witnessed(tx: Transaction) {
    exists vin <- tx.vin :: vin.Spend? && vin.txinwitness !in {None, Some([])}
  }

  ghost predicate TellsStack(vin: Input, stack: seq<Bytes>) {
    stack == if vin.Coinbase? then [] else vin.txinwitness.GetOr([])
  }

  /** All of the transaction, with a stack for each input if witnesses are asked for and there are some. */
  ghost predicate Tells(tx: Transaction, withWitness: bool, p: PlainTransaction) {
    && p.version == tx.version.GetOr(1) && p.locktime == tx.locktime.GetOr(0)
    && |p.vin| == |tx.vin| && (forall i :: 0 <= i < |tx.vin| ==> TellsInput(tx.vin[i], p.vin[i]))
    && |p.vout| == |tx.vout| && (forall i :: 0 <= i < |tx.vout| ==> p.vout[i] == (tx.vout[i].sats, tx.vout[i].script.GetOr([])))
    && (p.stacks.Some? <==> withWitness && Witnessed(tx))
    && (p.stacks.Some? ==>
          |p.stacks.value| == |tx.vin| && forall i :: 0 <= i < |tx.vin| ==> TellsStack(tx.vin[i], p.stacks.value[i]))
  }

  lemma WitnessedIff(tx: Transaction)
    ensures HasWitness(tx) <==> Witnessed(tx)
  {
    assert forall vin <- tx.vin :: WitnessOf(vin) != [] <==> vin.Spend? && vin.txinwitness !in {None, Some([])};
  }

  lemma PlainTells(tx: Transaction, withWitness: bool)
    ensures Tells(tx, withWitness, Plain(tx, withWitness))
  {
    hide HasWitness, Witnessed;
    WitnessedIff(tx);
    var p := Plain(tx, withWitness);
    forall i | 0 <= i < |tx.vin| ensures TellsInput(tx.vin[i], p.vin[i]) {
      assert p.vin[i] == PlainVin(tx.vin[i]);
    }
    forall i | 0 <= i < |tx.vout| ensures p.vout[i] == (tx.vout[i].sats, tx.vout[i].script.GetOr([])) {
      assert p.vout[i] == PlainVout(tx.vout[i]);
    }
    if p.stacks.Some? {
      forall i | 0 <= i < |tx.vin| ensures TellsStack(tx.vin[i], p.stacks.value[i]) {
        assert p.stacks.value[i] == WitnessOf(tx.vin[i]);
      }
    }
  }

  // ---------- The parser ----------

  type Reader<!T> = Bytes -> Option<(T, Bytes)>

  function ReadBytes(s: Bytes, n: nat): Option<(Bytes, Bytes)> {
    if |s| < n then None else Some((s[..n], s[n..]))
  }

  function ReadScript(s: Bytes): Option<(Bytes, Bytes)> {
    match ReadVarInt(s)
    case None => None
    case Some((n, rest)) => ReadBytes(rest, n)
  }

  function ReadItems<T>(read: Reader<T>, n: nat, s: Bytes): Option<(seq<T>, Bytes)>
    decreases n
  {
    if n == 0 then Some(([], s))
    else
      match read(s)
      case None => None
      case Some((item, rest)) =>
        match ReadItems(read, n - 1, rest)
        case None => None
        case Some((items, end)) => Some(([item] + items, end))
  }

  function ReadList<T>(read: Reader<T>, s: Bytes): Option<(seq<T>, Bytes)> {
    match ReadVarInt(s)
    case None => None
    case Some((n, rest)) => ReadItems(read, n, rest)
  }

  function ReadVin(s: Bytes): Option<(PlainInput, Bytes)> {
    if |s| < 36 then None
    else
      match ReadScript(s[36..])
      case None => None
      case Some((script, rest)) =>
        match ReadNumber(rest, 4)
        case None => None
        case Some((sequence, end)) =>
          if s[..36] == NULL_OUTPOINT then Some((PlainCoinbase(script, sequence), end))
          else Some((PlainSpend(Reverse(s[..32]), FromLittleEndian(s[32..36]), script, sequence), end))
  }

  function ReadVout(s: Bytes): Option<((nat, Bytes), Bytes)> {
    match ReadNumber(s, 8)
    case None => None
    case Some((sats, rest)) =>
      match ReadScript(rest)
      case None => None
      case Some((script, end)) => Some(((sats, script), end))
  }

  function ReadWitnessStack(s: Bytes): Option<(seq<Bytes>, Bytes)> {
    ReadList(ReadScript, s)
  }

  /** A zero where the number of inputs should be announces witnesses. */
  function Parse(s: Bytes): Option<PlainTransaction> {
    match ReadNumber(s, 4)
    case None => None
    case Some((version, body)) =>
      var hasWitness := |body| >= 2 && body[0] == 0 && body[1] == 1;
      match ReadList(ReadVin, if hasWitness then body[2..] else body)
      case None => None
      case Some((vin, afterVin)) =>
        match ReadList(ReadVout, afterVin)
        case None => None
        case Some((vout, afterVout)) =>
          match (if hasWitness then ReadItems(ReadWitnessStack, |vin|, afterVout) else Some(([], afterVout)))
          case None => None
          case Some((stacks, tail)) =>
            match ReadNumber(tail, 4)
            case None => None
            case Some((locktime, end)) =>
              if end != [] then None
              else Some(PlainTransaction(version, vin, vout, if hasWitness then Some(stacks) else None, locktime))
  }

  // ---------- The parser undoes the encoding ----------

  /** `read` gives back `item`, whatever follows its encoding. */
  ghost predicate Undoes<T>(read: Reader<T>, encoding: Bytes, item: T) {
    forall rest: Bytes :: read(encoding + rest) == Some((item, rest))
  }

  lemma Append(a: Bytes, b: Bytes, c: Bytes)
    ensures (a + b) + c == a + (b + c)
  {
  }

  lemma {:induction false} ItemsBack<A, T>(encode: A -> Bytes, read: Reader<T>, plain: A -> T, items: seq<A>, rest: Bytes)
    requires forall i :: 0 <= i < |items| ==> Undoes(read, encode(items[i]), plain(items[i]))
    ensures ReadItems(read, |items|, Items(encode, items) + rest) == Some((Map(plain, items), rest))
  {
    if items == [] {
      assert Items(encode, items) + rest == rest && Map(plain, items) == [];
    } else {
      var others := items[1..];
      forall i | 0 <= i < |others| ensures Undoes(read, encode(others[i]), plain(others[i])) {
        assert others[i] == items[i + 1];
      }
      ItemsBack(encode, read, plain, others, rest);
      Append(encode(items[0]), Items(encode, others), rest);
      assert Undoes(read, encode(items[0]), plain(items[0]));
      assert Map(plain, items) == [plain(items[0])] + Map(plain, others);
    }
  }

  lemma ListBack<A, T>(encode: A -> Bytes, read: Reader<T>, plain: A -> T, items: seq<A>, rest: Bytes)
    requires |items| < 0x1_0000_0000_0000_0000
    requires forall i :: 0 <= i < |items| ==> Undoes(read, encode(items[i]), plain(items[i]))
    ensures ReadList(read, EncodeList(encode, items) + rest) == Some((Map(plain, items), rest))
  {
    hide ReadVarInt, VarInt, Map, ReadItems, Items, Undoes;
    Append(VarInt(|items|), Items(encode, items), rest);
    VarIntBack(|items|, Items(encode, items) + rest);
    ItemsBack(encode, read, plain, items, rest);
  }

  lemma ScriptBack(script: Bytes, rest: Bytes)
    requires |script| < 0x1_0000_0000_0000_0000
    ensures ReadScript(EncodeScript(script) + rest) == Some((script, rest))
  {
    hide ReadVarInt, VarInt;
    Append(VarInt(|script|), script, rest);
    VarIntBack(|script|, script + rest);
    assert (script + rest)[..|script|] == script && (script + rest)[|script|..] == rest;
  }

  /** Numbers and lengths fit, hashes have 32 bytes, and only the coinbase spends nothing. */
  predicate Fits(n: nat) {
    n < 0x1_0000_0000_0000_0000
  }

  ghost predicate VinInRange(vin: Input) {
    && Fits(|ScriptOf(vin)|) && vin.sequence.GetOr(0) < 0x1_0000_0000
    && (vin.Spend? ==> |vin.txid| == 32 && vin.vout < 0x1_0000_0000 && EncodeOutpoint(vin) != NULL_OUTPOINT)
    && Fits(|WitnessOf(vin)|) && forall item <- WitnessOf(vin) :: Fits(|item|)
  }

  ghost predicate InRange(tx: Transaction) {
    && tx.version.GetOr(0) < 0x1_0000_0000 && tx.locktime.GetOr(0) < 0x1_0000_0000
    && Fits(|tx.vin|) && (forall vin <- tx.vin :: VinInRange(vin))
    && Fits(|tx.vout|) && forall vout <- tx.vout :: Fits(vout.sats) && Fits(|vout.script.GetOr([])|)
  }

  lemma VinBack(vin: Input, rest: Bytes)
    requires VinInRange(vin)
    ensures ReadVin(EncodeVin(vin) + rest) == Some((PlainVin(vin), rest))
  {
    hide ReadNumber, LittleEndian, FromLittleEndian, ReadScript, EncodeScript, Reverse, Pow256;
    Powers();
    var script, sequence := ScriptOf(vin), vin.sequence.GetOr(0xffff_ffff);
    var tail := LittleEndian(sequence, 4) + rest;
    var s := EncodeOutpoint(vin) + (EncodeScript(script) + tail);
    assert EncodeVin(vin) + rest == s by {
      Append(EncodeOutpoint(vin) + EncodeScript(script), LittleEndian(sequence, 4), rest);
      Append(EncodeOutpoint(vin), EncodeScript(script), tail);
    }
    ScriptBack(script, tail);
    NumberBack(sequence, 4, rest);
    assert s[..36] == EncodeOutpoint(vin) && s[36..] == EncodeScript(script) + tail;
    if vin.Spend? {
      OutpointBack(vin.txid, vin.vout, s);
    }
  }

  lemma OutpointBack(txid: Bytes, vout: nat, s: Bytes)
    requires |txid| == 32 && vout < 0x1_0000_0000 && |s| >= 36 && s[..36] == Reverse(txid) + LittleEndian(vout, 4)
    ensures Reverse(s[..32]) == txid && FromLittleEndian(s[32..36]) == vout
  {
    Powers();
    LittleEndianBack(vout, 4);
    assert s[..32] == s[..36][..32] == Reverse(txid);
    assert s[32..36] == s[..36][32..] == LittleEndian(vout, 4);
  }

  lemma VoutBack(vout: Output, rest: Bytes)
    requires Fits(vout.sats) && Fits(|vout.script.GetOr([])|)
    ensures ReadVout(EncodeVout(vout) + rest) == Some((PlainVout(vout), rest))
  {
    hide ReadNumber, LittleEndian, ReadScript, EncodeScript;
    Powers();
    var script := vout.script.GetOr([]);
    Append(LittleEndian(vout.sats, 8), EncodeScript(script), rest);
    NumberBack(vout.sats, 8, EncodeScript(script) + rest);
    ScriptBack(script, rest);
  }

  lemma WitnessBack(vin: Input, rest: Bytes)
    requires VinInRange(vin)
    ensures ReadWitnessStack(EncodeWitnessStack(vin) + rest) == Some((WitnessOf(vin), rest))
  {
    hide ReadScript, EncodeScript;
    var items := WitnessOf(vin);
    forall i | 0 <= i < |items| ensures Undoes(ReadScript, EncodeScript(items[i]), ((x: Bytes) => x)(items[i])) {
      forall rest: Bytes ensures ReadScript(EncodeScript(items[i]) + rest) == Some((items[i], rest)) {
        ScriptBack(items[i], rest);
      }
    }
    ListBack(EncodeScript, ReadScript, x => x, items, rest);
    assert Map((x: Bytes) => x, items) == items;
  }

  lemma InputsBack(tx: Transaction, rest: Bytes)
    requires InRange(tx)
    ensures ReadList(ReadVin, EncodeList(EncodeVin, tx.vin) + rest) == Some((Map(PlainVin, tx.vin), rest))
  {
    hide EncodeVin, ReadVin, VinInRange;
    forall i | 0 <= i < |tx.vin| ensures Undoes(ReadVin, EncodeVin(tx.vin[i]), PlainVin(tx.vin[i])) {
      forall rest: Bytes ensures ReadVin(EncodeVin(tx.vin[i]) + rest) == Some((PlainVin(tx.vin[i]), rest)) {
        VinBack(tx.vin[i], rest);
      }
    }
    ListBack(EncodeVin, ReadVin, PlainVin, tx.vin, rest);
  }

  lemma OutputsBack(tx: Transaction, rest: Bytes)
    requires InRange(tx)
    ensures ReadList(ReadVout, EncodeList(EncodeVout, tx.vout) + rest) == Some((Map(PlainVout, tx.vout), rest))
  {
    hide EncodeVout, ReadVout;
    forall i | 0 <= i < |tx.vout| ensures Undoes(ReadVout, EncodeVout(tx.vout[i]), PlainVout(tx.vout[i])) {
      forall rest: Bytes ensures ReadVout(EncodeVout(tx.vout[i]) + rest) == Some((PlainVout(tx.vout[i]), rest)) {
        VoutBack(tx.vout[i], rest);
      }
    }
    ListBack(EncodeVout, ReadVout, PlainVout, tx.vout, rest);
  }

  lemma StacksBack(tx: Transaction, rest: Bytes)
    requires InRange(tx)
    ensures ReadItems(ReadWitnessStack, |tx.vin|, Items(EncodeWitnessStack, tx.vin) + rest) == Some((Map(WitnessOf, tx.vin), rest))
  {
    hide EncodeWitnessStack, ReadWitnessStack, VinInRange;
    forall i | 0 <= i < |tx.vin| ensures Undoes(ReadWitnessStack, EncodeWitnessStack(tx.vin[i]), WitnessOf(tx.vin[i])) {
      forall rest: Bytes ensures ReadWitnessStack(EncodeWitnessStack(tx.vin[i]) + rest) == Some((WitnessOf(tx.vin[i]), rest)) {
        WitnessBack(tx.vin[i], rest);
      }
    }
    ItemsBack(EncodeWitnessStack, ReadWitnessStack, WitnessOf, tx.vin, rest);
  }

  /** Without a marker the bytes after the version begin with the number of inputs, which is not zero. */
  lemma NoMarker(tx: Transaction, rest: Bytes)
    requires tx.vin != []
    ensures (EncodeList(EncodeVin, tx.vin) + rest)[0] != 0
  {
  }

  lemma Regroup(a: Bytes, m: Bytes, v: Bytes, o: Bytes, w: Bytes, l: Bytes)
    ensures a + m + v + o + w + l == a + (m + (v + (o + (w + (l + [])))))
  {
    Append(a + m + v + o, w, l);
    Append(a + m + v, o, w + l);
    Append(a + m, v, o + (w + l));
    Append(a, m, v + (o + (w + l)));
    assert l + [] == l;
  }

  /** Parsing undoes encoding. */
  lemma ParseUndoesEncoding(tx: Transaction, withWitness: bool)
    requires InRange(tx) && tx.vin != []
    ensures Parse(Encoded(tx, withWitness)) == Some(Plain(tx, withWitness))
    ensures Tells(tx, withWitness, Plain(tx, withWitness))
  {
    hide Tells, ReadNumber, LittleEndian, EncodeList, ReadList, ReadItems, Items, Map, Pow256, ReadVin, ReadVout, HasWitness;
    Powers();
    PlainTells(tx, withWitness);
    var version, locktime := tx.version.GetOr(1), tx.locktime.GetOr(0);
    var useWitness := withWitness && HasWitness(tx);
    var l := LittleEndian(locktime, 4) + [];
    var w := if useWitness then Items(EncodeWitnessStack, tx.vin) else [];
    var o, v := EncodeList(EncodeVout, tx.vout), EncodeList(EncodeVin, tx.vin);
    var m: Bytes := if useWitness then [0x00, 0x01] else [];
    Regroup(LittleEndian(version, 4), m, v, o, w, LittleEndian(locktime, 4));
    NumberBack(version, 4, m + (v + (o + (w + l))));
    assert useWitness ==> (m + (v + (o + (w + l))))[2..] == v + (o + (w + l));
    assert !useWitness ==> m + (v + (o + (w + l))) == v + (o + (w + l)) && w + l == l;
    NoMarker(tx, o + (w + l));
    InputsBack(tx, o + (w + l));
    OutputsBack(tx, w + l);
    if useWitness { StacksBack(tx, l); }
    NumberBack(locktime, 4, []);
  }

  lemma {:induction false} SameItems<A(!new), T>(encode: A -> Bytes, plain: A -> T, a: seq<A>, b: seq<A>)
    requires Map(plain, a) == Map(plain, b)
    requires forall x, y :: plain(x) == plain(y) ==> encode(x) == encode(y)
    ensures |a| == |b| && Items(encode, a) == Items(encode, b)
  {
    assert |Map(plain, a)| == |Map(plain, b)|;
    if a != [] {
      assert Map(plain, a)[0] == Map(plain, b)[0];
      assert Map(plain, a)[1..] == Map(plain, a[1..]) && Map(plain, b)[1..] == Map(plain, b[1..]);
      SameItems(encode, plain, a[1..], b[1..]);
    }
  }

  /** Two transactions have the same bytes exactly when they agree on what is encoded. */
  lemma EncodingIsInjective(a: Transaction, b: Transaction, withWitness: bool)
    requires InRange(a) && InRange(b) && a.vin != [] && b.vin != []
    ensures Encoded(a, withWitness) == Encoded(b, withWitness) <==> Plain(a, withWitness) == Plain(b, withWitness)
  {
    ParseUndoesEncoding(a, withWitness);
    ParseUndoesEncoding(b, withWitness);
    if Plain(a, withWitness) == Plain(b, withWitness) {
      hide Items, Map, LittleEndian, VarInt, Parse, HasWitness;
      SameItems(EncodeVin, PlainVin, a.vin, b.vin);
      SameItems(EncodeVout, PlainVout, a.vout, b.vout);
      if withWitness && HasWitness(a) { SameItems(EncodeWitnessStack, WitnessOf, a.vin, b.vin); }
    }
  }

  // ---------- The encoder ----------

  lemma {:induction false} ConcatBoth(a: seq<Bytes>, b: seq<Bytes>)
    ensures Concat(a + b) == Concat(a) + Concat(b)
  {
    if a == [] {
      assert a + b == b;
    } else {
      ConcatBoth(a[1..], b);
      assert (a + b)[1..] == a[1..] + b && (a + b)[0] == a[0];
      Append(a[0], Concat(a[1..]), Concat(b));
    }
  }

  lemma ConcatOne(part: Bytes)
    ensures Concat([part]) == part
  {
    assert Concat([part]) == part + Concat([]);
  }

  lemma {:induction false} ConcatItems<T>(encode: T -> Bytes, items: seq<T>)
    ensures Concat(Map(encode, items)) == Items(encode, items)
  {
    if items != [] {
      ConcatItems(encode, items[1..]);
      assert Map(encode, items)[1..] == Map(encode, items[1..]);
    }
  }

  method WriteWitnessStack(vin: Input) returns (bytes: Bytes)
    ensures bytes == EncodeWitnessStack(vin)
  {
    hide VarInt, EncodeScript;
    var items := WitnessOf(vin);
    var parts := [VarInt(|items|)];
    for i := 0 to |items|
      invariant Concat(parts) == VarInt(|items|) + Items(EncodeScript, items[..i])
    {
      ConcatMore(parts, EncodeScript(items[i]));
      ItemsMore(EncodeScript, items[..i], items[i]);
      assert items[..i + 1] == items[..i] + [items[i]];
      parts := parts + [EncodeScript(items[i])];
    }
    assert items[..|items|] == items;
    bytes := Concat(parts);
  }

  method EncodeTransaction(tx: Transaction, withWitness: bool) returns (bytes: Bytes)
    ensures bytes == Encoded(tx, withWitness)
  {
    hide VarInt, LittleEndian, EncodeVin, EncodeVout, EncodeWitnessStack, Items, Map, Concat;
    var useWitness := withWitness && HasWitness(tx);
    var parts := [LittleEndian(tx.version.GetOr(1), 4)];
    if useWitness {
      parts := parts + [[0x00, 0x01]];
    }
    assert parts == [LittleEndian(tx.version.GetOr(1), 4)] + (if useWitness then [[0x00, 0x01]] else []);
    PartsBeforeWitness(tx, useWitness);
    parts := parts + [VarInt(|tx.vin|)];
    parts := parts + Map(EncodeVin, tx.vin);
    parts := parts + [VarInt(|tx.vout|)];
    parts := parts + Map(EncodeVout, tx.vout);
    ghost var soFar := Concat(parts);
    NoItems(EncodeWitnessStack);
    if useWitness {
      for i := 0 to |tx.vin|
        invariant Concat(parts) == soFar + Items(EncodeWitnessStack, tx.vin[..i])
      {
        var stack := WriteWitnessStack(tx.vin[i]);
        ConcatMore(parts, stack);
        ItemsMore(EncodeWitnessStack, tx.vin[..i], tx.vin[i]);
        assert tx.vin[..i + 1] == tx.vin[..i] + [tx.vin[i]];
        parts := parts + [stack];
      }
      assert tx.vin[..|tx.vin|] == tx.vin;
    }
    assert Concat(parts) == soFar + (if useWitness then Items(EncodeWitnessStack, tx.vin) else []);
    ConcatMore(parts, LittleEndian(tx.locktime.GetOr(0), 4));
    parts := parts + [LittleEndian(tx.locktime.GetOr(0), 4)];
    bytes := Concat(parts);
  }

  /** The outpoint of a coinbase, and of any other input: its transaction with the bytes reversed, and its position. */
  lemma OutpointBytes(vin: Input)
    ensures vin.Coinbase? ==> EncodeOutpoint(vin) == seq(32, _ => 0) + [0xff, 0xff, 0xff, 0xff]
    ensures vin.Spend? ==>
              var bytes, n := EncodeOutpoint(vin), |vin.txid|;
              |bytes| == n + 4 && bytes[n..] == LittleEndian(vin.vout, 4) && forall i :: 0 <= i < n ==> bytes[i] == vin.txid[n - 1 - i]
  {
    hide LittleEndian;
    assert Zeros(32) == seq(32, _ => 0);
  }

  lemma NoItems<T>(encode: T -> Bytes)
    ensures Items(encode, []) == []
  {
  }

  lemma PartsBeforeWitness(tx: Transaction, useWitness: bool)
    ensures var parts := [LittleEndian(tx.version.GetOr(1), 4)] + (if useWitness then [[0x00, 0x01]] else [])
                         + [VarInt(|tx.vin|)] + Map(EncodeVin, tx.vin) + [VarInt(|tx.vout|)] + Map(EncodeVout, tx.vout);
            Concat(parts) == LittleEndian(tx.version.GetOr(1), 4) + (if useWitness then [0x00, 0x01] else [])
                             + EncodeList(EncodeVin, tx.vin) + EncodeList(EncodeVout, tx.vout)
  {
    hide VarInt, LittleEndian, EncodeVin, EncodeVout, Items, Map, Concat;
    var version := LittleEndian(tx.version.GetOr(1), 4);
    var head := [version] + (if useWitness then [[0x00, 0x01]] else []);
    ConcatOne(version);
    ConcatMore([version], [0x00, 0x01]);
    assert Concat(head) == version + (if useWitness then [0x00, 0x01] else []) by {
      assert !useWitness ==> head == [version];
    }
    ConcatMore(head, VarInt(|tx.vin|));
    ConcatItems(EncodeVin, tx.vin);
    ConcatBoth(head + [VarInt(|tx.vin|)], Map(EncodeVin, tx.vin));
    var inputs := head + [VarInt(|tx.vin|)] + Map(EncodeVin, tx.vin);
    ConcatMore(inputs, VarInt(|tx.vout|));
    ConcatItems(EncodeVout, tx.vout);
    ConcatBoth(inputs + [VarInt(|tx.vout|)], Map(EncodeVout, tx.vout));
  }
}
