/**
 The logs bloom of Ethereum blocks: a filter of 2048 bits, three for each address and topic.
 */
module Bloom {

  type Bytes = seq<bv8>

  /** The bits of a byte, the highest one first. */
  function Mask(k: nat): bv8
    requires k < 8
  {
    if k == 0 then 0x80 else if k == 1 then 0x40 else if k == 2 then 0x20 else if k == 3 then 0x10
    else if k == 4 then 8 else if k == 5 then 4 else if k == 6 then 2 else 1
  }

  predicate HasBit(b: bv8, k: nat)
    requires k < 8
  {
    b & Mask(k) != 0
  }

  lemma SetBit(b: bv8, k: nat, m: nat)
    requires k < 8 && m < 8
    ensures HasBit(b | Mask(k), m) <==> HasBit(b, m) || k == m
  {
    hide Mask;
    AndDistributes(b, Mask(k), Mask(m));
    MasksMeet(k, m);
    OrIsZero(b & Mask(m), Mask(k) & Mask(m));
  }

  lemma AndDistributes(a: bv8, b: bv8, m: bv8)
    ensures (a | b) & m == (a & m) | (b & m)
  {
  }

  lemma OrIsZero(a: bv8, b: bv8)
    ensures a | b == 0 <==> a == 0 && b == 0
  {
  }

  lemma MasksMeet(k: nat, m: nat)
    requires k < 8 && m < 8
    ensures Mask(k) & Mask(m) != 0 <==> k == m
  {
  }

  /** Masking `b` with `a` gives it back. */
  predicate GivesBack(a: bv8, b: bv8) {
    a & b == b
  }

  /** A byte holds the bits of another one just when masking with it gives that one back. */
  lemma ByteInclusion(a: bv8, b: bv8)
    ensures GivesBack(a, b) <==> forall k :: 0 <= k < 8 && HasBit(b, k) ==> HasBit(a, k)
  {
    Bits(a, b);
    EachBit(b);
    EachBit(a);
  }

  lemma EachBit(b: bv8)
    ensures HasBit(b, 0) <==> b & 0x80 != 0
    ensures HasBit(b, 1) <==> b & 0x40 != 0
    ensures HasBit(b, 2) <==> b & 0x20 != 0
    ensures HasBit(b, 3) <==> b & 0x10 != 0
    ensures HasBit(b, 4) <==> b & 8 != 0
    ensures HasBit(b, 5) <==> b & 4 != 0
    ensures HasBit(b, 6) <==> b & 2 != 0
    ensures HasBit(b, 7) <==> b & 1 != 0
  {
  }

  lemma Bits(a: bv8, b: bv8)
    ensures a & b == b <==>
              && (b & 0x80 != 0 ==> a & 0x80 != 0) && (b & 0x40 != 0 ==> a & 0x40 != 0)
              && (b & 0x20 != 0 ==> a & 0x20 != 0) && (b & 0x10 != 0 ==> a & 0x10 != 0)
              && (b & 8 != 0 ==> a & 8 != 0) && (b & 4 != 0 ==> a & 4 != 0)
              && (b & 2 != 0 ==> a & 2 != 0) && (b & 1 != 0 ==> a & 1 != 0)
  {
  }

  // ---------- The filter ----------

  /** The bit of the filter chosen by two bytes of a hash. */
  function BitOf(high: bv8, low: bv8): (bit: nat)
    ensures bit < 2048
  {
    0x7ff - ((((high as bv16) << 8) | (low as bv16)) & 0x7ff) as nat
  }

  lemma LowBits(high: bv8, low: bv8)
    ensures (((high as bv16) << 8) | (low as bv16)) & 0x7ff == (((high & 7) as bv16) << 8) | (low as bv16)
  {
  }

  lemma Joined(high: bv8, low: bv8)
    ensures (((high as bv16) << 8) | (low as bv16)) as nat == 256 * (high as nat) + low as nat
  {
  }

  lemma LowThree(b: bv8)
    ensures (b & 7) as nat == b as nat % 8
  {
  }

  lemma Modulo(high: nat, low: nat)
    requires low < 256
    ensures (256 * high + low) % 2048 == 256 * (high % 8) + low
  {
  }

  /** The number of the two bytes modulo 2048, counted from the last bit of the filter. */
  lemma BitIsNumber(high: bv8, low: bv8)
    ensures BitOf(high, low) == 2047 - (256 * (high as nat) + low as nat) % 2048
  {
    LowBits(high, low);
    Joined(high & 7, low);
    LowThree(high);
    Modulo(high as nat, low as nat);
  }

  ghost predicate Holds(bloom: Bytes, bit: nat)
    requires bit < 8 * |bloom|
  {
    HasBit(bloom[bit / 8], bit % 8)
  }

  /** The three bits of an entry; the hash is any function with at least six bytes. */
  function EntryBits(hash: Bytes -> Bytes, entry: Bytes): set<nat>
    requires |hash(entry)| >= 6
  {
    var h := hash(entry);
    {BitOf(h[0], h[1]), BitOf(h[2], h[3]), BitOf(h[4], h[5])}
  }

  ghost predicate LongHash(hash: Bytes -> Bytes) {
    forall entry :: |hash(entry)| >= 6
  }

  datatype Log = Log(address: Bytes, topics: seq<Bytes>)

  function Entries(log: Log): seq<Bytes> {
    [log.address] + log.topics
  }

  function AllEntries(logs: seq<Log>): seq<Bytes> {
    if logs == [] then [] else AllEntries(logs[..|logs| - 1]) + Entries(logs[|logs| - 1])
  }

  /** The filter holds exactly the bits of the given entries. */
  ghost predicate Summarizes(hash: Bytes -> Bytes, bloom: Bytes, entries: seq<Bytes>)
    requires LongHash(hash)
  {
    |bloom| == 256
    && forall bit: nat :: bit < 2048 ==> (Holds(bloom, bit) <==> exists entry <- entries :: bit in EntryBits(hash, entry))
  }

  method SetOne(bloom: array<bv8>, bit: nat)
    requires bloom.Length == 256 && bit < 2048
    modifies bloom
    ensures forall j: nat :: j < 2048 ==> (Holds(bloom[..], j) <==> old(Holds(bloom[..], j)) || j == bit)
  {
    var byteIndex, bitValue := bit / 8, Mask(bit % 8);
    ghost var before := bloom[..];
    bloom[byteIndex] := bloom[byteIndex] | bitValue;
    forall j: nat | j < 2048 ensures Holds(bloom[..], j) <==> Holds(before, j) || j == bit {
      SetBit(before[byteIndex], bit % 8, j % 8);
    }
  }

  method AddToBloom(hash: Bytes -> Bytes, bloom: array<bv8>, entry: Bytes, ghost entries: seq<Bytes>)
    requires LongHash(hash) && Summarizes(hash, bloom[..], entries)
    modifies bloom
    ensures Summarizes(hash, bloom[..], entries + [entry])
  {
    hide Holds, BitOf, Summarizes;
    FilterLength(hash, bloom[..], entries);
    var h := hash(entry);
    ghost var before := bloom[..];
    SetOne(bloom, BitOf(h[0], h[1]));
    ghost var first := bloom[..];
    SetOne(bloom, BitOf(h[2], h[3]));
    ghost var second := bloom[..];
    SetOne(bloom, BitOf(h[4], h[5]));
    EntryAdded(hash, before, first, second, bloom[..], entries, entry);
  }

  lemma FilterLength(hash: Bytes -> Bytes, bloom: Bytes, entries: seq<Bytes>)
    requires LongHash(hash) && Summarizes(hash, bloom, entries)
    ensures |bloom| == 256
  {
  }

  lemma EntryAdded(hash: Bytes -> Bytes, before: Bytes, first: Bytes, second: Bytes, after: Bytes,
                   entries: seq<Bytes>, entry: Bytes)
    requires LongHash(hash) && Summarizes(hash, before, entries) && |first| == |second| == |after| == 256
    requires var h := hash(entry);
             forall j: nat :: j < 2048 ==>
               && (Holds(first, j) <==> Holds(before, j) || j == BitOf(h[0], h[1]))
               && (Holds(second, j) <==> Holds(first, j) || j == BitOf(h[2], h[3]))
               && (Holds(after, j) <==> Holds(second, j) || j == BitOf(h[4], h[5]))
    ensures Summarizes(hash, after, entries + [entry])
  {
    hide Holds, BitOf;
    OneMoreEntry(hash, entries, entry);
    var h := hash(entry);
    forall bit: nat | bit < 2048
      ensures Holds(after, bit) <==> exists e <- entries + [entry] :: bit in EntryBits(hash, e)
    {
      assert bit in EntryBits(hash, entry) <==> bit == BitOf(h[0], h[1]) || bit == BitOf(h[2], h[3]) || bit == BitOf(h[4], h[5]);
    }
  }

  lemma OneMoreEntry(hash: Bytes -> Bytes, entries: seq<Bytes>, entry: Bytes)
    requires LongHash(hash)
    ensures forall bit: nat :: (exists e <- entries + [entry] :: bit in EntryBits(hash, e))
              <==> (exists e <- entries :: bit in EntryBits(hash, e)) || bit in EntryBits(hash, entry)
  {
  }

  method LogsBloom(hash: Bytes -> Bytes, logs: seq<Log>) returns (bloom: Bytes)
    requires LongHash(hash)
    ensures Summarizes(hash, bloom, AllEntries(logs))
  {
    var buffer := new bv8[256](_ => 0);
    EmptyFilter(hash, buffer[..]);
    for i := 0 to |logs|
      invariant Summarizes(hash, buffer[..], AllEntries(logs[..i]))
    {
      var log := logs[i];
      ghost var sooner := AllEntries(logs[..i]);
      AddToBloom(hash, buffer, log.address, sooner);
      for t := 0 to |log.topics|
        invariant Summarizes(hash, buffer[..], sooner + ([log.address] + log.topics[..t]))
      {
        AddToBloom(hash, buffer, log.topics[t], sooner + ([log.address] + log.topics[..t]));
        assert sooner + ([log.address] + log.topics[..t]) + [log.topics[t]] == sooner + ([log.address] + log.topics[..t + 1]);
      }
      assert log.topics[..|log.topics|] == log.topics && logs[..i + 1][..i] == logs[..i];
    }
    assert logs[..|logs|] == logs;
    bloom := buffer[..];
  }

  lemma EmptyFilter(hash: Bytes -> Bytes, bloom: Bytes)
    requires LongHash(hash) && |bloom| == 256 && forall i :: 0 <= i < 256 ==> bloom[i] == 0
    ensures Summarizes(hash, bloom, [])
  {
  }

  // ---------- What a filter says ----------

  lemma BitPosition(i: nat, k: nat)
    requires k < 8
    ensures (8 * i + k) / 8 == i && (8 * i + k) % 8 == k
  {
  }

  /** Bit inclusion is inclusion byte by byte. */
  lemma InclusionByBytes(superset: Bytes, subset: Bytes)
    requires |superset| == |subset|
    ensures Includes(superset, subset) <==> forall i :: 0 <= i < |subset| ==> GivesBack(superset[i], subset[i])
  {
    hide GivesBack;
    if Includes(superset, subset) {
      forall i | 0 <= i < |subset| ensures GivesBack(superset[i], subset[i]) {
        forall k | 0 <= k < 8 && HasBit(subset[i], k) ensures HasBit(superset[i], k) {
          BitPosition(i, k);
          assert Holds(subset, 8 * i + k);
        }
        ByteInclusion(superset[i], subset[i]);
      }
    } else {
      var bit: nat :| bit < 8 * |subset| && Holds(subset, bit) && !Holds(superset, bit);
      ByteInclusion(superset[bit / 8], subset[bit / 8]);
    }
  }

  ghost predicate Includes(superset: Bytes, subset: Bytes)
    requires |superset| == |subset|
  {
    forall bit: nat :: bit < 8 * |subset| && Holds(subset, bit) ==> Holds(superset, bit)
  }

  lemma CheckedBytes(superset: Bytes, subset: Bytes)
    ensures |superset| <= |subset| ==>
              (Includes(superset, subset[..|superset|])
               <==> forall i :: 0 <= i < |superset| ==> GivesBack(superset[i], subset[i]))
    ensures |superset| == |subset| ==> subset[..|superset|] == subset
  {
    hide Includes, GivesBack;
    if |superset| <= |subset| {
      InclusionByBytes(superset, subset[..|superset|]);
    }
  }

  /** For filters of one length this is inclusion; what a longer subset has beyond the superset is not looked at. */
  method IsBloomSuperset(superset: Bytes, subset: Bytes) returns (r: bool)
    ensures r <==> |superset| <= |subset| && Includes(superset, subset[..|superset|])
    ensures |superset| == |subset| ==> (r <==> Includes(superset, subset))
  {
    hide Includes;
    var n := |superset|;
    CheckedBytes(superset, subset);
    for i := 0 to n
      invariant i <= |subset| && forall j :: 0 <= j < i ==> GivesBack(superset[j], subset[j])
    {
      // beyond the end there is nothing that masking could give back
      if i >= |subset| || superset[i] & subset[i] != subset[i] { return false; }
    }
    return true;
  }

  /** Filters that include each other are the same. */
  lemma InclusionIsOrder(a: Bytes, b: Bytes, c: Bytes)
    requires |a| == |b| == |c|
    ensures Includes(a, a)
    ensures Includes(a, b) && Includes(b, c) ==> Includes(a, c)
    ensures Includes(a, b) && Includes(b, a) <==> a == b
  {
    if Includes(a, b) && Includes(b, a) {
      InclusionByBytes(a, b);
      InclusionByBytes(b, a);
      forall i | 0 <= i < |a| ensures a[i] == b[i] {
        AndCommutes(a[i], b[i]);
      }
    }
  }

  lemma AndCommutes(a: bv8, b: bv8)
    ensures a & b == b & a
  {
  }

  function Union(a: Bytes, b: Bytes): (c: Bytes)
    requires |a| == |b|
    ensures |c| == |a|
  {
    seq(|a|, i requires 0 <= i < |a| => a[i] | b[i])
  }

  lemma UnionHolds(a: Bytes, b: Bytes, bit: nat)
    requires |a| == |b| && bit < 8 * |a|
    ensures Holds(Union(a, b), bit) <==> Holds(a, bit) || Holds(b, bit)
  {
    OrMask(a[bit / 8], b[bit / 8], bit % 8);
  }

  lemma OrMask(a: bv8, b: bv8, k: nat)
    requires k < 8
    ensures HasBit(a | b, k) <==> HasBit(a, k) || HasBit(b, k)
  {
    hide Mask;
    AndDistributes(a, b, Mask(k));
    OrIsZero(a & Mask(k), b & Mask(k));
  }

  lemma OneSummary(hash: Bytes -> Bytes, a: Bytes, b: Bytes, entries: seq<Bytes>, others: seq<Bytes>)
    requires LongHash(hash) && Summarizes(hash, a, entries) && Summarizes(hash, b, others)
    requires forall entry :: entry in entries <==> entry in others
    ensures a == b
  {
    forall bit: nat | bit < 2048 ensures Holds(a, bit) <==> Holds(b, bit) {
      assert (exists entry <- entries :: bit in EntryBits(hash, entry)) <==> exists entry <- others :: bit in EntryBits(hash, entry);
    }
    InclusionIsOrder(a, b, a);
  }

  lemma UnionOfEntries(hash: Bytes -> Bytes, a: Bytes, b: Bytes, all: Bytes, entries: seq<Bytes>, others: seq<Bytes>)
    requires LongHash(hash) && Summarizes(hash, a, entries) && Summarizes(hash, b, others)
    requires Summarizes(hash, all, entries + others)
    ensures all == Union(a, b)
  {
    forall bit: nat | bit < 2048 ensures Holds(all, bit) <==> Holds(Union(a, b), bit) {
      UnionHolds(a, b, bit);
      assert (exists e <- entries + others :: bit in EntryBits(hash, e))
        <==> (exists e <- entries :: bit in EntryBits(hash, e)) || exists e <- others :: bit in EntryBits(hash, e);
    }
    InclusionIsOrder(all, Union(a, b), all);
  }

  lemma Associates<T>(a: seq<T>, b: seq<T>, c: seq<T>)
    ensures (a + b) + c == a + (b + c)
  {
  }

  lemma {:induction false} EntriesConcat(logs: seq<Log>, more: seq<Log>)
    ensures AllEntries(logs + more) == AllEntries(logs) + AllEntries(more)
    decreases |more|
  {
    hide Entries;
    if more == [] {
      assert logs + more == logs;
    } else {
      var n := |more| - 1;
      EntriesConcat(logs, more[..n]);
      assert (logs + more)[..|logs + more| - 1] == logs + more[..n];
      Associates(AllEntries(logs), AllEntries(more[..n]), Entries(more[n]));
    }
  }

  /** The filter of two lists of logs, one after the other, is the union of their filters. */
  lemma BloomOfAll(hash: Bytes -> Bytes, a: Bytes, b: Bytes, all: Bytes, logs: seq<Log>, more: seq<Log>)
    requires LongHash(hash) && Summarizes(hash, a, AllEntries(logs)) && Summarizes(hash, b, AllEntries(more))
    requires Summarizes(hash, all, AllEntries(logs + more))
    ensures all == Union(a, b)
  {
    hide Summarizes, AllEntries;
    EntriesConcat(logs, more);
    UnionOfEntries(hash, a, b, all, AllEntries(logs), AllEntries(more));
  }

  /** No entry is missed. */
  lemma EntryTestsPresent(hash: Bytes -> Bytes, bloom: Bytes, entries: seq<Bytes>, entry: Bytes)
    requires LongHash(hash) && Summarizes(hash, bloom, entries) && entry in entries
    ensures forall bit <- EntryBits(hash, entry) :: bit < 2048 && Holds(bloom, bit)
  {
  }
}
