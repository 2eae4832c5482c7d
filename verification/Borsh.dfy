/**
 Borsh buffers: a growing sink and the source that reads back what it has written.
 */
module Borsh {
  import opened Wrappers
  import opened ByteOrder

  const BASE64 := 0x1_0000_0000_0000_0000
  const BASE128 := 0x1_0000_0000_0000_0000_0000_0000_0000_0000

  /** Text as bytes: `decode` undoes `encode`. */
  datatype Charset = Charset(encode: string -> Bytes, decode: Bytes -> string)

  ghost predicate Lossless(charset: Charset) {
    forall s :: charset.decode(charset.encode(s)) == s
  }

  datatype Kind = U8 | U16 | U32 | U64 | U128 | I8 | I16 | I32 | I64 | I128 | Flag | Raw(length: nat) | Text

  datatype Item =
    | Number(kind: Kind, value: int)
    | Truth(b: bool)
    | RawBytes(bytes: Bytes)
    | Words(text: string)

  /** How many bytes a number of this kind has. */
  function Size(kind: Kind): nat {
    match kind
    case U8 | I8 => 1
    case U16 | I16 => 2
    case U32 | I32 => 4
    case U64 | I64 => 8
    case U128 | I128 => 16
    case _ => 0
  }

  predicate Signed(kind: Kind) {
    kind in {I8, I16, I32, I64, I128}
  }

  predicate InRange(kind: Kind, value: int) {
    && Size(kind) > 0
    && var base: int := Pow256(Size(kind));
       if Signed(kind) then -base <= 2 * value < base else 0 <= value < base
  }

  function KindOf(item: Item): Kind {
    match item
    case Number(kind, _) => kind
    case Truth(_) => Flag
    case RawBytes(bytes) => Raw(|bytes|)
    case Words(_) => Text
  }

  predicate Fits(charset: Charset, item: Item) {
    match item
    case Number(kind, value) => InRange(kind, value)
    case Truth(_) => true
    case RawBytes(_) => true
    case Words(text) => |charset.encode(text)| < 0x1_0000_0000
  }

  /** A number modulo the range of `k` bytes, as the views of a buffer store it. */
  function Wrapped(value: int, k: nat): nat {
    value % Pow256(k)
  }

  /** The Borsh form of an item. */
  function Encoded(charset: Charset, item: Item): Bytes {
    match item
    case Number(kind, value) => LittleEndian(Wrapped(value, Size(kind)), Size(kind))
    case Truth(b) => [if b then 1 else 0]
    case RawBytes(bytes) => bytes
    case Words(text) => LittleEndian(Wrapped(|charset.encode(text)|, 4), 4) + charset.encode(text)
  }

  function EncodedAll(charset: Charset, items: seq<Item>): Bytes {
    if items == [] then [] else EncodedAll(charset, items[..|items| - 1]) + Encoded(charset, items[|items| - 1])
  }

  // ---------- Splitting wide numbers ----------

  /** A number of `j + k` bytes is its lower part followed by its upper part. */
  lemma {:induction false} LittleEndianSplits(n: nat, j: nat, k: nat)
    ensures LittleEndian(n, j + k) == LittleEndian(Low(n, Pow256(j)), j) + LittleEndian(High(n, Pow256(j)), k)
    decreases j
  {
    if j > 0 {
      var p := Pow256(j - 1);
      LittleEndianSplits(n / 256, j - 1, k);
      DivisionSteps(n, p);
      FirstByte(n, j + k);
      FirstByte(Low(n, Pow256(j)), j);
    }
  }

  function Low(n: nat, base: nat): nat
    requires base > 0
  {
    n % base
  }

  function High(n: nat, base: nat): nat
    requires base > 0
  {
    n / base
  }

  lemma FirstByte(n: nat, k: nat)
    requires k > 0
    ensures LittleEndian(n, k) == [n % 256] + LittleEndian(n / 256, k - 1)
  {
  }

  lemma DivisionSteps(n: nat, p: nat)
    requires p > 0
    ensures n / 256 / p == n / (256 * p) && n % (256 * p) / 256 == n / 256 % p && n % (256 * p) % 256 == n % 256
  {
    var q, r := n / 256 / p, n / 256 % p;
    assert n / 256 == p * q + r && n == 256 * (n / 256) + n % 256;
    assert n == 256 * p * q + (256 * r + n % 256);
    assert 0 <= 256 * r + n % 256 < 256 * p;
    Quotient(n, 256 * p, q, 256 * r + n % 256);
  }

  lemma Quotient(n: int, d: int, q: int, r: int)
    requires d > 0 && n == d * q + r && 0 <= r < d
    ensures n / d == q && n % d == r
  {
    var e := n / d - q;
    Multiples(d, e);
    assert d * e == d * (n / d) - d * q;
  }

  lemma Multiples(d: int, e: int)
    requires d > 0
    ensures (e >= 1 ==> d * e >= d) && (e <= -1 ==> d * e <= -d) && (e == 0 ==> d * e == 0)
  {
  }

  // ---------- Writing ----------

  class Sink {
    var pos: nat
    var buf: array<Byte>

    constructor (capacity: nat)
      ensures Valid() && Content() == [] && fresh(buf)
    {
      pos := 0;
      buf := new Byte[capacity](_ => 0);
    }

    ghost predicate Valid()
      reads this
    {
      pos <= buf.Length
    }

    function Content(): Bytes
      reads this, buf
      requires Valid()
    {
      buf[..pos]
    }

    /** A bigger buffer with the same content. */
    method Allocate(cap: nat)
      requires Valid()
      modifies this`buf
      ensures Valid() && fresh(buf) && buf.Length >= cap && buf.Length >= 2 * old(buf).Length
      ensures Content() == old(Content())
    {
      var size := if cap > 2 * buf.Length then cap else 2 * buf.Length;
      var bigger := new Byte[size](_ => 0);
      for i := 0 to buf.Length
        invariant buf == old(buf) && buf.Length <= bigger.Length && bigger[..i] == old(buf[..i])
      {
        bigger[i] := buf[i];
      }
      assert bigger[..pos] == bigger[..buf.Length][..pos];
      buf := bigger;
    }

    method Reserve(additional: nat)
      requires Valid()
      modifies this`buf
      ensures Valid() && (buf == old(buf) || fresh(buf)) && buf.Length - pos >= additional
      ensures Content() == old(Content())
    {
      if buf.Length - pos < additional {
        Allocate(pos + additional);
      }
    }

    method PutBytes(val: Bytes)
      requires Valid()
      modifies this, buf
      ensures Valid() && (buf == old(buf) || fresh(buf))
      ensures Content() == old(Content()) + val
    {
      Reserve(|val|);
      forall i | 0 <= i < |val| {
        buf[pos + i] := val[i];
      }
      pos := pos + |val|;
    }

    /** Integers of up to 64 bits, signed or not: the view stores them modulo their range. */
    method PutNumber(val: int, k: nat)
      requires Valid()
      modifies this, buf
      ensures Valid() && (buf == old(buf) || fresh(buf))
      ensures Content() == old(Content()) + LittleEndian(Wrapped(val, k), k)
    {
      PutBytes(LittleEndian(Wrapped(val, k), k));
    }

    method PutU128(val: int)
      requires Valid()
      modifies this, buf
      ensures Valid() && (buf == old(buf) || fresh(buf))
      ensures Content() == old(Content()) + LittleEndian(Wrapped(val, 16), 16)
    {
      ghost var before := Content();
      PutNumber(val % BASE64, 8);
      PutNumber(val / BASE64, 8);
      Halves(val);
      Append(before, LittleEndian(Wrapped(val % BASE64, 8), 8), LittleEndian(Wrapped(val / BASE64, 8), 8));
    }

    method PutI128(val: int)
      requires Valid()
      modifies this, buf
      ensures Valid() && (buf == old(buf) || fresh(buf))
      ensures Content() == old(Content()) + LittleEndian(Wrapped(val, 16), 16)
    {
      Wide();
      RemainderWraps(val, BASE128);
      PutU128(Remainder(val + BASE128, BASE128));
    }

    method Put(charset: Charset, item: Item)
      requires Valid()
      modifies this, buf
      ensures Valid() && (buf == old(buf) || fresh(buf))
      ensures Content() == old(Content()) + Encoded(charset, item)
    {
      match item
      case Number(kind, value) =>
        ghost var before := Content();
        match kind {
          case U8 | I8 => PutNumber(value, 1);
          case U16 | I16 => PutNumber(value, 2);
          case U32 | I32 => PutNumber(value, 4);
          case U64 | I64 => PutNumber(value, 8);
          case U128 => PutU128(value);
          case I128 => PutI128(value);
          case _ => assert before + [] == before;  // no number is of this kind
        }
      case Truth(b) => PutBytes([if b then 1 else 0]);
      case RawBytes(bytes) => PutBytes(bytes);
      case Words(text) =>
        ghost var before := Content();
        var bytes := charset.encode(text);
        PutNumber(|bytes|, 4);
        PutBytes(bytes);
        Append(before, LittleEndian(Wrapped(|bytes|, 4), 4), bytes);
    }

    method PutAll(charset: Charset, items: seq<Item>)
      requires Valid()
      modifies this, buf
      ensures Valid() && Content() == old(Content()) + EncodedAll(charset, items)
    {
      ghost var before := Content();
      for i := 0 to |items|
        invariant Valid() && (buf == old(buf) || fresh(buf))
        invariant Content() == before + EncodedAll(charset, items[..i])
      {
        assert items[..i + 1][..i] == items[..i];
        Append(before, EncodedAll(charset, items[..i]), Encoded(charset, items[i]));
        Put(charset, items[i]);
      }
      assert items[..|items|] == items;
    }
  }

  lemma Append(a: Bytes, b: Bytes, c: Bytes)
    ensures (a + b) + c == a + (b + c)
  {
  }

  lemma Wide()
    ensures Pow256(16) == BASE128 && Pow256(8) == BASE64
  {
    Powers();
    assert Pow256(9) == 256 * Pow256(8);
    assert Pow256(10) == 256 * Pow256(9);
    assert Pow256(11) == 256 * Pow256(10);
    assert Pow256(12) == 256 * Pow256(11);
    assert Pow256(13) == 256 * Pow256(12);
    assert Pow256(14) == 256 * Pow256(13);
    assert Pow256(15) == 256 * Pow256(14);
    assert Pow256(16) == 256 * Pow256(15);
  }

  lemma Small(n: nat, base: nat)
    requires n < base
    ensures n % base == n
  {
  }

  /** A remainder that takes its sign from the dividend. */
  function Remainder(n: int, d: int): int
    requires d > 0
  {
    if n >= 0 then n % d else -(-n % d)
  }

  lemma SameModulo(a: int, b: int, d: int, k: int)
    requires d > 0 && a == b + d * k
    ensures a % d == b % d
  {
    assert b == d * (b / d) + b % d;
    assert a == d * (b / d + k) + b % d;
    Quotient(a, d, b / d + k, b % d);
  }

  lemma RemainderWraps(val: int, base: int)
    requires base > 0
    ensures Remainder(val + base, base) % base == val % base
  {
    var n := val + base;
    var q := if n >= 0 then n / base else -(-n / base);
    if n < 0 { assert -n == base * (-n / base) + -n % base; }
    assert n == base * q + Remainder(n, base);
    assert base * (1 - q) == base - base * q;
    SameModulo(Remainder(n, base), val, base, 1 - q);
  }

  /** Writing two halves is writing the whole, whatever the number. */
  lemma Halves(val: int)
    ensures LittleEndian(Wrapped(val % BASE64, 8), 8) + LittleEndian(Wrapped(val / BASE64, 8), 8)
         == LittleEndian(Wrapped(val, 16), 16)
  {
    Wide();
    var w, q := Wrapped(val, 16), val / BASE128;
    var a, b := w / BASE64, w % BASE64;
    assert val == BASE64 * (BASE64 * q + a) + b;
    Quotient(val, BASE64, BASE64 * q + a, b);
    Quotient(val / BASE64, BASE64, q, a);
    Small(b, BASE64);
    LittleEndianSplits(w, 8, 8);
  }

  // ---------- Reading ----------

  function ToSigned(n: nat, k: nat): int {
    if 2 * n >= Pow256(k) then n - Pow256(k) else n
  }

  /** The bytes of a number of this kind, read. */
  function NumberOf(kind: Kind, bytes: Bytes): int {
    var n := FromLittleEndian(bytes);
    if Signed(kind) then ToSigned(n, Size(kind)) else n
  }

  /** What the bytes say when an item of this kind is expected, and what follows it. */
  function Decoded(charset: Charset, kind: Kind, s: Bytes): Option<(Item, Bytes)> {
    match kind
    case Flag => if s == [] then None else Some((Truth(s[0] != 0), s[1..]))
    case Raw(length) => if |s| < length then None else Some((RawBytes(s[..length]), s[length..]))
    case Text =>
      if |s| < 4 || |s| - 4 < FromLittleEndian(s[..4]) then None
      else
        var end := 4 + FromLittleEndian(s[..4]);
        Some((Words(charset.decode(s[4..end])), s[end..]))
    case _ =>
      if |s| < Size(kind) then None else Some((Number(kind, NumberOf(kind, s[..Size(kind)])), s[Size(kind)..]))
  }

  function DecodedAll(charset: Charset, kinds: seq<Kind>, s: Bytes): Option<(seq<Item>, Bytes)>
    decreases |kinds|
  {
    if kinds == [] then Some(([], s))
    else
      match Decoded(charset, kinds[0], s)
      case None => None
      case Some((item, rest)) =>
        match DecodedAll(charset, kinds[1..], rest)
        case None => None
        case Some((items, end)) => Some(([item] + items, end))
  }

  class Src {
    const buf: Bytes
    var pos: nat

    constructor (buf: Bytes)
      ensures this.buf == buf && Rest() == buf
    {
      this.buf, pos := buf, 0;
    }

    /** What is left to read. */
    function Rest(): Bytes
      reads this
    {
      if pos <= |buf| then buf[pos..] else []
    }

    /** Reads an unsigned integer; fails beyond the end. */
    method TakeNumber(k: nat) returns (r: Option<nat>)
      modifies this
      ensures r == None <==> |old(Rest())| < k
      ensures r == None ==> Rest() == old(Rest())
      ensures r.Some? ==> r.value == FromLittleEndian(old(Rest())[..k]) && Rest() == old(Rest())[k..]
    {
      if |Rest()| < k { return None; }
      r := Some(FromLittleEndian(Rest()[..k]));
      pos := pos + k;
    }

    method TakeBytes(len: nat) returns (r: Option<Bytes>)
      modifies this
      ensures r == None <==> |old(Rest())| < len
      ensures r == None ==> Rest() == old(Rest())
      ensures r.Some? ==> r.value == old(Rest())[..len] && Rest() == old(Rest())[len..]
    {
      if |Rest()| < len { return None; }
      r := Some(Rest()[..len]);
      pos := pos + len;
    }

    /** A 128-bit number, from two halves; the upper one may be signed. */
    method TakeWide(signed: bool) returns (r: Option<int>)
      modifies this
      ensures r == None <==> |old(Rest())| < 16
      ensures r.Some? ==> r.value == NumberOf(if signed then I128 else U128, old(Rest())[..16]) && Rest() == old(Rest())[16..]
    {
      ghost var s := Rest();
      var lo := TakeNumber(8);
      if lo == None { return None; }
      var hi := TakeNumber(8);
      if hi == None { return None; }
      TwoHalves(s, signed);
      r := Some(lo.value + BASE64 * (if signed then ToSigned(hi.value, 8) else hi.value));
    }

    method TakeText(charset: Charset) returns (r: Option<string>)
      modifies this
      ensures r == None <==> Decoded(charset, Text, old(Rest())) == None
      ensures r.Some? ==> Some((Words(r.value), Rest())) == Decoded(charset, Text, old(Rest()))
    {
      ghost var s := Rest();
      var len := TakeNumber(4);
      if len == None { return None; }
      var taken := TakeBytes(len.value);
      if taken == None { return None; }
      assert s[4..][..len.value] == s[4..4 + len.value] && s[4..][len.value..] == s[4 + len.value..];
      r := Some(charset.decode(taken.value));
    }

    /** Reads what is left as an item of the given kind. */
    method Take(charset: Charset, kind: Kind) returns (r: Option<Item>)
      modifies this
      ensures r == None <==> Decoded(charset, kind, old(Rest())) == None
      ensures r.Some? ==> Some((r.value, Rest())) == Decoded(charset, kind, old(Rest()))
    {
      ghost var s := Rest();
      match kind
      case U8 | U16 | U32 | U64 =>
        var n := TakeNumber(match kind case U8 => 1 case U16 => 2 case U32 => 4 case _ => 8);
        r := if n == None then None else Some(Number(kind, n.value));
      case I8 | I16 | I32 | I64 =>
        var k := match kind case I8 => 1 case I16 => 2 case I32 => 4 case _ => 8;
        var n := TakeNumber(k);
        r := if n == None then None else Some(Number(kind, ToSigned(n.value, k)));
      case U128 | I128 =>
        var n := TakeWide(kind == I128);
        r := if n == None then None else Some(Number(kind, n.value));
      case Flag =>
        var n := TakeNumber(1);
        if n.Some? { OneByte(s); }
        r := if n == None then None else Some(Truth(n.value != 0));
      case Raw(length) =>
        var bytes := TakeBytes(length);
        r := if bytes == None then None else Some(RawBytes(bytes.value));
      case Text =>
        var text := TakeText(charset);
        r := if text == None then None else Some(Words(text.value));
    }

    /** Reads items one after the other, up to the first one that does not fit. */
    method TakeAll(charset: Charset, kinds: seq<Kind>) returns (r: Option<seq<Item>>)
      modifies this
      ensures r == None <==> DecodedAll(charset, kinds, old(Rest())) == None
      ensures r.Some? ==> Some((r.value, Rest())) == DecodedAll(charset, kinds, old(Rest()))
    {
      hide Decoded, DecodedAll, Continued;
      var items := [];
      NothingRead(charset, kinds, Rest());
      for i := 0 to |kinds|
        invariant Continued(charset, kinds, old(Rest()), items, kinds[i..], Rest())
      {
        OneMoreRead(charset, kinds, old(Rest()), items, kinds[i..], Rest());
        assert kinds[i..][1..] == kinds[i + 1..];
        var item := Take(charset, kinds[i]);
        if item == None { return None; }
        items := items + [item.value];
      }
      AllRead(charset, kinds, old(Rest()), items, kinds[|kinds|..], Rest());
      r := Some(items);
    }
  }

  /** Of all the kinds only `left` are still to be read, from `rest`. */
  ghost predicate Continued(charset: Charset, kinds: seq<Kind>, s: Bytes, items: seq<Item>, left: seq<Kind>, rest: Bytes) {
    var all, more := DecodedAll(charset, kinds, s), DecodedAll(charset, left, rest);
    if more == None then all == None else all == Some((items + more.value.0, more.value.1))
  }

  lemma NothingRead(charset: Charset, kinds: seq<Kind>, s: Bytes)
    ensures Continued(charset, kinds, s, [], kinds[0..], s)
  {
    assert kinds[0..] == kinds;
    var all := DecodedAll(charset, kinds, s);
    assert all.Some? ==> [] + all.value.0 == all.value.0;
  }

  lemma OneMoreRead(charset: Charset, kinds: seq<Kind>, s: Bytes, items: seq<Item>, left: seq<Kind>, rest: Bytes)
    requires Continued(charset, kinds, s, items, left, rest) && left != []
    ensures match Decoded(charset, left[0], rest)
            case None => DecodedAll(charset, kinds, s) == None
            case Some((item, more)) => Continued(charset, kinds, s, items + [item], left[1..], more)
  {
    hide Decoded;
    var next := Decoded(charset, left[0], rest);
    if next.Some? {
      var more := DecodedAll(charset, left[1..], next.value.1);
      assert more.Some? ==> items + ([next.value.0] + more.value.0) == (items + [next.value.0]) + more.value.0;
    }
  }

  lemma AllRead(charset: Charset, kinds: seq<Kind>, s: Bytes, items: seq<Item>, left: seq<Kind>, rest: Bytes)
    requires Continued(charset, kinds, s, items, left, rest) && left == []
    ensures DecodedAll(charset, kinds, s) == Some((items, rest))
  {
    assert items + [] == items;
  }

  lemma OneByte(s: Bytes)
    requires s != []
    ensures FromLittleEndian(s[..1]) == s[0]
  {
    assert s[..1] == [s[0]];
  }

  lemma {:induction false} FromLittleEndianJoins(a: Bytes, b: Bytes)
    ensures FromLittleEndian(a + b) == FromLittleEndian(a) + Pow256(|a|) * FromLittleEndian(b)
  {
    if a == [] {
      assert a + b == b;
    } else {
      FromLittleEndianJoins(a[1..], b);
      assert (a + b)[1..] == a[1..] + b;
      Distribute(FromLittleEndian(a[1..]), Pow256(|a| - 1), FromLittleEndian(b));
    }
  }

  lemma Distribute(x: nat, p: nat, n: nat)
    ensures 256 * (x + p * n) == 256 * x + 256 * p * n
  {
  }

  /** Two halves read are the whole read, also with a sign. */
  lemma TwoHalves(s: Bytes, signed: bool)
    requires |s| >= 16
    ensures var lo, hi := FromLittleEndian(s[..8]), FromLittleEndian(s[8..][..8]);
            && NumberOf(if signed then I128 else U128, s[..16]) == lo + BASE64 * (if signed then ToSigned(hi, 8) else hi)
            && s[8..][8..] == s[16..]
  {
    hide FromLittleEndian, Pow256;
    Wide();
    FromLittleEndianBack(s[..8]);
    FromLittleEndianBack(s[8..][..8]);
    FromLittleEndianJoins(s[..8], s[8..][..8]);
    assert s[..16] == s[..8] + s[8..][..8];
  }

  lemma NumberComesBack(value: int, k: nat, more: Bytes)
    ensures var s := LittleEndian(Wrapped(value, k), k) + more;
            |s| >= k && FromLittleEndian(s[..k]) == Wrapped(value, k) && s[k..] == more
  {
    LittleEndianBack(Wrapped(value, k), k);
    var s := LittleEndian(Wrapped(value, k), k) + more;
    assert s[..k] == LittleEndian(Wrapped(value, k), k);
  }

  /** Signed and unsigned numbers are told apart by the upper half of the range. */
  lemma InRangeIs(kind: Kind, value: int)
    requires InRange(kind, value)
    ensures if Signed(kind) then ToSigned(Wrapped(value, Size(kind)), Size(kind)) == value else Wrapped(value, Size(kind)) == value
  {
    hide Pow256;
    var base: int := Pow256(Size(kind));
    if value < 0 {
      SameModulo(value + base, value, base, 1);
      Small(value + base, base);
    } else {
      Small(value, base);
    }
  }

  lemma TextComesBack(charset: Charset, text: string, more: Bytes)
    requires Lossless(charset) && Fits(charset, Words(text))
    ensures Decoded(charset, Text, Encoded(charset, Words(text)) + more) == Some((Words(text), more))
  {
    hide LittleEndian, FromLittleEndian, Wrapped;
    var bytes := charset.encode(text);
    var s := Encoded(charset, Words(text)) + more;
    Powers();
    SmallLength(|bytes|);
    NumberComesBack(|bytes|, 4, bytes + more);
    Append(LittleEndian(Wrapped(|bytes|, 4), 4), bytes, more);
    assert s[4..] == bytes + more;
    var end := 4 + |bytes|;
    assert s[4..end] == bytes && s[end..] == more;
  }

  lemma SmallLength(n: nat)
    requires n < 0x1_0000_0000
    ensures Wrapped(n, 4) == n
  {
    Powers();
    Small(n, 0x1_0000_0000);
  }

  /** Reading undoes writing, whatever follows. */
  lemma ItemComesBack(charset: Charset, item: Item, more: Bytes)
    requires Lossless(charset) && Fits(charset, item)
    ensures Decoded(charset, KindOf(item), Encoded(charset, item) + more) == Some((item, more))
  {
    hide LittleEndian, FromLittleEndian, Wrapped, ToSigned, Pow256, Lossless;
    match item
    case Number(kind, value) =>
      InRangeIs(kind, value);
      NumberComesBack(value, Size(kind), more);
    case Truth(_) =>
    case RawBytes(bytes) =>
      assert (bytes + more)[..|bytes|] == bytes && (bytes + more)[|bytes|..] == more;
    case Words(text) => TextComesBack(charset, text, more);
  }

  function Kinds(items: seq<Item>): (kinds: seq<Kind>)
    ensures |kinds| == |items|
  {
    seq(|items|, i requires 0 <= i < |items| => KindOf(items[i]))
  }

  lemma {:induction false} ItemsComeBack(charset: Charset, items: seq<Item>, more: Bytes)
    requires Lossless(charset) && forall item <- items :: Fits(charset, item)
    ensures DecodedAll(charset, Kinds(items), EncodedAll(charset, items) + more) == Some((items, more))
    decreases |items|
  {
    hide Decoded, Encoded, Fits, KindOf, Lossless;
    if items == [] {
      assert EncodedAll(charset, items) + more == more;
    } else {
      var rest := EncodedAll(charset, items[1..]) + more;
      FirstEncoded(charset, items);
      Append(Encoded(charset, items[0]), EncodedAll(charset, items[1..]), more);
      ItemComesBack(charset, items[0], rest);
      ItemsComeBack(charset, items[1..], more);
      assert Kinds(items)[1..] == Kinds(items[1..]) && items == [items[0]] + items[1..];
    }
  }

  lemma {:induction false} FirstEncoded(charset: Charset, items: seq<Item>)
    requires items != []
    ensures EncodedAll(charset, items) == Encoded(charset, items[0]) + EncodedAll(charset, items[1..])
  {
    var n := |items| - 1;
    if n == 0 {
      assert items[..0] == [] && items[1..] == [];
    } else {
      FirstEncoded(charset, items[..n]);
      assert items[..n][1..] == items[1..][..n - 1] && items[1..][n - 1] == items[n];
      Append(Encoded(charset, items[0]), EncodedAll(charset, items[1..][..n - 1]), Encoded(charset, items[n]));
    }
  }

  /** Whatever is written, through any growth of the buffer, is read back. */
  method WriteAndRead(charset: Charset, items: seq<Item>, capacity: nat) returns (back: Option<seq<Item>>)
    requires Lossless(charset) && forall item <- items :: Fits(charset, item)
    ensures back == Some(items)
  {
    var sink := new Sink(capacity);
    sink.PutAll(charset, items);
    var src := new Src(sink.Content());
    ItemsComeBack(charset, items, []);
    assert sink.Content() + [] == sink.Content() == [] + EncodedAll(charset, items) == EncodedAll(charset, items);
    back := src.TakeAll(charset, Kinds(items));
  }
}
