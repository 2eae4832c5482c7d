/**
 A binary min-heap that sifts a hole instead of swapping: the element being placed is written only at the end.
 */
module BinaryHeap {
  import opened Wrappers

  type Compare<!T> = (T, T) -> int

  /** `a` does not come after `b`. */
  predicate AtMost<T>(compare: Compare<T>, a: T, b: T) {
    compare(b, a) >= 0
  }

  /** What a comparison must keep to: no two elements before each other, and "not after" is transitive. */
  ghost predicate Consistent<T(!new)>(compare: Compare<T>) {
    && (forall a, b :: compare(a, b) < 0 ==> compare(b, a) >= 0)
    && forall a, b, c :: AtMost(compare, a, b) && AtMost(compare, b, c) ==> AtMost(compare, a, c)
  }

  function Parent(i: nat): nat
    requires i > 0
  {
    (i - 1) / 2
  }

  /** From `lo` on no parent comes after its children. */
  ghost predicate HeapFrom<T>(compare: Compare<T>, a: seq<T>, lo: nat) {
    forall i :: 0 < i < |a| && Parent(i) >= lo ==> AtMost(compare, a[Parent(i)], a[i])
  }

  /** The same, but the element at `pos` may come before its parent. */
  ghost predicate HeapAbove<T>(compare: Compare<T>, a: seq<T>, pos: nat) {
    && (forall i :: 0 < i < |a| && i != pos ==> AtMost(compare, a[Parent(i)], a[i]))
    && (forall i :: 0 < i < |a| && Parent(i) == pos && pos > 0 ==> AtMost(compare, a[Parent(pos)], a[i]))
  }

  /** The same from `lo` on, but the element at `pos` may come after its children. */
  ghost predicate HeapBelow<T>(compare: Compare<T>, a: seq<T>, lo: nat, pos: nat) {
    && (forall i :: 0 < i < |a| && Parent(i) >= lo && Parent(i) != pos ==> AtMost(compare, a[Parent(i)], a[i]))
    && (forall i :: 0 < i < |a| && pos > 0 && Parent(pos) >= lo && Parent(i) == pos ==> AtMost(compare, a[Parent(pos)], a[i]))
  }

  lemma SwapKeeps<T>(a: seq<T>, i: nat, j: nat, v: T)
    requires i < |a| && j < |a| && i != j
    ensures multiset(a[i := a[j]][j := v]) == multiset(a[i := v])
  {
    var b := a[i := v];
    assert a[i := a[j]][j := v] == b[i := b[j]][j := v];
    Exchange(b, i, j);
  }

  lemma Exchange<T>(b: seq<T>, i: nat, j: nat)
    requires i < |b| && j < |b| && i != j
    ensures multiset(b[i := b[j]][j := b[i]]) == multiset(b)
  {
  }

  /** The top of a heap comes after nothing. */
  lemma {:induction false} TopIsMinimal<T(!new)>(compare: Compare<T>, a: seq<T>, i: nat)
    requires Consistent(compare) && HeapFrom(compare, a, 0) && i < |a|
    ensures AtMost(compare, a[0], a[i])
    decreases i
  {
    if i > 0 {
      TopIsMinimal(compare, a, Parent(i));
      assert AtMost(compare, a[Parent(i)], a[i]);
    }
  }

  lemma PushStarts<T>(compare: Compare<T>, a: seq<T>, v: T)
    requires HeapFrom(compare, a, 0)
    ensures (a + [v])[|a| := v] == a + [v] && HeapAbove(compare, a + [v], |a|)
  {
  }

  /** The hole moves up: what was its parent comes after everything below the hole no more than it did. */
  lemma PushMoves<T(!new)>(compare: Compare<T>, a: seq<T>, pos: nat, v: T)
    requires Consistent(compare) && 0 < pos < |a| && HeapAbove(compare, a[pos := v], pos)
    requires compare(a[Parent(pos)], v) >= 0
    ensures HeapAbove(compare, a[pos := a[Parent(pos)]][Parent(pos) := v], Parent(pos))
  {
    var p := Parent(pos);
    var b, c := a[pos := v], a[pos := a[p]][p := v];
    forall i | 0 < i < |c| && i != p ensures AtMost(compare, c[Parent(i)], c[i]) {
      PushMovesAt(compare, a, pos, v, i);
    }
    forall i | 0 < i < |c| && Parent(i) == p && p > 0 ensures AtMost(compare, c[Parent(p)], c[i]) {
      assert AtMost(compare, b[Parent(p)], b[p]);
      if i != pos { assert AtMost(compare, b[Parent(i)], b[i]); }
    }
  }

  lemma PushMovesAt<T(!new)>(compare: Compare<T>, a: seq<T>, pos: nat, v: T, i: nat)
    requires Consistent(compare) && 0 < pos < |a| && HeapAbove(compare, a[pos := v], pos)
    requires compare(a[Parent(pos)], v) >= 0 && 0 < i < |a| && i != Parent(pos)
    ensures var c := a[pos := a[Parent(pos)]][Parent(pos) := v]; AtMost(compare, c[Parent(i)], c[i])
  {
    var p := Parent(pos);
    var b := a[pos := v];
    if i == pos {
      assert AtMost(compare, v, a[p]);
    } else if Parent(i) == p {
      assert AtMost(compare, b[Parent(i)], b[i]);
      assert AtMost(compare, v, a[p]) && AtMost(compare, a[p], a[i]);
    } else if Parent(i) == pos {
      assert AtMost(compare, b[p], b[i]);
    } else {
      assert AtMost(compare, b[Parent(i)], b[i]);
    }
  }

  lemma PushStops<T(!new)>(compare: Compare<T>, b: seq<T>, pos: nat)
    requires pos < |b| && HeapAbove(compare, b, pos) && (pos > 0 ==> AtMost(compare, b[Parent(pos)], b[pos]))
    ensures HeapFrom(compare, b, 0)
  {
  }

  /** `next` is the child of `pos` that comes first. */
  ghost predicate FirstChild<T>(compare: Compare<T>, a: seq<T>, pos: nat, next: nat) {
    && 0 < next < |a| && Parent(next) == pos
    && forall i :: 0 < i < |a| && Parent(i) == pos ==> AtMost(compare, a[next], a[i])
  }

  /** The hole moves down to the child that comes first. */
  lemma SinkMoves<T(!new)>(compare: Compare<T>, a: seq<T>, lo: nat, pos: nat, next: nat, v: T)
    requires Consistent(compare) && lo <= pos < |a| && HeapBelow(compare, a[pos := v], lo, pos)
    requires FirstChild(compare, a, pos, next) && compare(a[next], v) < 0
    ensures HeapBelow(compare, a[pos := a[next]][next := v], lo, next)
  {
    var b, c := a[pos := v], a[pos := a[next]][next := v];
    forall i | 0 < i < |c| && Parent(i) >= lo && Parent(i) != next ensures AtMost(compare, c[Parent(i)], c[i]) {
      SinkMovesAt(compare, a, lo, pos, next, v, i);
    }
    forall i | 0 < i < |c| && Parent(i) == next ensures AtMost(compare, c[pos], c[i]) {
      assert AtMost(compare, b[Parent(i)], b[i]);
    }
  }

  lemma SinkMovesAt<T(!new)>(compare: Compare<T>, a: seq<T>, lo: nat, pos: nat, next: nat, v: T, i: nat)
    requires Consistent(compare) && lo <= pos < |a| && HeapBelow(compare, a[pos := v], lo, pos)
    requires FirstChild(compare, a, pos, next) && compare(a[next], v) < 0
    requires 0 < i < |a| && Parent(i) >= lo && Parent(i) != next
    ensures var c := a[pos := a[next]][next := v]; AtMost(compare, c[Parent(i)], c[i])
  {
    var b := a[pos := v];
    if i == pos {
      assert AtMost(compare, b[Parent(pos)], b[next]);
    } else if i == next {
      assert AtMost(compare, a[next], v);
    } else if Parent(i) == pos {
      assert AtMost(compare, a[next], a[i]);
    } else {
      assert AtMost(compare, b[Parent(i)], b[i]);
    }
  }

  lemma SinkStops<T>(compare: Compare<T>, b: seq<T>, lo: nat, pos: nat)
    requires pos < |b| && HeapBelow(compare, b, lo, pos)
    requires forall i :: 0 < i < |b| && Parent(i) == pos ==> AtMost(compare, b[pos], b[i])
    ensures HeapFrom(compare, b, lo)
  {
  }

  class Heap<T(!new)> {
    const compare: Compare<T>
    var arr: seq<T>

    constructor (compare: Compare<T>)
      requires Consistent(compare)
      ensures Valid() && arr == [] && this.compare == compare
    {
      this.compare, arr := compare, [];
    }

    ghost predicate Valid()
      reads this
    {
      Consistent(compare) && HeapFrom(compare, arr, 0)
    }

    method Push(v: T)
      requires Valid()
      modifies this`arr
      ensures Valid() && multiset(arr) == multiset(old(arr)) + multiset{v}
    {
      hide HeapAbove, HeapFrom, Consistent;
      PushStarts(compare, arr, v);
      var pos := |arr|;
      arr := arr + [v];
      while pos > 0
        invariant 0 <= pos < |arr|
        invariant HeapAbove(compare, arr[pos := v], pos)
        invariant multiset(arr[pos := v]) == multiset(old(arr)) + multiset{v}
      {
        var parent := Parent(pos);
        Opposite(compare, arr[parent], v);
        if compare(arr[parent], v) < 0 { break; }
        PushMoves(compare, arr, pos, v);
        SwapKeeps(arr, pos, parent, v);
        arr := arr[pos := arr[parent]];
        pos := parent;
      }
      PushStops(compare, arr[pos := v], pos);
      arr := arr[pos := v];
    }

    function Peek(): (top: Option<T>)
      reads this`arr
      ensures top == None <==> arr == []
    {
      if arr == [] then None else Some(arr[0])
    }

    /** Takes out what `Peek` shows, an element that comes after no other. */
    method Pop() returns (top: Option<T>)
      requires Valid() && |arr| <= SHIFT_LIMIT + 1
      modifies this`arr
      ensures Valid() && top == old(Peek()) && (top == None <==> old(arr) == [])
      ensures top == None ==> arr == []
      ensures top.Some? ==> multiset(old(arr)) == multiset(arr) + multiset{top.value} && |arr| == |old(arr)| - 1
      ensures top.Some? ==> forall x <- multiset(old(arr)) :: AtMost(compare, top.value, x)
    {
      if arr == [] { return None; }
      TopIsFirst(compare, arr);
      hide HeapFrom, Consistent;
      top := Some(arr[0]);
      var popped := arr[|arr| - 1];
      PopStarts(compare, arr);
      arr := arr[..|arr| - 1];
      if |arr| > 0 {
        SiftDown(popped, 0, |arr| - 1);
      }
    }

    /** Makes a heap of what is in the array; a single element is left out, see `StartsInside`. */
    method Resort()
      requires Consistent(compare) && |arr| != 1 && |arr| <= SHIFT_LIMIT
      modifies this`arr
      ensures Valid() && multiset(arr) == multiset(old(arr))
    {
      hide HeapFrom, Consistent;
      if |arr| == 0 {
        Nothing(compare);
        return;
      }
      var last := |arr| - 1;
      StartsInside(|arr|);
      var i: int := ResortStart(|arr|);
      BeyondParents(compare, arr, i + 1);
      while i >= 0
        invariant -1 <= i < |arr| == last + 1
        invariant HeapFrom(compare, arr, i + 1) && multiset(arr) == multiset(old(arr))
      {
        assert arr[i := arr[i]] == arr;
        SiftDown(arr[i], i, last);
        i := i - 1;
      }
    }

    method Init(arr: seq<T>)
      requires Consistent(compare) && |arr| != 1 && |arr| <= SHIFT_LIMIT
      modifies this`arr
      ensures Valid() && multiset(this.arr) == multiset(arr)
    {
      this.arr := arr;
      Resort();
    }

    /** Popping until nothing is left yields everything in order. */
    method Drain() returns (out: seq<T>)
      requires Valid() && |arr| <= SHIFT_LIMIT + 1
      modifies this`arr
      ensures arr == [] && multiset(out) == multiset(old(arr)) && InOrder(compare, out)
    {
      hide HeapFrom, Consistent, InOrder, NoLaterThan;
      out := [];
      NothingLater(compare, multiset(arr));
      while |arr| > 0
        invariant Valid() && multiset(out) + multiset(arr) == multiset(old(arr)) && |arr| <= |old(arr)|
        invariant InOrder(compare, out) && NoLaterThan(compare, out, multiset(arr))
        decreases |arr|
      {
        ghost var rest := multiset(arr);
        var top := Pop();
        OneMoreOut(compare, out, rest, top.value, multiset(arr));
        out := out + [top.value];
      }
    }

    /** Places `v` at or below `pos`, where the heap has a hole. */
    method SiftDown(v: T, lo: nat, last: nat)
      requires Consistent(compare) && lo <= last == |arr| - 1 && |arr| <= SHIFT_LIMIT && HeapFrom(compare, arr, lo + 1)
      modifies this`arr
      ensures HeapFrom(compare, arr, lo) && multiset(arr) == multiset(old(arr)[lo := v]) && |arr| == |old(arr)|
    {
      hide HeapBelow, HeapFrom, Consistent, FirstChild;
      var pos := lo;
      SinkStarts(compare, arr, lo, v);
      while true
        invariant lo <= pos < |arr| == |old(arr)|
        invariant HeapBelow(compare, arr[pos := v], lo, pos)
        invariant multiset(arr[pos := v]) == multiset(old(arr)[lo := v])
        decreases |arr| - pos
      {
        ChildFits(pos);
        var left := ShiftLeft(pos) + 1;
        var right := left + 1;
        var next;
        if right <= last {
          next := if compare(arr[right], arr[left]) < 0
                  then (if compare(arr[right], v) < 0 then right else pos)
                  else (if compare(arr[left], v) < 0 then left else pos);
        } else if left == last {
          next := if compare(arr[left], v) < 0 then left else pos;
        } else {
          next := pos;
        }
        NextIsFirst(compare, arr, pos, v);
        if next == pos { break; }
        SinkMoves(compare, arr, lo, pos, next, v);
        SwapKeeps(arr, pos, next, v);
        arr := arr[pos := arr[next]];
        pos := next;
      }
      SinkStops(compare, arr[pos := v], lo, pos);
      arr := arr[pos := v];
    }
  }

  /** Beyond so many elements the shift that finds a child overflows. */
  const SHIFT_LIMIT := 0x4000_0000

  /** The source's `<< 1`, which yields a signed 32-bit integer. */
  function ShiftLeft(n: nat): int {
    var low := 2 * n % 0x1_0000_0000;
    if low < 0x8000_0000 then low else low - 0x1_0000_0000
  }

  /** The shift finds the left child of exactly the positions that a heap of up to 2^30 elements has. */
  lemma ChildFits(pos: nat)
    requires pos < 0x1_0000_0000
    ensures ShiftLeft(pos) + 1 == 2 * pos + 1 <==> pos < SHIFT_LIMIT
  {
  }

  /** The source's `>>> 1`, on a number taken as an unsigned 32-bit integer. */
  function HalfUnsigned(n: int): nat {
    n % 0x1_0000_0000 / 2
  }

  /** Where resorting starts: at the parent of the last element, except that a single element wraps around. */
  function ResortStart(n: nat): nat {
    HalfUnsigned(n - 1 - 1)
  }

  /** Resorting starts inside of the array unless there is a single element, for which it starts at 2^31 - 1. */
  lemma StartsInside(n: nat)
    requires 0 < n < 0x1_0000_0000
    ensures ResortStart(n) < n <==> n != 1
    ensures n > 1 ==> ResortStart(n) == Parent(n - 1)
    ensures ResortStart(1) == 0x7fff_ffff
  {
  }

  lemma BeyondParents<T>(compare: Compare<T>, a: seq<T>, lo: nat)
    requires |a| > 1 && lo > Parent(|a| - 1)
    ensures HeapFrom(compare, a, lo)
  {
  }

  ghost predicate InOrder<T>(compare: Compare<T>, s: seq<T>) {
    forall i, j :: 0 <= i < j < |s| ==> AtMost(compare, s[i], s[j])
  }

  ghost predicate NoLaterThan<T>(compare: Compare<T>, out: seq<T>, rest: multiset<T>) {
    forall i, y :: 0 <= i < |out| && y in rest ==> AtMost(compare, out[i], y)
  }

  lemma NothingLater<T>(compare: Compare<T>, rest: multiset<T>)
    ensures InOrder(compare, []) && NoLaterThan(compare, [], rest)
  {
  }

  lemma OneMoreOut<T>(compare: Compare<T>, out: seq<T>, rest: multiset<T>, x: T, less: multiset<T>)
    requires InOrder(compare, out) && NoLaterThan(compare, out, rest) && rest == less + multiset{x}
    requires forall y <- rest :: AtMost(compare, x, y)
    ensures InOrder(compare, out + [x]) && NoLaterThan(compare, out + [x], less)
  {
    assert x in rest && forall y <- less :: y in rest;
  }

  lemma TopIsFirst<T(!new)>(compare: Compare<T>, a: seq<T>)
    requires Consistent(compare) && HeapFrom(compare, a, 0) && a != []
    ensures forall x <- multiset(a) :: AtMost(compare, a[0], x)
  {
    forall x <- multiset(a) ensures AtMost(compare, a[0], x) {
      var i :| 0 <= i < |a| && a[i] == x;
      TopIsMinimal(compare, a, i);
    }
  }

  lemma Opposite<T(!new)>(compare: Compare<T>, a: T, b: T)
    requires Consistent(compare)
    ensures compare(a, b) < 0 ==> AtMost(compare, a, b)
  {
  }

  lemma PopStarts<T>(compare: Compare<T>, a: seq<T>)
    requires a != [] && HeapFrom(compare, a, 0)
    ensures HeapFrom(compare, a[..|a| - 1], 1) && (|a| == 1 ==> HeapFrom(compare, a[..0], 0))
    ensures multiset(a) == (if |a| == 1 then multiset{} else multiset(a[..|a| - 1][0 := a[|a| - 1]])) + multiset{a[0]}
  {
    var b := a[..|a| - 1];
    assert a == b + [a[|a| - 1]];
    if |a| > 1 {
      assert b == [b[0]] + b[1..];
      assert b[0 := a[|a| - 1]] == [a[|a| - 1]] + b[1..];
    }
  }

  lemma Nothing<T>(compare: Compare<T>)
    ensures HeapFrom(compare, [], 0)
  {
  }

  lemma SinkStarts<T>(compare: Compare<T>, a: seq<T>, lo: nat, v: T)
    requires lo < |a| && HeapFrom(compare, a, lo + 1)
    ensures HeapBelow(compare, a[lo := v], lo, lo)
  {
  }

  /** Which child the code picks, and what it means to pick none. */
  lemma NextIsFirst<T(!new)>(compare: Compare<T>, a: seq<T>, pos: nat, v: T)
    requires Consistent(compare) && pos < |a|
    ensures var left, right := 2 * pos + 1, 2 * pos + 2;
            && (right < |a| && compare(a[right], a[left]) < 0 ==> FirstChild(compare, a, pos, right))
            && (left < |a| && (right == |a| || compare(a[right], a[left]) >= 0) ==> FirstChild(compare, a, pos, left))
    ensures forall next: nat :: FirstChild(compare, a, pos, next) && compare(a[next], v) >= 0 ==>
              forall i :: 0 < i < |a| && Parent(i) == pos ==> AtMost(compare, v, a[pos := v][i])
    ensures 2 * pos + 1 >= |a| ==> forall i :: 0 < i < |a| ==> Parent(i) != pos
  {
    assert forall i :: 0 < i < |a| && Parent(i) == pos ==> i == 2 * pos + 1 || i == 2 * pos + 2;
    assert forall x: T :: AtMost(compare, x, x);
  }
}
