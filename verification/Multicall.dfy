/**
 Paging of aggregated contract calls: as few pages as the page size allows, of nearly equal size.
 */
module Multicall {

  /** A division rounded up. */
  function CeilDiv(n: nat, d: nat): (q: nat)
    requires d > 0
  {
    (n + d - 1) / d
  }

  /** A quotient rounded to the nearest integer, up from the middle. */
  function RoundDiv(n: nat, d: nat): nat
    requires d > 0
  {
    (2 * n + d) / (2 * d)
  }

  lemma CeilDivIs(n: nat, d: nat, q: nat)
    requires d > 0 && n <= q * d && (q > 0 ==> n > (q - 1) * d)
    ensures CeilDiv(n, d) == q
  {
    if q == 0 {
      assert n == 0;
    } else {
      var r := n + d - 1 - q * d;
      assert (q - 1) * d == q * d - d;
      Quotient(n + d - 1, d, q, r);
    }
  }

  lemma CeilDivBounds(n: nat, d: nat)
    requires d > 0
    ensures var q := CeilDiv(n, d); n <= q * d && (q > 0 ==> n > (q - 1) * d) && (n > 0 <==> q > 0)
  {
    var q, r := (n + d - 1) / d, (n + d - 1) % d;
    assert n + d - 1 == d * q + r;
    assert (q - 1) * d == q * d - d;
    if n > 0 { AtLeastOne(n + d - 1, d); }
  }

  lemma AtLeastOne(n: nat, d: nat)
    requires d > 0 && n >= d
    ensures n / d >= 1
  {
  }

  lemma Quotient(n: int, d: int, q: int, r: int)
    requires d > 0 && n == d * q + r && 0 <= r < d
    ensures n / d == q
  {
    var e := n / d - q;
    Multiples(d, e);
    assert d * e == d * (n / d) - d * q;
  }

  lemma Multiples(d: int, e: int)
    requires d > 0
    ensures (e >= 1 ==> d * e >= d) && (e <= -1 ==> d * e <= -d)
  {
  }

  /** The share of one of `splits` pages is `q` or one more, and the rest can be shared the same way. */
  ghost predicate Shares(left: nat, splits: nat, q: nat) {
    q * splits <= left <= (q + 1) * splits
  }

  lemma StepShares(left: nat, splits: nat, q: nat)
    requires splits > 0 && Shares(left, splits, q)
    ensures var step := RoundDiv(left, splits);
            q <= step <= q + 1 && step <= left && Shares(left - step, splits - 1, q)
  {
    var r := left - q * splits;
    assert (q + 1) * splits == q * splits + splits;
    assert q * (splits - 1) == q * splits - q;
    assert (q + 1) * (splits - 1) == q * splits - q + splits - 1;
    RoundIs(left, splits, q, r);
    Grows(q, 1, splits);
  }

  lemma RoundIs(left: nat, splits: nat, q: nat, r: nat)
    requires splits > 0 && left == q * splits + r && r <= splits
    ensures RoundDiv(left, splits) == if 2 * r < splits then q else q + 1
  {
    if 2 * r < splits {
      assert (2 * splits) * q == 2 * (q * splits);
      Quotient(2 * left + splits, 2 * splits, q, 2 * r + splits);
    } else {
      assert (2 * splits) * (q + 1) == 2 * (q * splits) + 2 * splits;
      Quotient(2 * left + splits, 2 * splits, q + 1, 2 * r - splits);
    }
  }

  lemma RoundAtMost(left: nat, splits: nat, size: nat)
    requires splits > 0 && splits <= left <= splits * size
    ensures 0 < RoundDiv(left, splits) <= size
  {
    var step, r := RoundDiv(left, splits), (2 * left + splits) % (2 * splits);
    assert 2 * left + splits == (2 * splits) * step + r;
    if step > size { Grows(2 * splits, size + 1, step); }
    AtLeastOne(2 * left + splits, 2 * splits);
  }

  lemma Grows(a: nat, b: nat, c: nat)
    requires b <= c
    ensures a * b <= a * c
  {
  }

  /** What is left fits into one page less. */
  lemma RestFits(left: nat, splits: nat, size: nat)
    requires splits > 0 && splits <= left <= splits * size
    ensures left - RoundDiv(left, splits) <= (splits - 1) * size
  {
    var f := left / splits;
    assert left == splits * f + left % splits;
    assert (f + 1) * splits == splits * f + splits;
    StepShares(left, splits, f);
    if f + 1 <= size {
      Grows(splits - 1, f + 1, size);
    } else {
      Grows(splits, size, f);
      assert left == splits * size;
      assert 2 * left + splits == (2 * splits) * size + splits;
      Quotient(2 * left + splits, 2 * splits, size, splits);
      assert (splits - 1) * size == splits * size - size;
    }
  }

  /** After one page of the rounded size one page less is needed. */
  lemma StepSplits(left: nat, maxSize: nat, q: nat)
    requires maxSize > 0 && left > 0 && Shares(left, CeilDiv(left, maxSize), q)
    ensures var splits := CeilDiv(left, maxSize);
            splits > 0
            && var step := RoundDiv(left, splits);
            && 0 < step <= left && step <= maxSize && q <= step <= q + 1 && CeilDiv(left - step, maxSize) == splits - 1
            && Shares(left - step, splits - 1, q)
  {
    hide CeilDiv, RoundDiv, Shares;
    CeilDivBounds(left, maxSize);
    var splits := CeilDiv(left, maxSize);
    Grows(splits - 1, 1, maxSize);
    StepShares(left, splits, q);
    RoundAtMost(left, splits, maxSize);
    RestFits(left, splits, maxSize);
    var step := RoundDiv(left, splits);
    assert (splits - 2) * maxSize == (splits - 1) * maxSize - maxSize;
    CeilDivIs(left - step, maxSize, splits - 1);
  }

  datatype Page = Page(beg: nat, end: nat)

  /** The pages take the calls from `beg` to `end` apart, in order and without gaps. */
  ghost predicate Covers(pages: seq<Page>, beg: nat, end: nat) {
    if pages == [] then beg == end
    else
      var last := pages[|pages| - 1];
      last.beg < last.end == end && Covers(pages[..|pages| - 1], beg, last.beg)
  }

  /** As few pages as possible, none too big, and no two differing in size by more than one. */
  ghost predicate Balanced(pages: seq<Page>, maxSize: nat) {
    exists q: nat :: BalancedAt(pages, maxSize, q)
  }

  ghost predicate BalancedAt(pages: seq<Page>, maxSize: nat, q: nat) {
    forall page <- pages :: page.beg < page.end && page.end - page.beg <= maxSize && q <= page.end - page.beg <= q + 1
  }

  method SplitSlice(maxSize: int, beg: nat, end: nat) returns (pages: seq<Page>)
    requires beg <= end
    ensures var size := if maxSize > 1 then maxSize else 1;
            Covers(pages, beg, end) && Balanced(pages, size) && |pages| == CeilDiv(end - beg, size)
  {
    hide CeilDiv, RoundDiv, Shares, BalancedAt, Covers;
    var size := if maxSize > 1 then maxSize else 1;
    pages := [];
    var at := beg;
    ghost var k := CeilDiv(end - beg, size);
    CeilDivBounds(end - beg, size);
    ghost var q := SharesAtFirst(end - beg, k);
    NoPages(beg, size, q);
    while at < end
      invariant beg <= at <= end && Covers(pages, beg, at)
      invariant |pages| + CeilDiv(end - at, size) == k && Shares(end - at, CeilDiv(end - at, size), q)
      invariant BalancedAt(pages, size, q)
    {
      var left := end - at;
      StepSplits(left, size, q);
      var splits := CeilDiv(left, size);
      var step := RoundDiv(left, splits);
      OneMorePage(pages, beg, Page(at, at + step), size, q);
      pages := pages + [Page(at, at + step)];
      at := at + step;
    }
    NothingLeft(size);
  }

  lemma NoPages(beg: nat, size: nat, q: nat)
    ensures Covers([], beg, beg) && BalancedAt([], size, q)
  {
  }

  lemma OneMorePage(pages: seq<Page>, beg: nat, page: Page, size: nat, q: nat)
    requires Covers(pages, beg, page.beg) && BalancedAt(pages, size, q)
    requires 0 < page.end - page.beg <= size && q <= page.end - page.beg <= q + 1
    ensures Covers(pages + [page], beg, page.end) && BalancedAt(pages + [page], size, q)
  {
    assert (pages + [page])[..|pages|] == pages;
  }

  lemma NothingLeft(size: nat)
    requires size > 0
    ensures CeilDiv(0, size) == 0
  {
    CeilDivIs(0, size, 0);
  }

  lemma SharesAtFirst(n: nat, k: nat) returns (q: nat)
    requires k == 0 ==> n == 0
    ensures Shares(n, k, q)
  {
    q := 0;
    if k > 0 {
      q := n / k;
      assert n == k * q + n % k;
      assert (q + 1) * k == q * k + k;
    }
  }

  // ---------- Results ----------

  function Flatten<T>(parts: seq<seq<T>>): seq<T> {
    if parts == [] then [] else Flatten(parts[..|parts| - 1]) + parts[|parts| - 1]
  }

  /** The pages of calls, in order; a list that fits is a page as it is, even if it is empty. */
  method SplitArray<T>(maxSize: int, calls: seq<T>) returns (parts: seq<seq<T>>)
    ensures Flatten(parts) == calls
    ensures calls == [] ==> parts == if maxSize >= 0 then [[]] else []
    ensures calls != [] ==>
              var size := if maxSize > 1 then maxSize else 1;
              |parts| == CeilDiv(|calls|, size) && forall part <- parts :: 0 < |part| <= size
  {
    if |calls| <= maxSize {
      if calls != [] { CeilDivIs(|calls|, maxSize, 1); }
      parts := [calls];
      assert Flatten([calls][..0]) == [];
      return;
    }
    var pages := SplitSlice(maxSize, 0, |calls|);
    parts := CutPages(calls, pages);
  }

  method CutPages<T>(calls: seq<T>, pages: seq<Page>) returns (parts: seq<seq<T>>)
    requires Covers(pages, 0, |calls|)
    ensures Flatten(parts) == calls && |parts| == |pages|
    ensures forall i :: 0 <= i < |pages| ==> pages[i].end <= |calls| && |parts[i]| == pages[i].end - pages[i].beg
  {
    hide Covers, Cut;
    parts := [];
    NothingCut(calls, pages);
    for i := 0 to |pages|
      invariant Cut(calls, pages, parts, i)
    {
      OneMoreCut(calls, pages, parts, i);
      parts := parts + [calls[pages[i].beg..pages[i].end]];
    }
    AllCut(calls, pages, parts);
  }

  /** The parts are the calls of the first `i` pages. */
  ghost predicate Cut<T>(calls: seq<T>, pages: seq<Page>, parts: seq<seq<T>>, i: nat) {
    && |parts| == i <= |pages|
    && (forall j :: 0 <= j < i ==> pages[j].beg <= pages[j].end <= |calls| && |parts[j]| == pages[j].end - pages[j].beg)
    && Flatten(parts) == calls[..if i == 0 then 0 else pages[i - 1].end]
  }

  lemma NothingCut<T>(calls: seq<T>, pages: seq<Page>)
    ensures Cut(calls, pages, [], 0)
  {
  }

  lemma OneMoreCut<T>(calls: seq<T>, pages: seq<Page>, parts: seq<seq<T>>, i: nat)
    requires Covers(pages, 0, |calls|) && i < |pages| && Cut(calls, pages, parts, i)
    ensures pages[i].beg <= pages[i].end <= |calls|
    ensures Cut(calls, pages, parts + [calls[pages[i].beg..pages[i].end]], i + 1)
  {
    hide Covers, Flatten;
    PageAt(pages, |calls|, i);
    FlattenMore(parts, calls[pages[i].beg..pages[i].end]);
    assert calls[..pages[i].end] == calls[..pages[i].beg] + calls[pages[i].beg..pages[i].end];
  }

  lemma PageAt(pages: seq<Page>, n: nat, i: nat)
    requires Covers(pages, 0, n) && i < |pages|
    ensures pages[i].beg == (if i == 0 then 0 else pages[i - 1].end) && pages[i].beg <= pages[i].end <= n
  {
    hide Covers;
    PagesWithin(pages, 0, n);
    assert Adjacent(pages, 0, n, i);
  }

  lemma AllCut<T>(calls: seq<T>, pages: seq<Page>, parts: seq<seq<T>>)
    requires Covers(pages, 0, |calls|) && Cut(calls, pages, parts, |pages|)
    ensures Flatten(parts) == calls && |parts| == |pages|
    ensures forall i :: 0 <= i < |pages| ==> pages[i].end <= |calls| && |parts[i]| == pages[i].end - pages[i].beg
  {
    hide Covers, Flatten;
    PagesWithin(pages, 0, |calls|);
    assert calls[..|calls|] == calls;
  }

  lemma FlattenMore<T>(parts: seq<seq<T>>, last: seq<T>)
    ensures Flatten(parts + [last]) == Flatten(parts) + last
  {
    assert (parts + [last])[..|parts|] == parts;
  }

  /** Each page begins where the one before ends. */
  lemma {:induction false} PagesWithin(pages: seq<Page>, beg: nat, end: nat)
    requires Covers(pages, beg, end)
    ensures forall i :: 0 <= i < |pages| ==> Adjacent(pages, beg, end, i)
    ensures end == if pages == [] then beg else pages[|pages| - 1].end
  {
    if pages != [] {
      var n := |pages| - 1;
      PagesWithin(pages[..n], beg, pages[n].beg);
      forall i | 0 <= i < n ensures Adjacent(pages, beg, end, i) {
        assert Adjacent(pages[..n], beg, pages[n].beg, i);
      }
    }
  }

  ghost predicate Adjacent(pages: seq<Page>, beg: nat, end: nat, i: nat)
    requires i < |pages|
  {
    pages[i].beg < pages[i].end <= end && pages[i].beg == if i == 0 then beg else pages[i - 1].end
  }

  function Map<A, B>(f: A -> B, s: seq<A>): (r: seq<B>)
    ensures |r| == |s|
  {
    seq(|s|, i requires 0 <= i < |s| => f(s[i]))
  }

  /** The contract answers the calls of a page one by one. */
  ghost predicate AnswersEach<C(!new), R>(contract: seq<C> -> seq<R>, answer: C -> R) {
    forall page :: contract(page) == Map(answer, page)
  }

  lemma {:induction false} FlattenMaps<C, R>(answer: C -> R, parts: seq<seq<C>>, results: seq<seq<R>>)
    requires |results| == |parts| && forall i :: 0 <= i < |parts| ==> results[i] == Map(answer, parts[i])
    ensures Flatten(results) == Map(answer, Flatten(parts))
    decreases |parts|
  {
    if parts == [] {
      assert Map(answer, Flatten(parts)) == [];
    } else {
      var n := |parts| - 1;
      FlattenMaps(answer, parts[..n], results[..n]);
    }
  }

  /** However the calls are paged, every call gets its own answer. */
  method Aggregate<C(!new), R>(maxSize: int, calls: seq<C>, contract: seq<C> -> seq<R>, ghost answer: C -> R)
      returns (results: seq<R>)
    requires AnswersEach(contract, answer)
    ensures results == Map(answer, calls)
  {
    if calls == [] { return []; }
    var pages := SplitArray(maxSize, calls);
    var replies: seq<seq<R>> := [];
    for i := 0 to |pages|
      invariant |replies| == i && forall k :: 0 <= k < i ==> replies[k] == Map(answer, pages[k])
    {
      replies := replies + [contract(pages[i])];
    }
    FlattenMaps(answer, pages, replies);
    results := Flatten(replies);
  }
}
