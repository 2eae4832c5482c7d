/**
 Positions of calls inside a tree of calls.  A call is addressed by the sibling indexes met on the way
 from the root.  Both the Solana instruction parser and the EVM call-frame flattening number their
 calls this way, and both object layers rebuild the tree from the numbers alone.
 */
module CallAddresses {
  type Address = seq<int>

  /** The address of a call at stack height `h` that comes right after the call at `last`. */
  function NextAddress(last: Address, h: nat): (next: Address)
    requires 1 <= h <= |last| + 1
    ensures |next| == h
  {
    if h <= |last| then last[..h - 1] + [last[h - 1] + 1] else last + [0]
  }

  /** `a` is numbered right after `prev`: no deeper than one level below it. */
  ghost predicate Follows(prev: Address, a: Address) {
    1 <= |a| <= |prev| + 1 && a == NextAddress(prev, |a|)
  }

  /** `addrs` continues a numbering whose latest address is `last`. */
  ghost predicate Numbered(last: Address, addrs: seq<Address>)
  {
    (addrs != [] ==> Follows(last, addrs[0])) &&
    forall i, j {:trigger Follows(addrs[i], addrs[j])} ::
      0 <= i && j == i + 1 && j < |addrs| ==> Follows(addrs[i], addrs[j])
  }

  /** Lexicographic order: a proper prefix comes first. */
  ghost predicate Before(a: Address, b: Address)
  {
    exists i :: DivergeAt(a, b, i)
  }

  /** `a` and `b` agree below `i`, where `a` ends or carries the smaller number. */
  ghost predicate DivergeAt(a: Address, b: Address, i: int)
  {
    0 <= i <= |a| && i < |b| && a[..i] == b[..i] && (i == |a| || a[i] < b[i])
  }

  lemma BeforeTransitive(a: Address, b: Address, c: Address)
    requires Before(a, b) && Before(b, c)
    ensures Before(a, c)
  {
    var i :| DivergeAt(a, b, i);
    var j :| DivergeAt(b, c, j);
    var m := if i < j then i else j;
    assert a[..m] == a[..i][..m] == b[..i][..m] == b[..m];
    assert b[..m] == b[..j][..m] == c[..j][..m] == c[..m];
    if j > i {
      assert b[i] == b[..j][i] == c[..j][i] == c[i];
    } else if j < i {
      assert a[j] == a[..i][j] == b[..i][j] == b[j];
    }
    assert DivergeAt(a, c, m);
  }

  lemma BeforeIrreflexive(a: Address, b: Address)
    requires Before(a, b)
    ensures a != b && !Before(b, a)
  {
    var i :| DivergeAt(a, b, i);
    forall j | DivergeAt(b, a, j) ensures false {
      AgreeBelow(a, b, i, if j < i then j else i);
      AgreeBelow(b, a, j, if i < j then i else j);
    }
  }

  lemma AgreeBelow(a: Address, b: Address, i: nat, j: nat)
    requires j <= i <= |a| && i <= |b| && a[..i] == b[..i]
    ensures a[..j] == b[..j] && (j < i ==> a[j] == b[j])
  {
    assert a[..j] == a[..i][..j] == b[..i][..j] == b[..j];
    if j < i {
      assert a[j] == a[..i][j] == b[..i][j] == b[j];
    }
  }

  lemma NextIsLater(last: Address, h: nat)
    requires 1 <= h <= |last| + 1
    ensures Before(last, NextAddress(last, h))
  {
    assert DivergeAt(last, NextAddress(last, h), if h <= |last| then h - 1 else |last|);
  }

  /** A numbering is strictly increasing, so no address is given twice. */
  lemma {:induction false} NumberedIncreases(last: Address, addrs: seq<Address>, i: int, j: nat)
    requires Numbered(last, addrs)
    requires -1 <= i < j < |addrs|
    ensures Before(if i == -1 then last else addrs[i], addrs[j])
    decreases j
  {
    var prev := if j == 0 then last else addrs[j - 1];
    assert Follows(prev, addrs[j]);
    NextIsLater(prev, |addrs[j]|);
    if i < j - 1 {
      NumberedIncreases(last, addrs, i, j - 1);
      BeforeTransitive(if i == -1 then last else addrs[i], prev, addrs[j]);
    }
  }

  /** Every ancestor of a numbered call, itself included, has been numbered no later. */
  lemma {:induction false} AncestorComesFirst(last: Address, addrs: seq<Address>, j: nat, m: nat) returns (i: nat)
    requires Numbered(last, addrs) && j < |addrs| && |addrs[0]| == 1
    requires 1 <= m <= |addrs[j]|
    ensures i <= j && addrs[i] == addrs[j][..m]
  {
    if m == |addrs[j]| {
      i := j;
    } else {
      assert Follows(addrs[j - 1], addrs[j]);
      assert addrs[j][..m] == addrs[j - 1][..m];
      i := AncestorComesFirst(last, addrs, j - 1, m);
    }
  }

  /** Unless it is the first below its parent, a call comes after the sibling with the preceding number. */
  lemma SiblingComesFirst(last: Address, addrs: seq<Address>, j: nat) returns (i: nat)
    requires Numbered(last, addrs) && 0 < j < |addrs| && |addrs[0]| == 1
    requires addrs[j] != [] && (addrs[j][|addrs[j]| - 1] != 0 || |addrs[j]| == 1)
    ensures i < j && |addrs[i]| == |addrs[j]| && addrs[i][..|addrs[i]| - 1] == addrs[j][..|addrs[j]| - 1]
    ensures addrs[j][|addrs[j]| - 1] == addrs[i][|addrs[i]| - 1] + 1
  {
    var a, prev := addrs[j], addrs[j - 1];
    assert Follows(prev, a);
    assert prev != [] by {
      if j > 1 {
        assert Follows(addrs[j - 2], prev);
      }
    }
    i := AncestorComesFirst(last, addrs, j - 1, |a|);
    PrecedingSibling(prev, |a|);
  }

  lemma PrecedingSibling(prev: Address, h: nat)
    requires 1 <= h <= |prev|
    ensures var a := NextAddress(prev, h);
            a[..h - 1] == prev[..h][..h - 1] && a[h - 1] == prev[..h][h - 1] + 1
  {
  }

  /** A forest of calls: the inner calls of the first call, and the calls after it at the same level. */
  datatype Forest = NoCalls | Calls(inner: Forest, next: Forest)

  /** The addresses of a forest in preorder; its roots are `prefix + [start]`, `prefix + [start + 1]`, ... */
  function Preorder(f: Forest, prefix: Address, start: int): (addrs: seq<Address>)
  {
    match f
    case NoCalls => []
    case Calls(inner, next) =>
      [prefix + [start]] + Preorder(inner, prefix + [start], 0) + Preorder(next, prefix, start + 1)
  }

  function Roots(f: Forest): nat {
    match f
    case NoCalls => 0
    case Calls(_, next) => 1 + Roots(next)
  }

  function Latest(last: Address, addrs: seq<Address>): Address {
    if addrs == [] then last else addrs[|addrs| - 1]
  }

  lemma OneMoreAddress(last: Address, addrs: seq<Address>, next: Address)
    requires Numbered(last, addrs) && Follows(Latest(last, addrs), next)
    ensures Numbered(last, addrs + [next]) && Latest(last, addrs + [next]) == next && next != []
  {
    NumberedConcat(last, addrs, [next]);
  }

  lemma NumberedConcat(last: Address, a: seq<Address>, b: seq<Address>)
    requires Numbered(last, a) && Numbered(Latest(last, a), b)
    ensures Numbered(last, a + b) && Latest(last, a + b) == Latest(Latest(last, a), b)
  {
    forall i, j | 0 <= i && j == i + 1 && j < |a + b| ensures Follows((a + b)[i], (a + b)[j]) {
      if j < |a| {
        assert Follows(a[i], a[j]);
      } else if i >= |a| {
        assert Follows(b[i - |a|], b[j - |a|]);
      }
    }
  }

  lemma NumberedSplit(last: Address, a: seq<Address>, b: seq<Address>)
    requires Numbered(last, a + b)
    ensures Numbered(last, a) && Numbered(Latest(last, a), b)
  {
    forall i, j | 0 <= i && j == i + 1 && j < |a| ensures Follows(a[i], a[j]) {
      assert Follows((a + b)[i], (a + b)[j]);
    }
    forall i, j | 0 <= i && j == i + 1 && j < |b| ensures Follows(b[i], b[j]) {
      assert Follows((a + b)[|a| + i], (a + b)[|a| + j]);
    }
    if a != [] && b != [] {
      assert Follows((a + b)[|a| - 1], (a + b)[|a|]);
    }
  }

  /** After `last`, a call one level below `prefix` gets sibling number `start`. */
  ghost predicate Ready(last: Address, prefix: Address, start: int) {
    |last| >= |prefix| && NextAddress(last, |prefix| + 1) == prefix + [start]
  }

  ghost predicate DeeperThan(addrs: seq<Address>, d: nat) {
    forall i :: 0 <= i < |addrs| ==> |addrs[i]| > d
  }

  lemma DeeperConcat(a: seq<Address>, b: seq<Address>, d: nat)
    requires DeeperThan(a, d) && DeeperThan(b, d)
    ensures DeeperThan(a + b, d)
  {
  }

  /** `addrs` numbers calls below `prefix`, `n` of them right below it, the first one being `start`. */
  ghost predicate NumberedBelow(last: Address, addrs: seq<Address>, prefix: Address, start: int, n: nat) {
    && Numbered(last, addrs)
    && Ready(Latest(last, addrs), prefix, start + n)
    && DeeperThan(addrs, |prefix|)
    && (addrs != [] ==> |addrs[0]| == |prefix| + 1)
  }

  lemma CallThenSiblings(last: Address, prefix: Address, start: int, below: seq<Address>, m: nat, rest: seq<Address>, n: nat)
    requires Ready(last, prefix, start)
    requires var a := prefix + [start];
             NumberedBelow(a, below, a, 0, m) && NumberedBelow(Latest(a, below), rest, prefix, start + 1, n)
    ensures NumberedBelow(last, [prefix + [start]] + below + rest, prefix, start, n + 1)
  {
    var a := prefix + [start];
    assert Numbered(last, [a]) && Latest(last, [a]) == a;
    assert DeeperThan([a], |prefix|) && DeeperThan(below, |prefix|);
    hide Numbered, Ready, DeeperThan;
    NumberedConcat(last, [a], below);
    NumberedConcat(last, [a] + below, rest);
    DeeperConcat([a], below, |prefix|);
    DeeperConcat([a] + below, rest, |prefix|);
  }

  /** The preorder of any forest is a numbering. */
  lemma {:induction false} PreorderIsNumbered(f: Forest, last: Address, prefix: Address, start: int)
    requires Ready(last, prefix, start)
    ensures NumberedBelow(last, Preorder(f, prefix, start), prefix, start, Roots(f))
    decreases f
  {
    match f
    case NoCalls =>
    case Calls(inner, next) =>
      hide NumberedBelow;
      var a := prefix + [start];
      var below := Preorder(inner, a, 0);
      PreorderIsNumbered(inner, a, a, 0);
      ReadyForSibling(prefix, start, below, Roots(inner));
      PreorderIsNumbered(next, Latest(a, below), prefix, start + 1);
      CallThenSiblings(last, prefix, start, below, Roots(inner), Preorder(next, prefix, start + 1), Roots(next));
  }

  lemma ReadyForSibling(prefix: Address, start: int, below: seq<Address>, m: nat)
    requires var a := prefix + [start]; NumberedBelow(a, below, a, 0, m)
    ensures Ready(Latest(prefix + [start], below), prefix, start + 1)
  {
    hide Numbered;
    var a := prefix + [start];
    var mid := Latest(a, below);
    var next := NextAddress(mid, |a| + 1);
    assert next == a + [m];
    assert mid[..|a|] == next[..|a|] == a;
    assert mid[..|prefix|] == mid[..|a|][..|prefix|] == prefix;
    assert mid[|prefix|] == mid[..|a|][|prefix|] == start;
  }

  /** How many of the leading addresses are deeper than `d`. */
  function Deeper(addrs: seq<Address>, d: nat): (n: nat)
    ensures n <= |addrs|
    ensures forall k :: 0 <= k < n ==> |addrs[k]| > d
    ensures n < |addrs| ==> |addrs[n]| <= d
  {
    if addrs == [] || |addrs[0]| <= d then 0 else 1 + Deeper(addrs[1..], d)
  }

  lemma FirstIs(last: Address, addrs: seq<Address>, prefix: Address, start: int)
    requires Numbered(last, addrs) && Ready(last, prefix, start) && addrs != [] && |addrs[0]| == |prefix| + 1
    ensures addrs[0] == prefix + [start] && Ready(prefix + [start], prefix + [start], 0)
  {
  }

  lemma BelowStarts(a: Address, below: seq<Address>)
    requires Numbered(a, below) && DeeperThan(below, |a|)
    ensures below != [] ==> |below[0]| == |a| + 1
  {
  }

  lemma LatestIs(last: Address, a: Address, below: seq<Address>)
    ensures Latest(last, [a]) == a && Latest(last, [a] + below) == Latest(a, below)
  {
  }

  /** Conversely, every numbering that starts at the top level is the preorder of a forest. */
  lemma {:induction false} NumberedIsPreorder(last: Address, addrs: seq<Address>, prefix: Address, start: int)
      returns (f: Forest)
    requires Numbered(last, addrs) && Ready(last, prefix, start)
    requires DeeperThan(addrs, |prefix|)
    requires addrs != [] ==> |addrs[0]| == |prefix| + 1
    ensures addrs == Preorder(f, prefix, start)
    decreases |addrs|
  {
    hide Numbered, Ready, NumberedBelow, Follows;
    if addrs == [] {
      return NoCalls;
    }
    var a := prefix + [start];
    FirstIs(last, addrs, prefix, start);
    var n := Deeper(addrs[1..], |a|);
    var below, rest := addrs[1..][..n], addrs[1..][n..];
    assert addrs == ([a] + below) + rest;
    NumberedSplit(last, [a] + below, rest);
    NumberedSplit(last, [a], below);
    LatestIs(last, a, below);
    BelowStarts(a, below);
    var inner := NumberedIsPreorder(a, below, a, 0);
    PreorderIsNumbered(inner, a, a, 0);
    ReadyForSibling(prefix, start, below, Roots(inner));
    var next := NumberedIsPreorder(Latest(a, below), rest, prefix, start + 1);
    f := Calls(inner, next);
  }

  /** A sequence of addresses is a top-level numbering exactly when it is the preorder of a forest. */
  lemma NumberedIffForest(addrs: seq<Address>, start: int)
    ensures (Numbered([start - 1], addrs) && (addrs != [] ==> |addrs[0]| == 1))
            <==> exists f: Forest :: addrs == Preorder(f, [], start)
  {
    assert Ready([start - 1], [], start);
    if Numbered([start - 1], addrs) && (addrs != [] ==> |addrs[0]| == 1) {
      forall k | 0 <= k < |addrs| ensures |addrs[k]| > 0 {
        assert Follows(if k == 0 then [start - 1] else addrs[k - 1], addrs[k]);
      }
      var f := NumberedIsPreorder([start - 1], addrs, [], start);
    }
    forall f: Forest | addrs == Preorder(f, [], start)
      ensures Numbered([start - 1], addrs) && (addrs != [] ==> |addrs[0]| == 1)
    {
      PreorderIsNumbered(f, [start - 1], [], start);
    }
  }

  /** Heights alone determine a numbering: the addresses they lead to, as far as they fit. */
  function Addressing(last: Address, heights: seq<nat>): (addrs: seq<Address>)
    decreases |heights|
  {
    if heights == [] || !(1 <= heights[0] <= |last| + 1) then []
    else
      var next := NextAddress(last, heights[0]);
      [next] + Addressing(next, heights[1..])
  }

  lemma {:induction false} HeightsDetermineNumbering(last: Address, addrs: seq<Address>, heights: seq<nat>)
    requires Numbered(last, addrs) && |heights| == |addrs|
    requires forall k :: 0 <= k < |addrs| ==> |addrs[k]| == heights[k]
    ensures addrs == Addressing(last, heights)
    decreases |addrs|
  {
    if addrs != [] {
      assert addrs == [addrs[0]] + addrs[1..];
      NumberedSplit(last, [addrs[0]], addrs[1..]);
      HeightsDetermineNumbering(addrs[0], addrs[1..], heights[1..]);
    }
  }

  /** Only the top-level number of the latest address matters for what comes next at the top level. */
  lemma Rebase(last: Address, other: Address, addrs: seq<Address>, index: int)
    requires Numbered(other, addrs) && |other| == 1 && other[0] == index - 1 && last != [] && last[0] == index - 1
    requires addrs != [] ==> addrs[0] != [] && addrs[0][0] == index
    ensures Numbered(last, addrs) && (addrs != [] ==> addrs[0] == [index])
  {
    if addrs != [] {
      assert Follows(other, addrs[0]);
      assert NextAddress(other, |addrs[0]|)[0] == addrs[0][0];
      assert NextAddress(last, 1) == [index];
    }
  }
}
