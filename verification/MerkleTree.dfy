/**
 The Merkle root of a Bitcoin block, over hashes combined in pairs by a function nothing is known about.
 */
module MerkleTree {

  /** One level up: neighbours are combined, and the last node with itself if it has no neighbour. */
  function Up<T>(combine: (T, T) -> T, level: seq<T>): (next: seq<T>)
    ensures |next| == (|level| + 1) / 2
  {
    if level == [] then []
    else if |level| == 1 then [combine(level[0], level[0])]
    else [combine(level[0], level[1])] + Up(combine, level[2..])
  }

  function Root<T>(combine: (T, T) -> T, level: seq<T>): T
    requires level != []
    decreases |level|
  {
    if |level| == 1 then level[0] else Root(combine, Up(combine, level))
  }

  method MerkleRoot<T>(combine: (T, T) -> T, hashes: seq<T>, zero: T) returns (root: T)
    ensures root == if hashes == [] then zero else Root(combine, hashes)
  {
    hide Up;
    if hashes == [] { return zero; }
    var level := hashes;
    while |level| > 1
      invariant level != [] && Root(combine, level) == Root(combine, hashes)
      decreases |level|
    {
      ghost var before := level;
      if |level| % 2 == 1 {
        level := level + [level[|level| - 1]];
        EvenedOut(combine, before);
      }
      level := CombinePairs(combine, level);
      assert level == Up(combine, before);
    }
    return level[0];
  }

  method CombinePairs<T>(combine: (T, T) -> T, level: seq<T>) returns (next: seq<T>)
    requires |level| % 2 == 0
    ensures next == Up(combine, level)
  {
    hide Up;
    next := [];
    var i := 0;
    UpNone(combine, level);
    while i < |level|
      invariant 0 <= i <= |level| && i % 2 == 0
      invariant next + Up(combine, level[i..]) == Up(combine, level)
    {
      UpPair(combine, level, i);
      next := next + [combine(level[i], level[i + 1])];
      i := i + 2;
    }
  }

  lemma UpNone<T>(combine: (T, T) -> T, level: seq<T>)
    ensures [] + Up(combine, level[0..]) == Up(combine, level) && Up(combine, level[|level|..]) == []
  {
    assert level[0..] == level;
  }

  lemma UpPair<T>(combine: (T, T) -> T, level: seq<T>, i: nat)
    requires i + 1 < |level|
    ensures Up(combine, level[i..]) == [combine(level[i], level[i + 1])] + Up(combine, level[i + 2..])
  {
    assert level[i..][2..] == level[i + 2..];
  }

  /** Repeating the last of an odd number of nodes changes nothing on the next level. */
  lemma {:induction false} EvenedOut<T>(combine: (T, T) -> T, level: seq<T>)
    requires |level| % 2 == 1
    ensures Up(combine, level + [level[|level| - 1]]) == Up(combine, level)
    decreases |level|
  {
    if |level| > 1 {
      EvenedOut(combine, level[2..]);
      assert (level + [level[|level| - 1]])[2..] == level[2..] + [level[2..][|level[2..]| - 1]];
    }
  }

  // ---------- Height and position ----------

  /** How many nodes there are `h` levels above `n` leaves. */
  function Width(n: nat, h: nat): nat {
    if h == 0 then n else (Width(n, h - 1) + 1) / 2
  }

  function Height(n: nat): nat {
    if n <= 1 then 0 else 1 + Height((n + 1) / 2)
  }

  function Pow2(h: nat): (p: nat)
    ensures p >= 1
  {
    if h == 0 then 1 else 2 * Pow2(h - 1)
  }

  /** The height is the logarithm of the number of leaves, rounded up. */
  lemma {:induction false} HeightIsLog(n: nat)
    requires n >= 1
    ensures n <= Pow2(Height(n)) && (n > 1 ==> Pow2(Height(n) - 1) < n)
  {
    hide Pow2;
    Powers();
    if n > 1 {
      var m := (n + 1) / 2;
      HeightIsLog(m);
      OneLevelLess(n);
      if m > 1 { OneLevelLess(m); }
    }
  }

  lemma Powers()
    ensures Pow2(0) == 1
  {
  }

  lemma OneLevelLess(n: nat)
    requires n > 1
    ensures Pow2(Height(n)) == 2 * Pow2(Height((n + 1) / 2))
  {
  }

  /** The node at a height and position, from the top down; a missing right child is its left neighbour. */
  function Node<T>(combine: (T, T) -> T, leaves: seq<T>, h: nat, pos: nat): T
    requires pos < Width(|leaves|, h)
    decreases h
  {
    if h == 0 then leaves[pos]
    else
      var right := if 2 * pos + 1 < Width(|leaves|, h - 1) then 2 * pos + 1 else 2 * pos;
      combine(Node(combine, leaves, h - 1, 2 * pos), Node(combine, leaves, h - 1, right))
  }

  function Level<T>(combine: (T, T) -> T, leaves: seq<T>, h: nat): (level: seq<T>)
    ensures |level| == Width(|leaves|, h)
  {
    if h == 0 then leaves else Up(combine, Level(combine, leaves, h - 1))
  }

  lemma {:induction false} UpAt<T>(combine: (T, T) -> T, level: seq<T>, pos: nat)
    requires pos < (|level| + 1) / 2
    ensures Up(combine, level)[pos]
         == combine(level[2 * pos], level[if 2 * pos + 1 < |level| then 2 * pos + 1 else 2 * pos])
    decreases |level|
  {
    if pos > 0 { UpAt(combine, level[2..], pos - 1); }
  }

  lemma {:induction false} LevelIsNodes<T>(combine: (T, T) -> T, leaves: seq<T>, h: nat, pos: nat)
    requires pos < Width(|leaves|, h)
    ensures Level(combine, leaves, h)[pos] == Node(combine, leaves, h, pos)
    decreases h
  {
    if h > 0 {
      UpAt(combine, Level(combine, leaves, h - 1), pos);
      LevelIsNodes(combine, leaves, h - 1, 2 * pos);
      LevelIsNodes(combine, leaves, h - 1, if 2 * pos + 1 < Width(|leaves|, h - 1) then 2 * pos + 1 else 2 * pos);
    }
  }

  lemma {:induction false} RootOfLevel<T>(combine: (T, T) -> T, leaves: seq<T>, h: nat)
    requires leaves != [] && h <= Height(|leaves|)
    ensures Width(|leaves|, h) >= 1 && Height(Width(|leaves|, h)) == Height(|leaves|) - h
    ensures Root(combine, Level(combine, leaves, h)) == Root(combine, leaves)
  {
    if h > 0 { RootOfLevel(combine, leaves, h - 1); }
  }

  /** The level by level computation is the top-down one. */
  lemma RootIsTopNode<T>(combine: (T, T) -> T, leaves: seq<T>)
    requires leaves != []
    ensures Width(|leaves|, Height(|leaves|)) == 1
    ensures Root(combine, leaves) == Node(combine, leaves, Height(|leaves|), 0)
  {
    RootOfLevel(combine, leaves, Height(|leaves|));
    LevelIsNodes(combine, leaves, Height(|leaves|), 0);
  }

  // ---------- Authentication paths ----------

  function Sibling(n: nat, i: nat): nat
    requires i < n
  {
    if i % 2 == 1 then i - 1 else if i + 1 < n then i + 1 else i
  }

  /** The nodes a leaf is combined with on the way to the root. */
  function Path<T>(combine: (T, T) -> T, level: seq<T>, i: nat): (path: seq<T>)
    requires i < |level|
    ensures |path| == Height(|level|)
    decreases |level|
  {
    if |level| == 1 then []
    else [level[Sibling(|level|, i)]] + Path(combine, Up(combine, level), i / 2)
  }

  /** Climbs from a node to the root; the bits of its position tell left from right. */
  function Climb<T>(combine: (T, T) -> T, node: T, i: nat, path: seq<T>): T
    decreases |path|
  {
    if path == [] then node
    else Climb(combine, if i % 2 == 0 then combine(node, path[0]) else combine(path[0], node), i / 2, path[1..])
  }

  /** Every leaf has a path of as many hashes as the tree is high, and it leads to the root. */
  lemma {:induction false} PathLeadsToRoot<T>(combine: (T, T) -> T, level: seq<T>, i: nat)
    requires i < |level|
    ensures Climb(combine, level[i], i, Path(combine, level, i)) == Root(combine, level)
    decreases |level|
  {
    hide Up;
    if |level| > 1 {
      UpAt(combine, level, i / 2);
      PathLeadsToRoot(combine, Up(combine, level), i / 2);
    }
  }

  // ---------- What the root says about the leaves ----------

  function RightChild(n: nat, h: nat, pos: nat): nat
    requires h > 0 && pos < Width(n, h)
  {
    if 2 * pos + 1 < Width(n, h - 1) then 2 * pos + 1 else 2 * pos
  }

  /** The trees over `a` and `b` have the same node here, but over different children. */
  ghost predicate CollidesAt<T>(combine: (T, T) -> T, a: seq<T>, b: seq<T>, h: nat, pos: nat)
    requires |a| == |b|
  {
    && 0 < h <= Height(|a|) && pos < Width(|a|, h)
    && Node(combine, a, h, pos) == Node(combine, b, h, pos)
    && (Node(combine, a, h - 1, 2 * pos) != Node(combine, b, h - 1, 2 * pos)
        || Node(combine, a, h - 1, RightChild(|a|, h, pos)) != Node(combine, b, h - 1, RightChild(|a|, h, pos)))
  }

  /** The hash tells apart whatever the trees over `a` and `b` combine at the same place. */
  ghost predicate NoCollision<T>(combine: (T, T) -> T, a: seq<T>, b: seq<T>)
    requires |a| == |b|
  {
    forall h: nat, pos: nat :: !CollidesAt(combine, a, b, h, pos)
  }

  lemma SameNodes<T>(combine: (T, T) -> T, a: seq<T>, b: seq<T>, h: nat, pos: nat)
    requires |a| == |b| && pos < Width(|a|, h)
    ensures Level(combine, a, h)[pos] == Level(combine, b, h)[pos] <==> Node(combine, a, h, pos) == Node(combine, b, h, pos)
  {
    LevelIsNodes(combine, a, h, pos);
    LevelIsNodes(combine, b, h, pos);
  }

  /** Without collisions, levels that agree lie above levels that agree. */
  lemma {:induction false} AgreeDownwards<T>(combine: (T, T) -> T, a: seq<T>, b: seq<T>, h: nat)
    requires |a| == |b| && h <= Height(|a|) && NoCollision(combine, a, b)
    requires Level(combine, a, h) == Level(combine, b, h)
    ensures a == b
    decreases h
  {
    if h > 0 {
      var below, other := Level(combine, a, h - 1), Level(combine, b, h - 1);
      forall i | 0 <= i < |below| ensures below[i] == other[i] {
        SameNodes(combine, a, b, h, i / 2);
        SameNodes(combine, a, b, h - 1, i);
        assert !CollidesAt(combine, a, b, h, i / 2);
        assert i == 2 * (i / 2) || i == RightChild(|a|, h, i / 2);
      }
      AgreeDownwards(combine, a, b, h - 1);
    }
  }

  /** Without collisions the root tells lists of the same length apart. */
  lemma RootTellsApart<T>(combine: (T, T) -> T, a: seq<T>, b: seq<T>)
    requires a != [] && |a| == |b| && NoCollision(combine, a, b)
    ensures Root(combine, a) == Root(combine, b) <==> a == b
  {
    hide Root, Node, Level, Width, NoCollision;
    var h := Height(|a|);
    RootIsTopNode(combine, a);
    RootIsTopNode(combine, b);
    if Root(combine, a) == Root(combine, b) {
      SameNodes(combine, a, b, h, 0);
      assert |Level(combine, a, h)| == 1 && |Level(combine, b, h)| == 1;
      AgreeDownwards(combine, a, b, h);
    }
  }

  // ---------- Lists of different lengths ----------

  /** The leaf of `n` that stands at place `i` once every missing right child is filled in by its left neighbour. */
  function LeafAt(n: nat, i: nat): (leaf: nat)
    requires n >= 1 && i < Pow2(Height(n))
    ensures leaf < n
    decreases n
  {
    if n == 1 then 0
    else
      var parent := LeafAt((n + 1) / 2, i / 2);
      if 2 * parent + i % 2 < n then 2 * parent + i % 2 else 2 * parent
  }

  /** The leaves of the complete tree, as many as a power of two. */
  function Padded<T>(leaves: seq<T>): (padded: seq<T>)
    requires leaves != []
    ensures |padded| == Pow2(Height(|leaves|))
  {
    seq(Pow2(Height(|leaves|)), i requires 0 <= i < Pow2(Height(|leaves|)) => leaves[LeafAt(|leaves|, i)])
  }

  lemma PairOf(n: nat, pos: nat)
    requires n > 1 && pos < Pow2(Height((n + 1) / 2))
    ensures 2 * pos + 1 < Pow2(Height(n))
    ensures var parent := LeafAt((n + 1) / 2, pos);
            && LeafAt(n, 2 * pos) == 2 * parent
            && LeafAt(n, 2 * pos + 1) == if 2 * parent + 1 < n then 2 * parent + 1 else 2 * parent
  {
    assert (2 * pos) / 2 == pos && (2 * pos) % 2 == 0;
    assert (2 * pos + 1) / 2 == pos && (2 * pos + 1) % 2 == 1;
  }

  lemma UpOfPadded<T>(combine: (T, T) -> T, leaves: seq<T>)
    requires |leaves| > 1
    ensures Up(combine, leaves) != [] && Up(combine, Padded(leaves)) == Padded(Up(combine, leaves))
  {
    hide Up, LeafAt, Pow2, Height, Padded;
    OneLevelLess(|leaves|);
    forall pos | 0 <= pos < |Padded(Up(combine, leaves))|
      ensures Up(combine, Padded(leaves))[pos] == Padded(Up(combine, leaves))[pos]
    {
      UpOfPaddedAt(combine, leaves, pos);
    }
  }

  lemma UpOfPaddedAt<T>(combine: (T, T) -> T, leaves: seq<T>, pos: nat)
    requires |leaves| > 1 && pos < Pow2(Height((|leaves| + 1) / 2))
    ensures pos < |Up(combine, Padded(leaves))|
    ensures Up(combine, Padded(leaves))[pos] == Padded(Up(combine, leaves))[pos]
  {
    hide Up, LeafAt, Pow2, Height;
    var parent := LeafAt((|leaves| + 1) / 2, pos);
    PairOf(|leaves|, pos);
    UpAt(combine, Padded(leaves), pos);
    UpAt(combine, leaves, parent);
  }

  /** Filling in the missing children does not change the root. */
  lemma {:induction false} PaddedKeepsRoot<T>(combine: (T, T) -> T, leaves: seq<T>)
    requires leaves != []
    ensures Root(combine, Padded(leaves)) == Root(combine, leaves)
    decreases |leaves|
  {
    hide Padded, Up;
    if |leaves| == 1 {
      SingleIsPadded(leaves);
    } else {
      UpOfPadded(combine, leaves);
      PaddedKeepsRoot(combine, Up(combine, leaves));
      OneLevelLess(|leaves|);
    }
  }

  lemma SingleIsPadded<T>(leaves: seq<T>)
    requires |leaves| == 1
    ensures Padded(leaves) == leaves
  {
  }

  lemma {:induction false} PowersAreWide(k: nat, h: nat)
    requires h <= k
    ensures Width(Pow2(k), h) == Pow2(k - h)
  {
    if h > 0 { PowersAreWide(k, h - 1); }
  }

  lemma {:induction false} PowersAreHigh(k: nat)
    ensures Height(Pow2(k)) == k
  {
    if k > 0 {
      PowersAreHigh(k - 1);
      assert (Pow2(k) + 1) / 2 == Pow2(k - 1) && Pow2(k - 1) >= 1;
    }
  }

  /** The nodes of the complete tree, `h` levels above its leaves. */
  function PaddedLevel<T>(combine: (T, T) -> T, leaves: seq<T>, h: nat): (level: seq<T>)
    requires leaves != [] && h <= Height(|leaves|)
    ensures |level| == Pow2(Height(|leaves|) - h)
  {
    PowersAreWide(Height(|leaves|), h);
    Level(combine, Padded(leaves), h)
  }

  lemma PaddedLevelKeepsRoot<T>(combine: (T, T) -> T, leaves: seq<T>, h: nat)
    requires leaves != [] && h <= Height(|leaves|)
    ensures PaddedLevel(combine, leaves, h) != [] && Root(combine, PaddedLevel(combine, leaves, h)) == Root(combine, leaves)
  {
    hide Root, Level, Up, Padded;
    PowersAreHigh(Height(|leaves|));
    PaddedKeepsRoot(combine, leaves);
    RootOfLevel(combine, Padded(leaves), h);
  }

  /**
   Lists of any two lengths have the same root, without a collision, just when the completed lower tree is
   what the completed higher one is at that height.
   */
  lemma RootsOfAnyLengths<T>(combine: (T, T) -> T, a: seq<T>, b: seq<T>)
    requires a != [] && b != [] && Height(|a|) <= Height(|b|)
    requires NoCollision(combine, Padded(a), PaddedLevel(combine, b, Height(|b|) - Height(|a|)))
    ensures Root(combine, a) == Root(combine, b)
            <==> Padded(a) == PaddedLevel(combine, b, Height(|b|) - Height(|a|))
  {
    hide Root, Padded, PaddedLevel, NoCollision, Height;
    PaddedKeepsRoot(combine, a);
    PaddedLevelKeepsRoot(combine, b, Height(|b|) - Height(|a|));
    RootTellsApart(combine, Padded(a), PaddedLevel(combine, b, Height(|b|) - Height(|a|)));
  }

  /** For instance, repeating the last of an odd number of leaves keeps the root. */
  lemma RepeatedLeafKeepsRoot<T>(combine: (T, T) -> T, a: seq<T>)
    requires |a| % 2 == 1 && |a| > 1
    ensures Root(combine, a + [a[|a| - 1]]) == Root(combine, a)
  {
    EvenedOut(combine, a);
  }
}
