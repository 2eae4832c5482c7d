/**
 The comparison the object layers sort by, and sorting by it.
 */
module KeyOrder {
  import opened CallAddresses

  /** The order in which numbers compare, then lengths. */
  function Compare(a: Address, b: Address, i: nat): int
    requires i <= |a| && i <= |b|
    decreases |a| - i
  {
    if i == |a| || i == |b| then |a| - |b|
    else if a[i] != b[i] then a[i] - b[i]
    else Compare(a, b, i + 1)
  }

  method AddressCompare(a: Address, b: Address) returns (order: int)
    ensures order == Compare(a, b, 0)
  {
    var n := if |a| < |b| then |a| else |b|;
    for i := 0 to n
      invariant Compare(a, b, 0) == Compare(a, b, i)
    {
      if a[i] - b[i] != 0 { return a[i] - b[i]; }
    }
    return |a| - |b|;
  }

  /** The comparison is the lexicographic order. */
  lemma {:induction false} CompareIsBefore(a: Address, b: Address, i: nat)
    requires i <= |a| && i <= |b| && a[..i] == b[..i]
    ensures Compare(a, b, i) < 0 <==> Before(a, b)
    ensures Compare(a, b, i) == 0 <==> a == b
    ensures Compare(a, b, i) > 0 <==> Before(b, a)
    decreases |a| - i
  {
    if i == |a| || i == |b| || a[i] != b[i] {
      if Compare(a, b, i) < 0 {
        assert DivergeAt(a, b, i);
        BeforeIrreflexive(a, b);
      } else if Compare(a, b, i) > 0 {
        assert DivergeAt(b, a, i);
        BeforeIrreflexive(b, a);
      } else {
        assert a == a[..i] == b[..i] == b;
        if Before(a, b) { BeforeIrreflexive(a, b); }
      }
    } else {
      CompareIsBefore(a, b, i + 1);
    }
  }

  lemma NotAfterTransitive(a: Address, b: Address, c: Address)
    requires !Before(b, a) && !Before(c, b)
    ensures !Before(c, a)
  {
    if Before(c, a) {
      CompareIsBefore(a, b, 0);
      if a != b {
        BeforeTransitive(c, a, b);
      }
    }
  }

  function Insert<T>(key: T -> Address, s: seq<T>, x: T): seq<T> {
    if s == [] || Compare(key(s[|s| - 1]), key(x), 0) <= 0 then s + [x]
    else Insert(key, s[..|s| - 1], x) + [s[|s| - 1]]
  }

  /** A stable sort by the comparison of keys. */
  function SortBy<T>(key: T -> Address, s: seq<T>): seq<T> {
    if s == [] then [] else Insert(key, SortBy(key, s[..|s| - 1]), s[|s| - 1])
  }

  ghost predicate Ordered<T>(key: T -> Address, s: seq<T>) {
    forall i, j :: 0 <= i < j < |s| ==> !Before(key(s[j]), key(s[i]))
  }

  ghost predicate StrictlyOrdered<T>(key: T -> Address, s: seq<T>) {
    forall i, j :: 0 <= i < j < |s| ==> Before(key(s[i]), key(s[j]))
  }

  lemma {:induction false} InsertKeeps<T>(key: T -> Address, s: seq<T>, x: T)
    ensures multiset(Insert(key, s, x)) == multiset(s) + multiset{x}
  {
    if s != [] && Compare(key(s[|s| - 1]), key(x), 0) > 0 {
      InsertKeeps(key, s[..|s| - 1], x);
      assert s == s[..|s| - 1] + [s[|s| - 1]];
    }
  }

  lemma {:induction false} InsertOrders<T>(key: T -> Address, s: seq<T>, x: T)
    requires Ordered(key, s)
    ensures Ordered(key, Insert(key, s, x))
  {
    if s == [] {
    } else {
      var n := |s| - 1;
      var last := s[n];
      CompareIsBefore(key(last), key(x), 0);
      if Compare(key(last), key(x), 0) <= 0 {
        forall i | 0 <= i < |s| ensures !Before(key(x), key(s[i])) {
          if i < n { NotAfterTransitive(key(s[i]), key(last), key(x)); }
        }
      } else {
        InsertOrders(key, s[..n], x);
        InsertKeeps(key, s[..n], x);
        var r := Insert(key, s[..n], x);
        BeforeIrreflexive(key(x), key(last));
        forall i | 0 <= i < |r| ensures !Before(key(last), key(r[i])) {
          assert r[i] in multiset(r);
          assert r[i] in s[..n] || r[i] == x;
        }
      }
    }
  }

  /** Sorting permutes, and puts keys in order. */
  lemma {:induction false} SortSorts<T>(key: T -> Address, s: seq<T>)
    ensures multiset(SortBy(key, s)) == multiset(s) && Ordered(key, SortBy(key, s))
    ensures |SortBy(key, s)| == |s|
  {
    if s != [] {
      var n := |s| - 1;
      SortSorts(key, s[..n]);
      InsertKeeps(key, SortBy(key, s[..n]), s[n]);
      InsertOrders(key, SortBy(key, s[..n]), s[n]);
      assert s == s[..n] + [s[n]];
    }
    assert |SortBy(key, s)| == |multiset(SortBy(key, s))|;
  }

  /** Items with different keys end up with strictly increasing keys. */
  lemma SortStrictly<T>(key: T -> Address, s: seq<T>)
    requires forall i, j :: 0 <= i < j < |s| ==> key(s[i]) != key(s[j])
    ensures StrictlyOrdered(key, SortBy(key, s))
  {
    var r := SortBy(key, s);
    SortSorts(key, s);
    forall i, j | 0 <= i < j < |r| ensures Before(key(r[i]), key(r[j])) {
      CompareIsBefore(key(r[i]), key(r[j]), 0);
      if key(r[i]) == key(r[j]) {
        assert r[i] in multiset(r) && r[j] in multiset(r);
        assert r[i] in s && r[j] in s;
        assert r[i] == r[j];
        Twice(r, i, j);
        Once(s, r[i]);
      }
    }
  }

  lemma SameMembers<T>(a: seq<T>, b: seq<T>)
    requires multiset(a) == multiset(b)
    ensures forall x :: x in a <==> x in b
    ensures forall i :: 0 <= i < |a| ==> a[i] in b
  {
    assert forall x :: x in a <==> x in multiset(a);
    assert forall x :: x in b <==> x in multiset(b);
    assert forall i :: 0 <= i < |a| ==> a[i] in a;
  }

  lemma StaysDistinct<T>(a: seq<T>, b: seq<T>)
    requires multiset(a) == multiset(b) && forall i, j :: 0 <= i < j < |a| ==> a[i] != a[j]
    ensures forall i, j :: 0 <= i < j < |b| ==> b[i] != b[j]
  {
    forall i, j | 0 <= i < j < |b| ensures b[i] != b[j] {
      Once(a, b[i]);
      if b[i] == b[j] { Twice(b, i, j); }
    }
  }

  ghost predicate Increasing(keys: seq<Address>) {
    forall i, j :: 0 <= i < j < |keys| ==> Before(keys[i], keys[j])
  }

  /** There is only one way to put keys in order. */
  lemma {:induction false} OneOrder(a: seq<Address>, b: seq<Address>)
    requires Increasing(a) && Increasing(b) && multiset(a) == multiset(b)
    ensures a == b
  {
    assert |a| == |multiset(a)| == |multiset(b)| == |b|;
    if a != [] {
      SameFirst(a, b);
      SameFirst(b, a);
      assert a[0] == b[0] by {
        if Before(a[0], b[0]) { BeforeIrreflexive(a[0], b[0]); }
      }
      assert a == [a[0]] + a[1..] && b == [b[0]] + b[1..];
      assert multiset(a[1..]) == multiset(a) - multiset{a[0]} && multiset(b[1..]) == multiset(b) - multiset{b[0]};
      OneOrder(a[1..], b[1..]);
    }
  }

  lemma SameFirst(a: seq<Address>, b: seq<Address>)
    requires Increasing(b) && multiset(a) == multiset(b) && a != [] && b != []
    ensures a[0] == b[0] || Before(b[0], a[0])
  {
    assert a[0] in multiset(b);
    var i :| 0 <= i < |b| && b[i] == a[0];
  }

  lemma SingleKeys(x: int, y: int)
    ensures !Before([y], [x]) ==> x <= y
  {
    if y < x { assert DivergeAt([y], [x], 0); }
  }

  lemma Twice<T>(s: seq<T>, i: nat, j: nat)
    requires i < j < |s| && s[i] == s[j]
    ensures multiset(s)[s[i]] >= 2
  {
    assert s == s[..i] + [s[i]] + s[i + 1..j] + [s[j]] + s[j + 1..];
  }

  lemma {:induction false} Once<T>(s: seq<T>, x: T)
    requires forall i, j :: 0 <= i < j < |s| ==> s[i] != s[j]
    ensures multiset(s)[x] <= 1
  {
    if s != [] {
      var n := |s| - 1;
      Once(s[..n], x);
      assert s == s[..n] + [s[n]];
      if s[n] == x {
        assert x !in s[..n];
      }
    }
  }
}
