/**
 What it means for one list to hold, in order, exactly those items of another that meet a condition, and for a
 list to be made up of parts laid one after the other.  Said by positions, without any function that does it.
 */
module Selections {
  ghost predicate Climbs(at: seq<nat>) {
    forall i, j :: 0 <= i < j < |at| ==> at[i] < at[j]
  }

  /** The items of `r` stand in `s` at the positions `at`. */
  ghost predicate StandsAt<T>(s: seq<T>, r: seq<T>, at: seq<nat>) {
    |at| == |r| && forall i :: 0 <= i < |at| ==> at[i] < |s| && s[at[i]] == r[i]
  }

  /** The positions `at` are exactly those of the items to be kept. */
  ghost predicate AreKept<T>(s: seq<T>, keep: T -> bool, at: seq<nat>) {
    forall p: nat :: p in at <==> p < |s| && keep(s[p])
  }

  /** `r` holds exactly the items of `s` that are to be kept, in their order. */
  ghost predicate Selects<T>(s: seq<T>, keep: T -> bool, r: seq<T>) {
    exists at: seq<nat> :: Climbs(at) && StandsAt(s, r, at) && AreKept(s, keep, at)
  }

  lemma SelectsNone<T>(s: seq<T>, keep: T -> bool)
    requires s == []
    ensures Selects(s, keep, [])
  {
    assert Climbs([]) && StandsAt(s, [], []) && AreKept(s, keep, []);
  }

  lemma ClimbsMore(at: seq<nat>, n: nat)
    requires Climbs(at) && forall i :: 0 <= i < |at| ==> at[i] < n
    ensures Climbs(at + [n])
  {
  }

  lemma StandsMore<T>(s: seq<T>, r: seq<T>, at: seq<nat>, x: T)
    requires StandsAt(s, r, at)
    ensures StandsAt(s + [x], r, at) && StandsAt(s + [x], r + [x], at + [|s|])
    ensures forall i :: 0 <= i < |at| ==> at[i] < |s|
  {
  }

  lemma SelectsMore<T>(s: seq<T>, keep: T -> bool, r: seq<T>, x: T)
    requires Selects(s, keep, r)
    ensures Selects(s + [x], keep, if keep(x) then r + [x] else r)
  {
    hide Climbs, StandsAt, AreKept;
    var at: seq<nat> :| Climbs(at) && StandsAt(s, r, at) && AreKept(s, keep, at);
    StandsMore(s, r, at, x);
    ClimbsMore(at, |s|);
    KeptMore(s, keep, at, x);
  }

  lemma KeptMore<T>(s: seq<T>, keep: T -> bool, at: seq<nat>, x: T)
    requires AreKept(s, keep, at)
    ensures AreKept(s + [x], keep, if keep(x) then at + [|s|] else at)
  {
    var more := if keep(x) then at + [|s|] else at;
    forall p: nat ensures p in more <==> p < |s + [x]| && keep((s + [x])[p]) {
      assert p in at <==> p < |s| && keep(s[p]);
    }
  }

  /** Two items of a selection stand in the list in the same order. */
  lemma SelectionKeepsOrder<T>(s: seq<T>, keep: T -> bool, r: seq<T>, i: nat, j: nat) returns (p: nat, q: nat)
    requires Selects(s, keep, r) && i < j < |r|
    ensures p < q < |s| && s[p] == r[i] && s[q] == r[j]
  {
    var at: seq<nat> :| Climbs(at) && StandsAt(s, r, at) && AreKept(s, keep, at);
    p, q := at[i], at[j];
  }

  lemma SelectedIsKept<T>(s: seq<T>, keep: T -> bool, r: seq<T>, x: T)
    requires Selects(s, keep, r) && x in r
    ensures x in s && keep(x)
  {
    var at: seq<nat> :| Climbs(at) && StandsAt(s, r, at) && AreKept(s, keep, at);
    var i :| 0 <= i < |r| && r[i] == x;
    assert at[i] in at && s[at[i]] == x;
  }

  lemma SelectsAlike<T>(s: seq<T>, keep: T -> bool, alike: T -> bool, r: seq<T>)
    requires Selects(s, keep, r) && forall i :: 0 <= i < |s| ==> keep(s[i]) == alike(s[i])
    ensures Selects(s, alike, r)
  {
    var at: seq<nat> :| Climbs(at) && StandsAt(s, r, at) && AreKept(s, keep, at);
    assert AreKept(s, alike, at);
  }

  /** There is only one selection. */
  lemma SelectionIsUnique<T>(s: seq<T>, keep: T -> bool, r: seq<T>, r': seq<T>)
    requires Selects(s, keep, r) && Selects(s, keep, r')
    ensures r == r'
  {
    hide Climbs, AreKept;
    var at: seq<nat> :| Climbs(at) && StandsAt(s, r, at) && AreKept(s, keep, at);
    var at': seq<nat> :| Climbs(at') && StandsAt(s, r', at') && AreKept(s, keep, at');
    SamePositions(s, keep, at, at');
  }

  lemma SamePositions<T>(s: seq<T>, keep: T -> bool, a: seq<nat>, b: seq<nat>)
    requires Climbs(a) && Climbs(b) && AreKept(s, keep, a) && AreKept(s, keep, b)
    ensures a == b
  {
    forall p: nat ensures p in a <==> p in b {
    }
    AscendingAreEqual(a, b);
  }

  lemma {:induction false} AscendingAreEqual(a: seq<nat>, b: seq<nat>)
    requires Climbs(a) && Climbs(b) && forall p: nat :: p in a <==> p in b
    ensures a == b
    decreases |a|
  {
    assert b == [] || b[0] in a;
    if a != [] {
      assert a[0] in b;
      assert b[0] in a;
      assert a[0] == b[0];
      forall p: nat ensures p in a[1..] <==> p in b[1..] {
        assert p in a <==> p == a[0] || p in a[1..];
        assert p in b <==> p == b[0] || p in b[1..];
      }
      AscendingAreEqual(a[1..], b[1..]);
    }
  }

  /** `r` consists of the parts one after the other: the first `n` of them end at mark `n`. */
  ghost predicate LaidAt<T>(r: seq<T>, parts: seq<seq<T>>, marks: seq<nat>) {
    && |marks| == |parts| + 1 && marks[0] == 0 && marks[|parts|] == |r|
    && forall i :: 0 <= i < |parts| ==> IsPart(r, marks[i], parts[i], marks[i + 1])
  }

  ghost predicate IsPart<T>(r: seq<T>, a: nat, part: seq<T>, b: nat) {
    a <= b <= |r| && r[a..b] == part
  }

  ghost predicate Lays<T>(r: seq<T>, parts: seq<seq<T>>) {
    exists marks: seq<nat> :: LaidAt(r, parts, marks)
  }

  lemma LaysNone<T>(r: seq<T>, parts: seq<seq<T>>)
    requires r == [] && parts == []
    ensures Lays(r, parts)
  {
    assert LaidAt(r, parts, [0]);
  }

  lemma LaysMore<T>(r: seq<T>, parts: seq<seq<T>>, part: seq<T>)
    requires Lays(r, parts)
    ensures Lays(r + part, parts + [part])
  {
    var marks: seq<nat> :| LaidAt(r, parts, marks);
    var more: seq<nat> := marks + [|r + part|];
    forall i | 0 <= i < |parts| + 1 ensures IsPart(r + part, more[i], (parts + [part])[i], more[i + 1]) {
      if i < |parts| {
        assert IsPart(r, marks[i], parts[i], marks[i + 1]);
      }
    }
    assert LaidAt(r + part, parts + [part], more);
  }

  lemma LaidFirst<T>(r: seq<T>, parts: seq<seq<T>>, marks: seq<nat>)
    requires parts != [] && LaidAt(r, parts, marks)
    ensures var n := |parts| - 1;
            marks[n] <= |r| && r == r[..marks[n]] + parts[n] && LaidAt(r[..marks[n]], parts[..n], marks[..n + 1])
  {
    var n := |parts| - 1;
    assert IsPart(r, marks[n], parts[n], marks[n + 1]);
    forall i | 0 <= i < n ensures IsPart(r[..marks[n]], marks[..n + 1][i], parts[..n][i], marks[..n + 1][i + 1]) {
      assert IsPart(r, marks[i], parts[i], marks[i + 1]);
      MarksClimb(r, parts, marks, i + 1, n);
      assert r[..marks[n]][marks[i]..marks[i + 1]] == r[marks[i]..marks[i + 1]];
    }
  }

  lemma {:induction false} MarksClimb<T>(r: seq<T>, parts: seq<seq<T>>, marks: seq<nat>, i: nat, j: nat)
    requires LaidAt(r, parts, marks) && i <= j <= |parts|
    ensures marks[i] <= marks[j]
    decreases j - i
  {
    if i < j {
      assert IsPart(r, marks[i], parts[i], marks[i + 1]);
      MarksClimb(r, parts, marks, i + 1, j);
    }
  }

  /** There is only one way to lay parts one after the other. */
  lemma {:induction false} LaidIsUnique<T>(r: seq<T>, r': seq<T>, parts: seq<seq<T>>)
    requires Lays(r, parts) && Lays(r', parts)
    ensures r == r'
    decreases |parts|
  {
    var marks: seq<nat> :| LaidAt(r, parts, marks);
    var marks': seq<nat> :| LaidAt(r', parts, marks');
    if parts != [] {
      var n := |parts| - 1;
      LaidFirst(r, parts, marks);
      LaidFirst(r', parts, marks');
      LaidIsUnique(r[..marks[n]], r'[..marks'[n]], parts[..n]);
    }
  }
}
