/** Sorting by a strict total order. Elements that are pairwise different have one sorted
    arrangement, so a sort hides the order in which they were collected. Beside it, counting
    elements and listing the keys of a map. */
module Sorting {

  ghost predicate StrictTotal<T(!new)>(less: (T, T) -> bool) {
    && (forall x :: !less(x, x))
    && (forall x, y, z :: less(x, y) && less(y, z) ==> less(x, z))
    && (forall x, y :: less(x, y) || less(y, x) || x == y)
  }

  predicate Distinct<T(==)>(s: seq<T>) {
    forall i, j :: 0 <= i < j < |s| ==> s[i] != s[j]
  }

  ghost predicate Increasing<T(!new)>(s: seq<T>, less: (T, T) -> bool) {
    forall i, j :: 0 <= i < j < |s| ==> less(s[i], s[j])
  }

  ghost function Elements<T(!new)>(s: seq<T>): set<T> {
    set x | x in s
  }

  function Insert<T(!new)>(x: T, s: seq<T>, less: (T, T) -> bool): (r: seq<T>)
    ensures |r| == |s| + 1 && (forall y :: y in r <==> y == x || y in s)
  {
    if s == [] then [x]
    else if less(x, s[0]) then [x] + s
    else
      var rest := Insert(x, s[1..], less);
      assert forall y :: y in s <==> y == s[0] || y in s[1..];
      [s[0]] + rest
  }

  function Sort<T(!new)>(s: seq<T>, less: (T, T) -> bool): (r: seq<T>)
    ensures |r| == |s| && (forall y :: y in r <==> y in s)
  {
    if s == [] then [] else Insert(s[0], Sort(s[1..], less), less)
  }

  lemma {:induction false} InsertIncreasing<T(!new)>(x: T, s: seq<T>, less: (T, T) -> bool)
    requires StrictTotal(less) && Increasing(s, less) && x !in s
    ensures Increasing(Insert(x, s, less), less)
  {
    if s != [] && !less(x, s[0]) {
      InsertIncreasing(x, s[1..], less);
      var r := Insert(x, s[1..], less);
      forall i | 0 <= i < |r| ensures less(s[0], r[i]) {
        assert r[i] in r;
        if r[i] in s[1..] { assert r[i] in s; }
      }
    }
  }

  lemma {:induction false} SortIncreasing<T(!new)>(s: seq<T>, less: (T, T) -> bool)
    requires StrictTotal(less) && Distinct(s)
    ensures Increasing(Sort(s, less), less)
  {
    if s != [] {
      SortIncreasing(s[1..], less);
      InsertIncreasing(s[0], Sort(s[1..], less), less);
    }
  }

  /** Increasing sequences with the same elements are equal. */
  lemma {:induction false} IncreasingUnique<T(!new)>(a: seq<T>, b: seq<T>, less: (T, T) -> bool)
    requires StrictTotal(less) && Increasing(a, less) && Increasing(b, less)
    requires forall x :: x in a <==> x in b
    ensures a == b
  {
    if a == [] {
      assert forall i :: 0 <= i < |b| ==> b[i] in b;
    } else {
      assert a[0] in b && b != [];
      assert b[0] in a;
      assert a[0] == b[0];
      forall x ensures x in a[1..] <==> x in b[1..] {
        assert x in a[1..] ==> x in a && x != a[0];
        assert x in b[1..] ==> x in b && x != b[0];
        assert x in a && x != a[0] ==> x in a[1..];
        assert x in b && x != b[0] ==> x in b[1..];
      }
      IncreasingUnique(a[1..], b[1..], less);
      assert a == [a[0]] + a[1..] && b == [b[0]] + b[1..];
    }
  }

  lemma IncreasingDistinct<T(!new)>(s: seq<T>, less: (T, T) -> bool)
    requires StrictTotal(less) && Increasing(s, less)
    ensures Distinct(s)
  {
  }

  ghost function Listed<T(!new)>(s: set<T>): (r: seq<T>)
    ensures Distinct(r) && Elements(r) == s
  {
    if s == {} then []
    else
      var x :| x in s;
      var rest := Listed(s - {x});
      assert forall y :: y in rest <==> y in Elements(rest);
      [x] + rest
  }

  /** The elements of a set in increasing order. */
  ghost function Ascending<T(!new)>(s: set<T>, less: (T, T) -> bool): (r: seq<T>)
    ensures Elements(r) == s
  {
    var l := Listed(s);
    assert forall x :: x in l <==> x in Elements(l);
    Sort(l, less)
  }

  lemma AscendingIncreasing<T(!new)>(s: set<T>, less: (T, T) -> bool)
    requires StrictTotal(less)
    ensures Increasing(Ascending(s, less), less) && Distinct(Ascending(s, less))
  {
    SortIncreasing(Listed(s), less);
    IncreasingDistinct(Ascending(s, less), less);
  }

  /** Whatever order the elements were collected in, sorting gives the same sequence. */
  lemma SortIsAscending<T(!new)>(s: seq<T>, less: (T, T) -> bool)
    requires StrictTotal(less) && Distinct(s)
    ensures Sort(s, less) == Ascending(Elements(s), less)
  {
    SortIncreasing(s, less);
    AscendingIncreasing(Elements(s), less);
    var a := Ascending(Elements(s), less);
    forall x ensures x in Sort(s, less) <==> x in a {
      assert x in a <==> x in Elements(a);
    }
    IncreasingUnique(Sort(s, less), a, less);
  }

  // ---- Strings ----

  /** Strings compare character by character, a proper prefix first. */
  predicate StringLess(a: string, b: string) {
    if b == [] then false
    else if a == [] then true
    else if a[0] != b[0] then a[0] < b[0]
    else StringLess(a[1..], b[1..])
  }

  /** The strings agree up to position k, where the first ends or has the smaller character. */
  predicate SmallerAt(a: string, b: string, k: nat) {
    && k <= |a| && k < |b| && a[..k] == b[..k]
    && (k == |a| || a[k] < b[k])
  }

  lemma {:induction false} StringLessExactly(a: string, b: string)
    ensures StringLess(a, b) <==> exists k: nat :: SmallerAt(a, b, k)
  {
    if a == [] || b == [] || a[0] != b[0] {
      DecidedAtFirst(a, b);
    } else {
      var a', b' := a[1..], b[1..];
      StringLessExactly(a', b');
      if StringLess(a, b) {
        var k: nat :| SmallerAt(a', b', k);
        DecidedLater(a, b, k);
      }
      if exists k: nat :: SmallerAt(a, b, k) {
        var k: nat :| SmallerAt(a, b, k);
        DecidedLater(a, b, k - 1);
      }
    }
  }

  lemma DecidedAtFirst(a: string, b: string)
    requires a == [] || b == [] || a[0] != b[0]
    ensures StringLess(a, b) <==> exists k: nat :: SmallerAt(a, b, k)
  {
    if StringLess(a, b) { assert SmallerAt(a, b, 0); }
    if exists k: nat :: SmallerAt(a, b, k) {
      var k: nat :| SmallerAt(a, b, k);
      if k > 0 { AgreeAtFirst(a, b, k); }
    }
  }

  lemma AgreeAtFirst(a: string, b: string, k: nat)
    requires 0 < k <= |a| && k <= |b| && a[..k] == b[..k]
    ensures a[0] == b[0]
  {
    assert a[..k][0] == a[0] && b[..k][0] == b[0];
  }

  lemma DecidedLater(a: string, b: string, k: nat)
    requires a != [] && b != [] && a[0] == b[0]
    ensures SmallerAt(a, b, k + 1) <==> SmallerAt(a[1..], b[1..], k)
  {
    if k + 1 <= |a| && k + 1 < |b| {
      assert a[..k + 1] == [a[0]] + a[1..][..k] && b[..k + 1] == [b[0]] + b[1..][..k];
      assert a[..k + 1][1..] == a[1..][..k] && b[..k + 1][1..] == b[1..][..k];
    }
  }

  lemma {:induction false} StringLessTransitive(a: string, b: string, c: string)
    requires StringLess(a, b) && StringLess(b, c)
    ensures StringLess(a, c)
  {
    if a != [] && a[0] == b[0] && b[0] == c[0] {
      StringLessTransitive(a[1..], b[1..], c[1..]);
    }
  }

  lemma {:induction false} StringLessIrreflexive(a: string)
    ensures !StringLess(a, a)
  {
    if a != [] { StringLessIrreflexive(a[1..]); }
  }

  lemma {:induction false} StringLessConnected(a: string, b: string)
    ensures StringLess(a, b) || StringLess(b, a) || a == b
  {
    if a != [] && b != [] && a[0] == b[0] {
      StringLessConnected(a[1..], b[1..]);
      assert a == [a[0]] + a[1..] && b == [b[0]] + b[1..];
    }
  }

  lemma StringLessStrictTotal()
    ensures StrictTotal(StringLess)
  {
    forall x ensures !StringLess(x, x) { StringLessIrreflexive(x); }
    forall x, y, z | StringLess(x, y) && StringLess(y, z) ensures StringLess(x, z) { StringLessTransitive(x, y, z); }
    forall x, y ensures StringLess(x, y) || StringLess(y, x) || x == y { StringLessConnected(x, y); }
  }

  // ---- Counting and collecting ----

  lemma {:induction false} SubsetNotLarger<T>(a: set<T>, b: set<T>)
    requires a <= b
    ensures |a| <= |b|
  {
    if a != {} {
      var x :| x in a;
      SubsetNotLarger(a - {x}, b - {x});
    }
  }

  lemma {:induction false} DistinctCounts<T(!new)>(s: seq<T>)
    requires Distinct(s)
    ensures |Elements(s)| == |s|
  {
    if s != [] {
      DistinctCounts(s[1..]);
      assert s == [s[0]] + s[1..];
      assert Elements(s) == {s[0]} + Elements(s[1..]);
      assert s[0] !in Elements(s[1..]);
    }
  }

  lemma ElementsSnoc<T(!new)>(s: seq<T>, x: T)
    ensures Elements(s + [x]) == Elements(s) + {x}
  {
  }

  /** The keys of a map in whatever order the iteration happens to take. */
  method ListKeys(keys: set<string>) returns (l: seq<string>)
    ensures Distinct(l) && Elements(l) == keys
  {
    var rest := keys;
    l := [];
    while rest != {}
      invariant rest <= keys && Distinct(l) && Elements(l) == keys - rest
      decreases rest
    {
      var k :| k in rest;
      assert k !in Elements(l);
      ElementsSnoc(l, k);
      l, rest := l + [k], rest - {k};
    }
  }
}
