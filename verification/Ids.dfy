/**
 Identifiers and Python's `sorted` on them.  Task ids, change ids and file names are
 strings; `sorted` orders them lexicographically by code point.
 */
module Ids {

  type Id = string

  /** Lexicographic order by code point, the order of Python's `str`. */
  predicate Le(a: Id, b: Id) {
    a == [] || (b != [] && (a[0] < b[0] || (a[0] == b[0] && Le(a[1..], b[1..]))))
  }

  lemma LeTotal(a: Id, b: Id)
    ensures Le(a, b) || Le(b, a)
  {}

  lemma {:induction false} LeAntisymmetric(a: Id, b: Id)
    requires Le(a, b) && Le(b, a)
    ensures a == b
  {
    if a != [] {
      LeAntisymmetric(a[1..], b[1..]);
      assert a == [a[0]] + a[1..] && b == [b[0]] + b[1..];
    }
  }

  lemma LeTransitive(a: Id, b: Id, c: Id)
    requires Le(a, b) && Le(b, c)
    ensures Le(a, c)
  {}

  /** The texts agree up to position `i`, where the first has the smaller code point. */
  ghost predicate SmallerAt(a: Id, b: Id, i: int) {
    0 <= i < |a| && i < |b| && a[..i] == b[..i] && a[i] < b[i]
  }

  /** A text comes first if it is a prefix, or has the smaller code point at the first difference. */
  lemma {:induction false} LeIff(a: Id, b: Id)
    ensures Le(a, b) <==> a <= b || exists i :: SmallerAt(a, b, i)
  {
    if a != [] && b != [] {
      LeIff(a[1..], b[1..]);
      assert a == [a[0]] + a[1..] && b == [b[0]] + b[1..];
      if a[0] < b[0] { assert SmallerAt(a, b, 0); }
      if a[0] == b[0] {
        forall i | i > 0 ensures SmallerAt(a, b, i) <==> SmallerAt(a[1..], b[1..], i - 1) { SmallerShift(a, b, i); }
        if i :| SmallerAt(a[1..], b[1..], i) { assert SmallerAt(a, b, i + 1); }
      }
    }
  }

  lemma SmallerShift(a: Id, b: Id, i: int)
    requires a != [] && b != [] && a[0] == b[0] && i > 0
    ensures SmallerAt(a, b, i) <==> SmallerAt(a[1..], b[1..], i - 1)
  {
    if i < |a| && i < |b| {
      assert a[..i] == [a[0]] + a[1..][..i - 1] && b[..i] == [b[0]] + b[1..][..i - 1];
      assert a[1..][..i - 1] == a[..i][1..] && b[1..][..i - 1] == b[..i][1..];
    }
  }

  ghost predicate IsSorted(s: seq<Id>) {
    forall i, j :: 0 <= i < j < |s| ==> s[i] != s[j] && Le(s[i], s[j])
  }

  ghost predicate Distinct<T(!new)>(s: seq<T>) {
    forall i, j :: 0 <= i < j < |s| ==> s[i] != s[j]
  }

  function Elements<T>(s: seq<T>): set<T> {
    set x | x in s
  }

  /** `s.index(x)` */
  function IndexOf(s: seq<Id>, x: Id): (i: nat)
    requires x in s
    ensures i < |s| && s[i] == x
  {
    if s[0] == x then 0 else 1 + IndexOf(s[1..], x)
  }

  lemma TakeDrop<T>(s: seq<T>, k: nat)
    requires k <= |s|
    ensures s[..k] + s[k..] == s
  {}

  lemma ConcatFront<T>(a: seq<T>, b: seq<T>)
    requires b != []
    ensures (a + b)[..|a + b| - 1] == a + b[..|b| - 1] && (a + b)[|a + b| - 1] == b[|b| - 1]
  {}

  lemma ConcatAssociative<T>(a: seq<T>, b: seq<T>, c: seq<T>)
    ensures a + b + c == a + (b + c)
  {}

  lemma TakeAll<T>(s: seq<T>)
    ensures s[..|s|] == s
  {}

  ghost predicate IsLeast(m: Id, s: set<Id>) {
    m in s && forall y :: y in s ==> Le(m, y)
  }

  lemma {:induction false} LeastExists(s: set<Id>)
    requires s != {}
    ensures exists m :: IsLeast(m, s)
  {
    var m :| m in s;
    LeTotal(m, m);
    if s == {m} {
      assert IsLeast(m, s);
    } else {
      LeastExists(s - {m});
      var n :| IsLeast(n, s - {m});
      LeTotal(m, n);
      if Le(n, m) {
        assert forall y :: y in s ==> y == m || y in s - {m};
        assert IsLeast(n, s);
      } else {
        forall y | y in s ensures Le(m, y) {
          if y != m { LeTransitive(m, n, y); }
        }
        assert IsLeast(m, s);
      }
    }
  }

  ghost function Least(s: set<Id>): (m: Id)
    requires s != {}
    ensures IsLeast(m, s)
  {
    LeastExists(s);
    var m: Id :| IsLeast(m, s);
    m
  }

  /** `sorted(s)` of a set: the only strictly increasing sequence with exactly its elements. */
  ghost function Sorted(s: set<Id>): (r: seq<Id>)
    ensures IsSorted(r) && Elements(r) == s && |r| == |s|
  {
    if s == {} then []
    else
      var m := Least(s);
      var rest := Sorted(s - {m});
      assert forall y :: y in rest <==> y in Elements(rest);
      [m] + rest
  }

  /** Sorting a set has one result: strictly increasing sequences with the same elements are equal. */
  lemma {:induction false} SortedUnique(a: seq<Id>, b: seq<Id>)
    requires IsSorted(a) && IsSorted(b) && Elements(a) == Elements(b)
    ensures a == b
  {
    assert a != [] ==> a[0] in Elements(b);
    assert b != [] ==> b[0] in Elements(a);
    if a != [] {
      HeadIsLeast(a, b[0]);
      HeadIsLeast(b, a[0]);
      LeAntisymmetric(a[0], b[0]);
      TailElements(a);
      TailElements(b);
      SortedUnique(a[1..], b[1..]);
    }
  }

  lemma HeadIsLeast(a: seq<Id>, x: Id)
    requires IsSorted(a) && x in a
    ensures Le(a[0], x)
  {
    LeTotal(x, x);
  }

  lemma TailElements(a: seq<Id>)
    requires IsSorted(a) && a != []
    ensures IsSorted(a[1..]) && Elements(a[1..]) == Elements(a) - {a[0]}
  {
    forall x | x in Elements(a) - {a[0]} ensures x in Elements(a[1..]) {
      var i :| 0 <= i < |a| && a[i] == x;
      assert a[1..][i - 1] == x;
    }
  }

  /** `sorted(...)` as the code runs it, on a set whose iteration order is unknown. */
  method SortIds(s: set<Id>) returns (r: seq<Id>)
    ensures r == Sorted(s)
  {
    r := [];
    var left := s;
    while left != {}
      invariant left <= s && IsSorted(r) && Elements(r) == s - left
      invariant forall x, y :: x in r && y in left ==> Le(x, y)
      decreases left
    {
      LeastExists(left);
      var m :| m in left && forall y :: y in left ==> Le(m, y);
      assert m !in Elements(r);
      assert Elements(r + [m]) == Elements(r) + {m};
      r := r + [m];
      left := left - {m};
    }
    SortedUnique(r, Sorted(s));
  }

  ghost function Filter(s: seq<Id>, keep: set<Id>): seq<Id> {
    if s == [] then []
    else Filter(s[..|s| - 1], keep) + if s[|s| - 1] in keep then [s[|s| - 1]] else []
  }

  lemma FilterNext(s: seq<Id>, keep: set<Id>, n: nat)
    requires n < |s|
    ensures Filter(s[..n + 1], keep) == Filter(s[..n], keep) + if s[n] in keep then [s[n]] else []
  {
    assert s[..n + 1][..n] == s[..n];
  }

  lemma ElementsSnoc(s: seq<Id>, x: Id)
    ensures Elements(s + [x]) == Elements(s) + {x}
  {}

  lemma {:induction false} FilterElements(s: seq<Id>, keep: set<Id>)
    ensures Elements(Filter(s, keep)) == Elements(s) * keep
  {
    if s != [] {
      var n := |s| - 1;
      FilterElements(s[..n], keep);
      TakeDrop(s, n);
      ElementsSnoc(s[..n], s[n]);
      assert s[..n] + [s[n]] == s;
      ElementsSnoc(Filter(s[..n], keep), s[n]);
      assert Filter(s[..n], keep) + [] == Filter(s[..n], keep);
    }
  }

  lemma {:induction false} FilterKeepsOrder(s: seq<Id>, keep: set<Id>)
    requires IsSorted(s)
    ensures IsSorted(Filter(s, keep)) && forall x :: x in Filter(s, keep) ==> x in s
  {
    if s != [] {
      FilterKeepsOrder(s[..|s| - 1], keep);
      SortedSnoc(Filter(s[..|s| - 1], keep), s);
    }
  }

  lemma SortedSnoc(r: seq<Id>, s: seq<Id>)
    requires IsSorted(r) && IsSorted(s) && s != [] && forall x :: x in r ==> x in s[..|s| - 1]
    ensures IsSorted(r + [s[|s| - 1]])
  {
    var last := s[|s| - 1];
    forall i | 0 <= i < |r| ensures r[i] != last && Le(r[i], last) {
      assert r[i] in r;
      var j :| 0 <= j < |s| - 1 && s[j] == r[i];
    }
  }

  /** Filtering a sorted listing sorts the filtered set. */
  lemma FilterSorted(all: set<Id>, keep: set<Id>)
    requires keep <= all
    ensures Filter(Sorted(all), keep) == Sorted(keep)
  {
    FilterElements(Sorted(all), keep);
    FilterKeepsOrder(Sorted(all), keep);
    SortedUnique(Filter(Sorted(all), keep), Sorted(keep));
  }

  /** Any listing of a set, as iterating over a Python set or dictionary gives. */
  method ListOf(s: set<Id>) returns (r: seq<Id>)
    ensures Distinct(r) && Elements(r) == s
  {
    r := [];
    var left := s;
    while left != {}
      invariant left <= s && Distinct(r) && Elements(r) == s - left
      decreases left
    {
      var x :| x in left;
      assert x !in Elements(r);
      assert Elements(r + [x]) == Elements(r) + {x};
      r := r + [x];
      left := left - {x};
    }
  }

  // ---- `Counter` ----

  function Count(s: seq<Id>, x: Id): nat {
    if s == [] then 0 else Count(s[..|s| - 1], x) + (if s[|s| - 1] == x then 1 else 0)
  }

  lemma CountSnoc(s: seq<Id>, y: Id, x: Id)
    ensures Count(s + [y], x) == Count(s, x) + (if y == x then 1 else 0)
  {
    assert (s + [y])[..|s|] == s;
  }

  lemma {:induction false} CountPositive(s: seq<Id>, x: Id)
    ensures Count(s, x) > 0 <==> x in s
  {
    if s != [] {
      CountPositive(s[..|s| - 1], x);
      assert s == s[..|s| - 1] + [s[|s| - 1]];
    }
  }

  lemma {:induction false} CountTwice(s: seq<Id>, i: nat, j: nat)
    requires i < j < |s| && s[i] == s[j]
    ensures Count(s, s[i]) > 1
  {
    var n := |s| - 1;
    if j == n {
      CountPositive(s[..n], s[i]);
      assert s[..n][i] == s[i];
    } else {
      CountTwice(s[..n], i, j);
    }
  }

  lemma {:induction false} CountOnce(s: seq<Id>, x: Id)
    requires Distinct(s)
    ensures Count(s, x) <= 1
  {
    if s != [] {
      var n := |s| - 1;
      CountOnce(s[..n], x);
      CountPositive(s[..n], x);
    }
  }
}
