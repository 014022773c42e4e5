/** The interpolated percentile of a benchmark metric, over the reals. */
module Percentile {
  import opened Options

  ghost predicate Ascending(s: seq<real>) {
    forall i, j :: 0 <= i < j < |s| ==> s[i] <= s[j]
  }

  function Insert(x: real, s: seq<real>): seq<real> {
    if s == [] || x <= s[0] then [x] + s else [s[0]] + Insert(x, s[1..])
  }

  /** `sorted(values)` */
  function SortReals(values: seq<real>): seq<real> {
    if values == [] then [] else Insert(values[0], SortReals(values[1..]))
  }

  lemma {:induction false} InsertKeepsAll(x: real, s: seq<real>)
    ensures multiset(Insert(x, s)) == multiset(s) + multiset{x}
  {
    if s != [] && x > s[0] {
      InsertKeepsAll(x, s[1..]);
      assert s == [s[0]] + s[1..];
    }
  }

  lemma {:induction false} InsertSorted(x: real, s: seq<real>)
    requires Ascending(s)
    ensures Ascending(Insert(x, s))
    ensures forall k :: 0 <= k < |Insert(x, s)| ==> Insert(x, s)[k] == x || Insert(x, s)[k] in s
  {
    if s != [] && x > s[0] {
      InsertSorted(x, s[1..]);
    }
  }

  lemma {:induction false} SortRealsSorts(values: seq<real>)
    ensures Ascending(SortReals(values)) && multiset(SortReals(values)) == multiset(values)
  {
    if values != [] {
      SortRealsSorts(values[1..]);
      InsertSorted(values[0], SortReals(values[1..]));
      InsertKeepsAll(values[0], SortReals(values[1..]));
      assert values == [values[0]] + values[1..];
    }
  }

  lemma SameLength(values: seq<real>)
    ensures |SortReals(values)| == |values|
  {
    SortRealsSorts(values);
    assert |multiset(SortReals(values))| == |multiset(values)|;
  }

  // ---- interpolation ----

  function Interpolate(a: real, b: real, f: real): real {
    a + (b - a) * f
  }

  lemma ProductOfNonNegatives(x: real, y: real)
    requires 0.0 <= x && 0.0 <= y
    ensures 0.0 <= x * y
  {}

  lemma InterpolateMonotone(a: real, b: real, f: real, g: real)
    requires a <= b && f <= g
    ensures Interpolate(a, b, f) <= Interpolate(a, b, g)
  {
    ProductOfNonNegatives(b - a, g - f);
    assert (b - a) * g == (b - a) * f + (b - a) * (g - f);
  }

  lemma InterpolateEnds(a: real, b: real)
    ensures Interpolate(a, b, 0.0) == a && Interpolate(a, b, 1.0) == b
  {}

  /** Linear interpolation in a list at a position from 0 to its last index. */
  function At(s: seq<real>, position: real): real
    requires s != [] && 0.0 <= position <= (|s| - 1) as real
  {
    var lower := position.Floor;
    var upper := if lower + 1 <= |s| - 1 then lower + 1 else |s| - 1;
    Interpolate(s[lower], s[upper], position - lower as real)
  }

  /** Interpolation stays between the two neighbors. */
  lemma AtBetween(s: seq<real>, position: real)
    requires Ascending(s) && s != [] && 0.0 <= position <= (|s| - 1) as real
    ensures s[position.Floor] <= At(s, position)
    ensures position.Floor + 1 < |s| ==> At(s, position) <= s[position.Floor + 1]
    ensures position == position.Floor as real ==> At(s, position) == s[position.Floor]
  {
    var lower := position.Floor;
    var upper := if lower + 1 <= |s| - 1 then lower + 1 else |s| - 1;
    var f := position - lower as real;
    InterpolateEnds(s[lower], s[upper]);
    InterpolateMonotone(s[lower], s[upper], 0.0, f);
    InterpolateMonotone(s[lower], s[upper], f, 1.0);
  }

  /** A larger position never gives a smaller value. */
  lemma AtMonotone(s: seq<real>, x: real, y: real)
    requires Ascending(s) && s != [] && 0.0 <= x <= y <= (|s| - 1) as real
    ensures At(s, x) <= At(s, y)
  {
    if x.Floor == y.Floor {
      var lower := x.Floor;
      var upper := if lower + 1 <= |s| - 1 then lower + 1 else |s| - 1;
      InterpolateMonotone(s[lower], s[upper], x - lower as real, y - lower as real);
    } else {
      AtBetween(s, x);
      AtBetween(s, y);
      assert x.Floor + 1 <= y.Floor;
    }
  }

  // ---- the percentile ----

  /** `(n - 1) * percentile` for a list of n values. */
  function Position(last: nat, percentile: real): (r: real)
    requires 0.0 <= percentile <= 1.0
    ensures 0.0 <= r <= last as real
  {
    ProductOfNonNegatives(last as real, percentile);
    ProductOfNonNegatives(last as real, 1.0 - percentile);
    assert last as real * (1.0 - percentile) == last as real - last as real * percentile;
    last as real * percentile
  }

  lemma PositionMonotone(last: nat, p: real, q: real)
    requires 0.0 <= p <= q <= 1.0
    ensures Position(last, p) <= Position(last, q)
  {
    ProductOfNonNegatives(last as real, q - p);
    assert last as real * q == last as real * p + last as real * (q - p);
  }

  function OfSorted(ordered: seq<real>, percentile: real): real
    requires ordered != [] && 0.0 <= percentile <= 1.0
  {
    if |ordered| == 1 then ordered[0] else At(ordered, Position(|ordered| - 1, percentile))
  }

  /** `_percentile`, for a percentile between 0 and 1. */
  function PercentileOf(values: seq<real>, percentile: real): (r: Option<real>)
    requires 0.0 <= percentile <= 1.0
    ensures r.None? <==> values == []
  {
    SameLength(values);
    if values == [] then None else Some(OfSorted(SortReals(values), percentile))
  }

  lemma OfSortedMonotone(s: seq<real>, p: real, q: real)
    requires Ascending(s) && s != [] && 0.0 <= p <= q <= 1.0
    ensures OfSorted(s, p) <= OfSorted(s, q)
  {
    PositionMonotone(|s| - 1, p, q);
    if |s| > 1 { AtMonotone(s, Position(|s| - 1, p), Position(|s| - 1, q)); }
  }

  lemma OfSortedEnds(s: seq<real>)
    requires Ascending(s) && s != []
    ensures OfSorted(s, 0.0) == s[0] && OfSorted(s, 1.0) == s[|s| - 1]
  {
    var n := |s| - 1;
    if n > 0 {
      assert Position(n, 0.0) == 0.0 && Position(n, 1.0) == n as real;
      AtBetween(s, 0.0);
      AtBetween(s, n as real);
    }
  }

  lemma PositionIsProduct(last: nat, p: real)
    requires 0.0 <= p <= 1.0
    ensures Position(last, p) == last as real * p
  {}

  lemma PercentileAtPosition(values: seq<real>, p: real, k: nat)
    requires values != [] && 0.0 <= p <= 1.0 && Position(|values| - 1, p) == k as real
    ensures k < |values| == |SortReals(values)| && PercentileOf(values, p) == Some(SortReals(values)[k])
  {
    SortRealsSorts(values);
    SameLength(values);
    if |values| > 1 { AtBetween(SortReals(values), k as real); }
  }

  /** Of `last + 1` values, a percentile that falls on a rank gives the value of that rank. */
  lemma PercentileAtRank(values: seq<real>, last: nat, p: real, k: nat)
    requires |values| == last + 1 && 0.0 <= p <= 1.0 && last as real * p == k as real
    ensures k < |values| == |SortReals(values)| && PercentileOf(values, p) == Some(SortReals(values)[k])
  {
    PositionIsProduct(last, p);
    PercentileAtPosition(values, p, k);
  }

  lemma PercentileInside(values: seq<real>, p: real, k: nat, f: real)
    requires k + 1 < |values| && 0.0 <= p <= 1.0 && 0.0 <= f < 1.0
    requires Position(|values| - 1, p) == k as real + f
    ensures |SortReals(values)| == |values|
    ensures PercentileOf(values, p) == Some(Weighted(SortReals(values)[k], SortReals(values)[k + 1], f))
  {
    SameLength(values);
    AtFraction(SortReals(values), k, f);
    InterpolateIsWeighted(SortReals(values)[k], SortReals(values)[k + 1], f);
  }

  /** Between two ranks the percentile is their average, weighted by the distance to each. */
  lemma PercentileBetweenRanks(values: seq<real>, last: nat, p: real, k: nat, f: real)
    requires |values| == last + 1 && k < last && 0.0 <= p <= 1.0 && 0.0 <= f < 1.0
    requires last as real * p == k as real + f
    ensures |SortReals(values)| == |values|
    ensures PercentileOf(values, p) == Some(Weighted(SortReals(values)[k], SortReals(values)[k + 1], f))
  {
    PositionIsProduct(last, p);
    PercentileInside(values, p, k, f);
  }

  lemma AtFraction(s: seq<real>, k: nat, f: real)
    requires k + 1 < |s| && 0.0 <= f < 1.0
    ensures k as real + f <= (|s| - 1) as real && At(s, k as real + f) == Interpolate(s[k], s[k + 1], f)
  {
    assert (k as real + f).Floor == k;
  }

  ghost function Weighted(a: real, b: real, f: real): real {
    (1.0 - f) * a + f * b
  }

  lemma InterpolateIsWeighted(a: real, b: real, f: real)
    ensures Interpolate(a, b, f) == Weighted(a, b, f)
  {}

  /** A higher percentile never gives a smaller value. */
  lemma PercentileIsMonotone(values: seq<real>, p: real, q: real)
    requires values != [] && 0.0 <= p <= q <= 1.0
    ensures PercentileOf(values, p).value <= PercentileOf(values, q).value
  {
    SortRealsSorts(values);
    SameLength(values);
    OfSortedMonotone(SortReals(values), p, q);
  }

  /** 0 gives the least of the values and 1 the greatest. */
  lemma PercentileEnds(values: seq<real>, v: real)
    requires v in values
    ensures PercentileOf(values, 0.0).value <= v <= PercentileOf(values, 1.0).value
    ensures PercentileOf(values, 0.0).value in values && PercentileOf(values, 1.0).value in values
  {
    SortRealsSorts(values);
    SameLength(values);
    var s := SortReals(values);
    OfSortedEnds(s);
    assert v in multiset(s) && s[0] in multiset(values) && s[|s| - 1] in multiset(values);
    var i :| 0 <= i < |s| && s[i] == v;
  }

  // ---- the order of the samples does not matter ----

  lemma SameFirst(a: seq<real>, b: seq<real>)
    requires Ascending(a) && Ascending(b) && multiset(a) == multiset(b) && a != [] && b != []
    ensures a[0] == b[0]
  {
    assert a[0] in multiset(b) && b[0] in multiset(a);
    var i :| 0 <= i < |b| && b[i] == a[0];
    var j :| 0 <= j < |a| && a[j] == b[0];
  }

  lemma DropFirst(a: seq<real>)
    requires a != []
    ensures multiset(a[1..]) == multiset(a) - multiset{a[0]}
  {
    assert a == [a[0]] + a[1..];
  }

  lemma {:induction false} AscendingUnique(a: seq<real>, b: seq<real>)
    requires Ascending(a) && Ascending(b) && multiset(a) == multiset(b)
    ensures a == b
  {
    if a == [] {
      assert |multiset(b)| == 0;
    } else {
      assert a[0] in multiset(b);
      SameFirst(a, b);
      DropFirst(a);
      DropFirst(b);
      AscendingUnique(a[1..], b[1..]);
      assert a == [a[0]] + a[1..] && b == [b[0]] + b[1..];
    }
  }

  lemma PercentileIgnoresOrder(a: seq<real>, b: seq<real>, p: real)
    requires multiset(a) == multiset(b) && 0.0 <= p <= 1.0
    ensures PercentileOf(a, p) == PercentileOf(b, p)
  {
    SortRealsSorts(a);
    SortRealsSorts(b);
    AscendingUnique(SortReals(a), SortReals(b));
    SameLength(a);
    SameLength(b);
  }
}
