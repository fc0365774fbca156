/** Python's `sum`, `min`, `max` and `sorted` on a list of floats, with
    floats modelled as reals. */
module RealSeq {
  import opened Ranking

  function Sum(xs: seq<real>): real {
    if xs == [] then 0.0 else Sum(xs[..|xs| - 1]) + xs[|xs| - 1]
  }

  predicate Within(xs: seq<real>, lo: real, hi: real) {
    forall i :: 0 <= i < |xs| ==> lo <= xs[i] <= hi
  }

  lemma {:induction false} SumBounds(xs: seq<real>, lo: real, hi: real)
    requires Within(xs, lo, hi)
    ensures |xs| as real * lo <= Sum(xs) <= |xs| as real * hi
  {
    if xs != [] {
      var init := xs[..|xs| - 1];
      var n := |init| as real;
      SumBounds(init, lo, hi);
      assert Sum(xs) == Sum(init) + xs[|xs| - 1];
      assert lo <= xs[|xs| - 1] <= hi;
      assert |xs| as real == n + 1.0;
      assert n * lo + lo == (n + 1.0) * lo;
      assert n * hi + hi == (n + 1.0) * hi;
    }
  }

  /** `sum(xs) / len(xs)`. */
  function Average(xs: seq<real>): real
    requires xs != []
  {
    Sum(xs) / |xs| as real
  }

  /** The average lies between any lower and upper bound of the values. */
  lemma AverageBounds(xs: seq<real>, lo: real, hi: real)
    requires xs != [] && Within(xs, lo, hi)
    ensures lo <= Average(xs) <= hi
  {
    SumBounds(xs, lo, hi);
    var n := |xs| as real;
    assert Sum(xs) / n >= lo by {
      assert Sum(xs) >= n * lo;
    }
    assert Sum(xs) / n <= hi by {
      assert Sum(xs) <= n * hi;
    }
  }

  /** `min(xs)`. */
  function MinOf(xs: seq<real>): (m: real)
    requires xs != []
    ensures m in xs && forall i :: 0 <= i < |xs| ==> m <= xs[i]
  {
    if |xs| == 1 then xs[0]
    else
      var m := MinOf(xs[1..]);
      assert forall i :: 1 <= i < |xs| ==> xs[i] == xs[1..][i - 1];
      if xs[0] <= m then xs[0] else m
  }

  /** `max(xs)`. */
  function MaxOf(xs: seq<real>): (m: real)
    requires xs != []
    ensures m in xs && forall i :: 0 <= i < |xs| ==> xs[i] <= m
  {
    if |xs| == 1 then xs[0]
    else
      var m := MaxOf(xs[1..]);
      assert forall i :: 1 <= i < |xs| ==> xs[i] == xs[1..][i - 1];
      if xs[0] >= m then xs[0] else m
  }

  predicate Ascending(xs: seq<real>) {
    forall i, j :: 0 <= i < j < |xs| ==> xs[i] <= xs[j]
  }

  /** `sorted(xs)`: a descending sort on the negated values. */
  function SortAsc(xs: seq<real>): (r: seq<real>)
    ensures |r| == |xs| && multiset(r) == multiset(xs)
    ensures Ascending(r)
  {
    var keyed := seq(|xs|, i requires 0 <= i < |xs| => (xs[i], -xs[i]));
    var sorted := SortDesc(keyed);
    assert FirstsOf(keyed) == xs;
    FirstsPerm(keyed, sorted);
    assert forall i :: 0 <= i < |sorted| ==> sorted[i].1 == -sorted[i].0 by {
      forall i | 0 <= i < |sorted| ensures sorted[i].1 == -sorted[i].0 {
        assert sorted[i] in multiset(keyed);
      }
    }
    FirstsOf(sorted)
  }

  /** The ends of the sorted list are the minimum and the maximum. */
  lemma SortedEnds(xs: seq<real>)
    requires xs != []
    ensures SortAsc(xs)[0] == MinOf(xs) && SortAsc(xs)[|xs| - 1] == MaxOf(xs)
  {
    var r := SortAsc(xs);
    var lo, hi := MinOf(xs), MaxOf(xs);
    assert lo in multiset(r) && hi in multiset(r);
    var i :| 0 <= i < |r| && r[i] == lo;
    var j :| 0 <= j < |r| && r[j] == hi;
    assert r[0] <= lo && hi <= r[|r| - 1];
    assert r[0] in multiset(xs) && r[|r| - 1] in multiset(xs);
    var a :| 0 <= a < |xs| && xs[a] == r[0];
    var b :| 0 <= b < |xs| && xs[b] == r[|r| - 1];
  }
}
