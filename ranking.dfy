/** `list.sort(key=lambda x: x[1], reverse=True)` on (value, score) pairs:
    Python's sort is stable, so equal scores keep their input order. */
module Ranking {
  import opened PyText

  predicate SortedDesc<T>(s: seq<(T, real)>) {
    forall i, j :: 0 <= i < j < |s| ==> s[i].1 >= s[j].1
  }

  /** Inserts `x` after every element whose score is at least its own. */
  function Insert<T>(x: (T, real), s: seq<(T, real)>): (r: seq<(T, real)>)
    ensures |r| == |s| + 1
    ensures multiset(r) == multiset(s) + multiset{x}
  {
    if s == [] then [x]
    else if s[0].1 >= x.1 then
      assert s == [s[0]] + s[1..];
      [s[0]] + Insert(x, s[1..])
    else
      [x] + s
  }

  /** Insertion adds only `x`. */
  lemma InsertMembers<T>(x: (T, real), s: seq<(T, real)>)
    ensures forall y :: y in Insert(x, s) ==> y in s || y == x
  {
    var r := Insert(x, s);
    forall y | y in r ensures y in s || y == x {
      assert y in multiset(r);
    }
  }

  /** A head at least as high as every later score keeps a list sorted. */
  lemma ConsSorted<T>(h: (T, real), tail: seq<(T, real)>)
    requires SortedDesc(tail) && forall y :: y in tail ==> h.1 >= y.1
    ensures SortedDesc([h] + tail)
  {
    var r := [h] + tail;
    forall i, j | 0 <= i < j < |r| ensures r[i].1 >= r[j].1 {
      assert r[j] == tail[j - 1] && tail[j - 1] in tail;
      if i > 0 {
        assert r[i] == tail[i - 1];
      }
    }
  }

  lemma {:induction false} InsertSorted<T>(x: (T, real), s: seq<(T, real)>)
    requires SortedDesc(s)
    ensures SortedDesc(Insert(x, s))
    ensures forall y :: y in Insert(x, s) ==> y in s || y == x
  {
    InsertMembers(x, s);
    if s == [] {
    } else if s[0].1 >= x.1 {
      InsertSorted(x, s[1..]);
      var tail := Insert(x, s[1..]);
      forall y | y in tail ensures s[0].1 >= y.1 {
        if y != x {
          var k :| 0 <= k < |s| - 1 && s[1..][k] == y;
          assert s[k + 1] == y;
        }
      }
      ConsSorted(s[0], tail);
    } else {
      forall y | y in s ensures x.1 >= y.1 {
        var k :| 0 <= k < |s| && s[k] == y;
      }
      ConsSorted(x, s);
    }
  }

  /** The stable descending sort, by inserting each element into the sorted prefix. */
  function SortDesc<T>(s: seq<(T, real)>): (r: seq<(T, real)>)
    ensures |r| == |s|
    ensures multiset(r) == multiset(s)
    ensures SortedDesc(r)
  {
    if s == [] then []
    else
      assert s == s[..|s| - 1] + [s[|s| - 1]];
      var prefix := SortDesc(s[..|s| - 1]);
      InsertSorted(s[|s| - 1], prefix);
      Insert(s[|s| - 1], prefix)
  }

  lemma SortedPrefix<T>(s: seq<(T, real)>, k: nat)
    requires SortedDesc(s) && k <= |s|
    ensures SortedDesc(s[..k])
  {
  }

  lemma InSorted<T>(s: seq<(T, real)>, x: (T, real))
    ensures x in SortDesc(s) <==> x in s
  {
    assert x in multiset(SortDesc(s)) <==> x in multiset(s);
  }

  /** The same stable descending sort on string keys, as `sorted(xs,
      key=..., reverse=True)` orders strings. */
  predicate SortedTextDesc<T>(s: seq<(T, string)>) {
    forall i, j :: 0 <= i < j < |s| ==> !TextLess(s[i].1, s[j].1)
  }

  function InsertText<T>(x: (T, string), s: seq<(T, string)>): (r: seq<(T, string)>)
    ensures |r| == |s| + 1
    ensures multiset(r) == multiset(s) + multiset{x}
  {
    if s == [] then [x]
    else if !TextLess(s[0].1, x.1) then
      assert s == [s[0]] + s[1..];
      [s[0]] + InsertText(x, s[1..])
    else
      [x] + s
  }

  /** Insertion adds only `x`. */
  lemma InsertTextMembers<T>(x: (T, string), s: seq<(T, string)>)
    ensures forall y :: y in InsertText(x, s) ==> y in s || y == x
  {
    var r := InsertText(x, s);
    forall y | y in r ensures y in s || y == x {
      assert y in multiset(r);
    }
  }

  /** A head not below any later key keeps a list sorted. */
  lemma ConsTextSorted<T>(h: (T, string), tail: seq<(T, string)>)
    requires SortedTextDesc(tail) && forall y :: y in tail ==> !TextLess(h.1, y.1)
    ensures SortedTextDesc([h] + tail)
  {
    var r := [h] + tail;
    forall i, j | 0 <= i < j < |r| ensures !TextLess(r[i].1, r[j].1) {
      assert r[j] == tail[j - 1] && tail[j - 1] in tail;
      if i > 0 {
        assert r[i] == tail[i - 1];
      }
    }
  }

  lemma {:induction false} InsertTextSorted<T>(x: (T, string), s: seq<(T, string)>)
    requires SortedTextDesc(s)
    ensures SortedTextDesc(InsertText(x, s))
    ensures forall y :: y in InsertText(x, s) ==> y in s || y == x
  {
    InsertTextMembers(x, s);
    if s == [] {
    } else if !TextLess(s[0].1, x.1) {
      InsertTextSorted(x, s[1..]);
      var tail := InsertText(x, s[1..]);
      forall y | y in tail ensures !TextLess(s[0].1, y.1) {
        if y != x {
          var k :| 0 <= k < |s| - 1 && s[1..][k] == y;
          assert s[k + 1] == y;
        }
      }
      ConsTextSorted(s[0], tail);
    } else {
      forall y | y in s ensures !TextLess(x.1, y.1) {
        var k :| 0 <= k < |s| && s[k] == y;
        TextLessOrder(s[0].1, x.1, y.1);
      }
      ConsTextSorted(x, s);
    }
  }

  function SortTextDesc<T>(s: seq<(T, string)>): (r: seq<(T, string)>)
    ensures |r| == |s|
    ensures multiset(r) == multiset(s)
    ensures SortedTextDesc(r)
  {
    if s == [] then []
    else
      assert s == s[..|s| - 1] + [s[|s| - 1]];
      var prefix := SortTextDesc(s[..|s| - 1]);
      InsertTextSorted(s[|s| - 1], prefix);
      InsertText(s[|s| - 1], prefix)
  }

  lemma InSortedText<T>(s: seq<(T, string)>)
    ensures forall i :: 0 <= i < |s| ==> s[i] in SortTextDesc(s)
    ensures forall i :: 0 <= i < |s| ==> SortTextDesc(s)[i] in s
  {
    var r := SortTextDesc(s);
    forall i | 0 <= i < |s| ensures s[i] in r && r[i] in s {
      assert s[i] in multiset(r);
      assert r[i] in multiset(s);
    }
  }

  /** The values of (value, key) pairs, in order. */
  function FirstsOf<T, K>(s: seq<(T, K)>): seq<T> {
    seq(|s|, i requires 0 <= i < |s| => s[i].0)
  }

  lemma {:induction false} FirstsPerm<T, K>(a: seq<(T, K)>, b: seq<(T, K)>)
    requires multiset(a) == multiset(b)
    ensures multiset(FirstsOf(a)) == multiset(FirstsOf(b))
    decreases |a|
  {
    if a != [] {
      var x := a[0];
      assert x in multiset(b);
      var j :| 0 <= j < |b| && b[j] == x;
      var b' := b[..j] + b[j + 1..];
      RemoveAt(b, j);
      assert a == [x] + a[1..];
      assert multiset(a[1..]) == multiset(b');
      FirstsPerm(a[1..], b');
      assert FirstsOf(a) == [x.0] + FirstsOf(a[1..]);
      FirstsRemoveAt(b, j);
    }
  }

  lemma AppendAssociative<T>(a: seq<T>, b: seq<T>, c: seq<T>)
    ensures a + b + c == a + (b + c)
  {
  }

  lemma RemoveAt<T>(b: seq<T>, j: int)
    requires 0 <= j < |b|
    ensures multiset(b[..j] + b[j + 1..]) == multiset(b) - multiset{b[j]}
  {
    assert b == b[..j] + [b[j]] + b[j + 1..];
  }

  lemma FirstsRemoveAt<T, K>(b: seq<(T, K)>, j: int)
    requires 0 <= j < |b|
    ensures multiset(FirstsOf(b)) == multiset(FirstsOf(b[..j] + b[j + 1..])) + multiset{b[j].0}
  {
    var f := FirstsOf(b);
    assert f == f[..j] + [b[j].0] + f[j + 1..];
    assert FirstsOf(b[..j] + b[j + 1..]) == f[..j] + f[j + 1..];
  }
}
