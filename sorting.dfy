/** Sorting under a total preorder: the `ORDER BY` of the booking queries
    and the `.sort()` of the client. Insertion sort is used as the
    reference; it is stable, which the database does not promise for ties. */
module Sorting {
  import opened StrOrder

  ghost predicate TotalPreorder<T(!new)>(leq: (T, T) -> bool) {
    && (forall a, b :: leq(a, b) || leq(b, a))
    && (forall a, b, c :: leq(a, b) && leq(b, c) ==> leq(a, c))
  }

  predicate SortedBy<T>(s: seq<T>, leq: (T, T) -> bool) {
    forall i, j :: 0 <= i < j < |s| ==> leq(s[i], s[j])
  }

  /** An element below every element of a sorted sequence can go in front. */
  lemma SortedCons<T>(x: T, s: seq<T>, leq: (T, T) -> bool)
    requires SortedBy(s, leq)
    requires forall y :: y in s ==> leq(x, y)
    ensures SortedBy([x] + s, leq)
  {
    var r := [x] + s;
    forall i, j | 0 <= i < j < |r| ensures leq(r[i], r[j]) {
      assert r[j] == s[j - 1];
      if i > 0 {
        assert r[i] == s[i - 1];
      }
    }
  }

  /** Inserts `x` before the first element it does not exceed. */
  function Insert<T(!new)>(x: T, s: seq<T>, leq: (T, T) -> bool): (r: seq<T>)
    requires TotalPreorder(leq)
    requires SortedBy(s, leq)
    ensures SortedBy(r, leq)
    ensures multiset(r) == multiset(s) + multiset{x}
  {
    if s == [] then [x]
    else if leq(x, s[0]) then
      assert forall y :: y in s ==> leq(x, y) by {
        forall y | y in s ensures leq(x, y) {
          var j :| 0 <= j < |s| && s[j] == y;
          if j > 0 { assert leq(s[0], s[j]); }
        }
      }
      SortedCons(x, s, leq);
      [x] + s
    else
      assert s == [s[0]] + s[1..];
      var rest := Insert(x, s[1..], leq);
      assert forall y :: y in rest ==> leq(s[0], y) by {
        forall y | y in rest ensures leq(s[0], y) {
          assert y in multiset(rest);
          if y != x {
            var j :| 0 <= j < |s[1..]| && s[1..][j] == y;
            assert s[j + 1] == y;
          }
        }
      }
      SortedCons(s[0], rest, leq);
      [s[0]] + rest
  }

  /** Sorts `s`: the result is ordered by `leq` and is a permutation of `s`. */
  function Sort<T(!new)>(s: seq<T>, leq: (T, T) -> bool): (r: seq<T>)
    requires TotalPreorder(leq)
    ensures SortedBy(r, leq)
    ensures multiset(r) == multiset(s)
    ensures |r| == |s|
  {
    if s == [] then []
    else
      assert s == [s[0]] + s[1..];
      var r := Insert(s[0], Sort(s[1..], leq), leq);
      assert |r| == |multiset(r)|;
      r
  }

  /** The first element of a sorted permutation of `s` is a least element of `s`. */
  lemma SortedFirst<T(!new)>(s: seq<T>, sorted: seq<T>, leq: (T, T) -> bool)
    requires TotalPreorder(leq) && SortedBy(sorted, leq)
    requires multiset(sorted) == multiset(s) && sorted != []
    ensures sorted[0] in s && forall d :: d in s ==> leq(sorted[0], d)
  {
    assert sorted[0] in multiset(s);
    forall d | d in s ensures leq(sorted[0], d) {
      assert d in multiset(sorted);
      var k :| 0 <= k < |sorted| && sorted[k] == d;
      if k == 0 {
        assert leq(d, d) || leq(d, d);
      }
    }
  }

  /** The last element of a sorted permutation of `s` is a greatest element of `s`. */
  lemma SortedLast<T(!new)>(s: seq<T>, sorted: seq<T>, leq: (T, T) -> bool)
    requires TotalPreorder(leq) && SortedBy(sorted, leq)
    requires multiset(sorted) == multiset(s) && sorted != []
    ensures sorted[|sorted| - 1] in s && forall d :: d in s ==> leq(d, sorted[|sorted| - 1])
  {
    var last := |sorted| - 1;
    assert sorted[last] in multiset(s);
    forall d | d in s ensures leq(d, sorted[last]) {
      assert d in multiset(sorted);
      var k :| 0 <= k < |sorted| && sorted[k] == d;
      if k == last {
        assert leq(d, d) || leq(d, d);
      }
    }
  }

  /** The default `.sort()` of an array of strings. */
  function StringOrder(): (string, string) -> bool {
    (a, b) => LessEq(a, b)
  }

  lemma StringOrderTotal()
    ensures TotalPreorder(StringOrder())
  {
    LessEqTotalOrder();
  }

  /** `strings.sort()`. */
  function SortStrings(s: seq<string>): (r: seq<string>)
    ensures SortedBy(r, StringOrder())
    ensures multiset(r) == multiset(s)
    ensures |r| == |s|
  {
    StringOrderTotal();
    Sort(s, StringOrder())
  }
}
