/** The stable sort behind `Array.prototype.sort(compare)`. ECMAScript 2019
    requires that sort to be stable; for a consistent comparator every stable
    sort produces the same output, so insertion sort is a faithful model. */
module Sorting {
  import opened Seqs

  function Sign(n: int): int {
    if n < 0 then -1 else if n > 0 then 1 else 0
  }

  /** A comparator in the sense of ECMAScript's "consistent comparator": the
      sign flips when the arguments swap, and "not greater" is transitive. */
  ghost predicate Consistent<T(!new)>(cmp: (T, T) -> int) {
    && (forall a, b :: Sign(cmp(a, b)) == -Sign(cmp(b, a)))
    && (forall a, b, c :: cmp(a, b) <= 0 && cmp(b, c) <= 0 ==> cmp(a, c) <= 0)
  }

  /** Non-decreasing with respect to `cmp`. */
  ghost predicate Sorted<T>(s: seq<T>, cmp: (T, T) -> int) {
    forall i, j :: 0 <= i < j < |s| ==> cmp(s[i], s[j]) <= 0
  }

  /** Places `x` before the first element it does not exceed, so that `x`
      stays ahead of every element it ties with. */
  function Insert<T>(x: T, s: seq<T>, cmp: (T, T) -> int): (r: seq<T>)
    ensures multiset(r) == multiset{x} + multiset(s)
    ensures |r| == |s| + 1
  {
    if |s| == 0 || cmp(x, s[0]) <= 0 then [x] + s
    else
      assert s == [s[0]] + s[1..];
      [s[0]] + Insert(x, s[1..], cmp)
  }

  function SortBy<T>(xs: seq<T>, cmp: (T, T) -> int): (r: seq<T>)
    ensures multiset(r) == multiset(xs)
    ensures |r| == |xs|
  {
    if |xs| == 0 then []
    else
      assert xs == [xs[0]] + xs[1..];
      Insert(xs[0], SortBy(xs[1..], cmp), cmp)
  }

  lemma SortedCons<T>(h: T, t: seq<T>, cmp: (T, T) -> int)
    requires Sorted(t, cmp)
    requires forall y :: y in t ==> cmp(h, y) <= 0
    ensures Sorted([h] + t, cmp)
  {
    forall i, j | 0 <= i < j < |t| + 1 ensures cmp(([h] + t)[i], ([h] + t)[j]) <= 0 {
      if i == 0 {
        assert ([h] + t)[j] == t[j - 1];
      } else {
        assert ([h] + t)[i] == t[i - 1] && ([h] + t)[j] == t[j - 1];
      }
    }
  }

  lemma {:induction false} InsertSorted<T(!new)>(x: T, s: seq<T>, cmp: (T, T) -> int)
    requires Consistent(cmp)
    requires Sorted(s, cmp)
    ensures Sorted(Insert(x, s, cmp), cmp)
  {
    if |s| == 0 {
    } else if cmp(x, s[0]) <= 0 {
      forall y | y in s ensures cmp(x, y) <= 0 {
        var j :| 0 <= j < |s| && s[j] == y;
        if j > 0 { assert cmp(s[0], s[j]) <= 0; }
      }
      SortedCons(x, s, cmp);
    } else {
      assert Sign(cmp(s[0], x)) == -Sign(cmp(x, s[0]));
      InsertSorted(x, s[1..], cmp);
      var t := Insert(x, s[1..], cmp);
      forall y | y in t ensures cmp(s[0], y) <= 0 {
        assert y in multiset{x} + multiset(s[1..]);
        if y != x {
          var j :| 0 <= j < |s[1..]| && s[1..][j] == y;
          assert s[j + 1] == y;
        }
      }
      SortedCons(s[0], t, cmp);
    }
  }

  /** The output of the sort is ordered. */
  lemma {:induction false} SortBySorted<T(!new)>(xs: seq<T>, cmp: (T, T) -> int)
    requires Consistent(cmp)
    ensures Sorted(SortBy(xs, cmp), cmp)
  {
    if |xs| > 0 {
      SortBySorted(xs[1..], cmp);
      InsertSorted(xs[0], SortBy(xs[1..], cmp), cmp);
    }
  }

  /** The elements that tie with `k`. */
  function TiesWith<T>(cmp: (T, T) -> int, k: T): T -> bool {
    y => cmp(k, y) == 0
  }

  lemma {:induction false} InsertStable<T(!new)>(x: T, s: seq<T>, cmp: (T, T) -> int, k: T)
    requires Consistent(cmp)
    ensures Filter(Insert(x, s, cmp), TiesWith(cmp, k))
         == (if cmp(k, x) == 0 then [x] else []) + Filter(s, TiesWith(cmp, k))
  {
    var p := TiesWith(cmp, k);
    if |s| == 0 || cmp(x, s[0]) <= 0 {
      assert ([x] + s)[1..] == s;
    } else {
      InsertStable(x, s[1..], cmp, k);
      assert ([s[0]] + Insert(x, s[1..], cmp))[1..] == Insert(x, s[1..], cmp);
    }
  }

  /** Stability: the elements that tie with any `k` come out in input order. */
  lemma {:induction false} SortByStable<T(!new)>(xs: seq<T>, cmp: (T, T) -> int, k: T)
    requires Consistent(cmp)
    ensures Filter(SortBy(xs, cmp), TiesWith(cmp, k)) == Filter(xs, TiesWith(cmp, k))
  {
    if |xs| > 0 {
      SortByStable(xs[1..], cmp, k);
      InsertStable(xs[0], SortBy(xs[1..], cmp), cmp, k);
    }
  }

  /** The descending comparator `(a, b) => -cmp(a, b)`. */
  function Negate<T>(cmp: (T, T) -> int): (T, T) -> int {
    (a, b) => -cmp(a, b)
  }

  /** Negating a consistent comparator gives a consistent comparator with the
      same ties, so a descending sort is stable in the same way. */
  lemma NegateConsistent<T(!new)>(cmp: (T, T) -> int)
    requires Consistent(cmp)
    ensures Consistent(Negate(cmp))
    ensures forall a, b :: Negate(cmp)(a, b) == 0 <==> cmp(a, b) == 0
  {
    var n := Negate(cmp);
    forall a, b, c | n(a, b) <= 0 && n(b, c) <= 0 ensures n(a, c) <= 0 {
      assert Sign(cmp(a, b)) == -Sign(cmp(b, a));
      assert Sign(cmp(b, c)) == -Sign(cmp(c, b));
      assert Sign(cmp(a, c)) == -Sign(cmp(c, a));
    }
  }
}
