/** Generic sequence vocabulary shared by the model: `Array.prototype.filter`,
    subsequences, keep-first-by-key (the `seen`-set idiom) and flattening. */
module Seqs {
  import opened Wrappers

  /** `xs.filter(p)`: the elements satisfying `p`, in order. */
  function Filter<T(!new)>(xs: seq<T>, p: T -> bool): (r: seq<T>)
    ensures |r| <= |xs|
    ensures forall x :: x in r <==> x in xs && p(x)
  {
    if |xs| == 0 then []
    else if p(xs[0]) then [xs[0]] + Filter(xs[1..], p)
    else Filter(xs[1..], p)
  }

  /** `a` can be obtained from `b` by deleting elements. */
  predicate Subseq<T(==)>(a: seq<T>, b: seq<T>)
    decreases |b|
  {
    if |a| == 0 then true
    else if |b| == 0 then false
    else if a[0] == b[0] then Subseq(a[1..], b[1..])
    else Subseq(a, b[1..])
  }

  /** Filtering keeps every copy of an element that satisfies `p` and none
      of one that does not. */
  lemma {:induction false} FilterMultiplicity<T(!new)>(xs: seq<T>, p: T -> bool, x: T)
    ensures multiset(Filter(xs, p))[x] == if p(x) then multiset(xs)[x] else 0
  {
    if |xs| > 0 {
      FilterMultiplicity(xs[1..], p, x);
      assert xs == [xs[0]] + xs[1..];
      assert multiset(xs) == multiset([xs[0]]) + multiset(xs[1..]);
      if p(xs[0]) {
        assert multiset(Filter(xs, p)) == multiset([xs[0]]) + multiset(Filter(xs[1..], p));
      }
    }
  }

  lemma {:induction false} FilterIsSubseq<T(!new)>(xs: seq<T>, p: T -> bool)
    ensures Subseq(Filter(xs, p), xs)
  {
    if |xs| > 0 {
      FilterIsSubseq(xs[1..], p);
      if !p(xs[0]) {
        SubseqSkip(Filter(xs[1..], p), xs[0], xs[1..]);
      }
    }
  }

  lemma {:induction false} SubseqSkip<T>(a: seq<T>, x: T, b: seq<T>)
    requires Subseq(a, b)
    ensures Subseq(a, [x] + b)
    decreases |b|, 1
  {
    if |a| > 0 && a[0] == x {
      assert ([x] + b)[1..] == b;
      SubseqTail(a, b);
    } else {
      assert ([x] + b)[1..] == b;
    }
  }

  lemma {:induction false} SubseqTail<T>(a: seq<T>, b: seq<T>)
    requires |a| > 0 && Subseq(a, b)
    ensures Subseq(a[1..], b)
    decreases |b|, 0
  {
    if a[0] == b[0] {
      SubseqSkip(a[1..], b[0], b[1..]);
      assert [b[0]] + b[1..] == b;
    } else {
      SubseqTail(a, b[1..]);
      SubseqSkip(a[1..], b[0], b[1..]);
      assert [b[0]] + b[1..] == b;
    }
  }

  lemma {:induction false} SubseqRefl<T>(a: seq<T>)
    ensures Subseq(a, a)
  {
    if |a| > 0 { SubseqRefl(a[1..]); }
  }

  /** Filtering with a predicate every element satisfies changes nothing. */
  lemma {:induction false} FilterAll<T(!new)>(xs: seq<T>, p: T -> bool)
    requires forall x :: x in xs ==> p(x)
    ensures Filter(xs, p) == xs
  {
    if |xs| > 0 {
      assert forall x :: x in xs[1..] ==> x in xs;
      FilterAll(xs[1..], p);
    }
  }

  /** Filtering with a predicate no element satisfies yields nothing. */
  lemma {:induction false} FilterNone<T(!new)>(xs: seq<T>, p: T -> bool)
    requires forall x :: x in xs ==> !p(x)
    ensures Filter(xs, p) == []
  {
    if |xs| > 0 {
      assert forall x :: x in xs[1..] ==> x in xs;
      FilterNone(xs[1..], p);
    }
  }

  lemma {:induction false} FilterAppend<T(!new)>(a: seq<T>, b: seq<T>, p: T -> bool)
    ensures Filter(a + b, p) == Filter(a, p) + Filter(b, p)
  {
    if |a| == 0 {
      assert a + b == b;
    } else {
      assert (a + b)[1..] == a[1..] + b;
      FilterAppend(a[1..], b, p);
    }
  }

  /** Two filters with disjoint predicates together hold the elements of their union. */
  lemma {:induction false} FilterDisjointUnion<T(!new)>(xs: seq<T>, p: T -> bool, q: T -> bool, pq: T -> bool)
    requires forall x :: x in xs ==> !(p(x) && q(x))
    requires forall x :: x in xs ==> (pq(x) <==> p(x) || q(x))
    ensures multiset(Filter(xs, p)) + multiset(Filter(xs, q)) == multiset(Filter(xs, pq))
  {
    if |xs| > 0 {
      assert forall x :: x in xs[1..] ==> x in xs;
      FilterDisjointUnion(xs[1..], p, q, pq);
    }
  }

  /** The number of elements satisfying `p`. */
  function Count<T(!new)>(xs: seq<T>, p: T -> bool): (n: nat)
    ensures n == |Filter(xs, p)|
  {
    if |xs| == 0 then 0
    else (if p(xs[0]) then 1 else 0) + Count(xs[1..], p)
  }

  /** The set of keys of the elements. */
  function Keys<T(!new), K(==,!new)>(xs: seq<T>, key: T -> K): (ks: set<K>)
    ensures forall x :: x in xs ==> key(x) in ks
  {
    set i | 0 <= i < |xs| :: key(xs[i])
  }

  lemma KeysCons<T(!new), K(!new)>(xs: seq<T>, key: T -> K)
    requires |xs| > 0
    ensures Keys(xs, key) == {key(xs[0])} + Keys(xs[1..], key)
  {
    forall k | k in Keys(xs, key) ensures k in {key(xs[0])} + Keys(xs[1..], key) {
      var i :| 0 <= i < |xs| && key(xs[i]) == k;
      if i > 0 {
        assert xs[1..][i - 1] == xs[i];
      }
    }
  }

  /** No two elements share a key. */
  predicate DistinctKeys<T, K(==)>(xs: seq<T>, key: T -> K) {
    forall i, j :: 0 <= i < j < |xs| ==> key(xs[i]) != key(xs[j])
  }

  /** The `seen`-set filter: keeps an element only when its key has not been
      seen before, then marks the key seen. */
  function KeepFirst<T(!new), K(==,!new)>(xs: seq<T>, key: T -> K, seen: set<K>): (r: seq<T>)
    ensures Subseq(r, xs)
    ensures DistinctKeys(r, key)
    ensures forall x :: x in r ==> key(x) !in seen
    ensures Keys(r, key) == Keys(xs, key) - seen
  {
    if |xs| == 0 then []
    else if key(xs[0]) in seen then
      var r := KeepFirst(xs[1..], key, seen);
      KeysCons(xs, key);
      SubseqSkip(r, xs[0], xs[1..]);
      assert [xs[0]] + xs[1..] == xs;
      r
    else
      var t := KeepFirst(xs[1..], key, seen + {key(xs[0])});
      KeysCons(xs, key);
      KeysCons([xs[0]] + t, key);
      assert Subseq([xs[0]] + t, xs) by {
        assert ([xs[0]] + t)[1..] == t;
      }
      assert ([xs[0]] + t)[1..] == t;
      [xs[0]] + t
  }

  /** The first element with key `k`, if any. */
  function FirstWith<T(!new), K(==,!new)>(xs: seq<T>, key: T -> K, k: K): (r: Option<T>)
    ensures r.Some? <==> k in Keys(xs, key)
    ensures r.Some? ==> r.value in xs && key(r.value) == k
  {
    if |xs| == 0 then None
    else if key(xs[0]) == k then Some(xs[0])
    else FirstWith(xs[1..], key, k)
  }

  /** The position of the first element with key `k`, or `|xs|` when there is none. */
  function FirstIndex<T, K(==)>(xs: seq<T>, key: T -> K, k: K): (i: nat)
    ensures i <= |xs|
    ensures i < |xs| ==> key(xs[i]) == k
    ensures forall j :: 0 <= j < i ==> key(xs[j]) != k
  {
    if |xs| == 0 then 0
    else if key(xs[0]) == k then 0
    else 1 + FirstIndex(xs[1..], key, k)
  }

  /** The elements of `r` appear in the order their keys first appear in `xs`. */
  predicate InFirstOrder<T, K(==)>(r: seq<T>, xs: seq<T>, key: T -> K)
  {
    forall i, j :: 0 <= i < j < |r| ==> FirstIndex(xs, key, key(r[i])) < FirstIndex(xs, key, key(r[j]))
  }

  /** `KeepFirst` lists the kept elements in the order their keys first
      appear in the input. */
  lemma {:induction false} KeepFirstInOrder<T(!new), K(!new)>(xs: seq<T>, key: T -> K, seen: set<K>)
    ensures InFirstOrder(KeepFirst(xs, key, seen), xs, key)
  {
    if |xs| > 0 {
      var r := KeepFirst(xs, key, seen);
      var k0 := key(xs[0]);
      if k0 in seen {
        assert r == KeepFirst(xs[1..], key, seen);
        KeepFirstInOrder(xs[1..], key, seen);
        forall i | 0 <= i < |r| ensures FirstIndex(xs, key, key(r[i])) == 1 + FirstIndex(xs[1..], key, key(r[i])) {
          assert r[i] in r;
        }
        forall i, j | 0 <= i < j < |r| ensures FirstIndex(xs, key, key(r[i])) < FirstIndex(xs, key, key(r[j])) {
          assert FirstIndex(xs[1..], key, key(r[i])) < FirstIndex(xs[1..], key, key(r[j]));
        }
      } else {
        var t := KeepFirst(xs[1..], key, seen + {k0});
        assert r == [xs[0]] + t;
        KeepFirstInOrder(xs[1..], key, seen + {k0});
        forall i | 0 <= i < |t| ensures FirstIndex(xs, key, key(t[i])) == 1 + FirstIndex(xs[1..], key, key(t[i])) {
          assert t[i] in t;
        }
        forall i, j | 0 <= i < j < |r| ensures FirstIndex(xs, key, key(r[i])) < FirstIndex(xs, key, key(r[j])) {
          assert r[j] == t[j - 1];
          if i > 0 {
            assert r[i] == t[i - 1];
          }
        }
      }
    }
  }

  /** Every element kept by `KeepFirst` is the first element of the input with its key. */
  lemma {:induction false} KeepFirstKeepsFirst<T(!new), K(!new)>(xs: seq<T>, key: T -> K, seen: set<K>)
    ensures forall x :: x in KeepFirst(xs, key, seen) ==> FirstWith(xs, key, key(x)) == Some(x)
  {
    if |xs| > 0 {
      if key(xs[0]) in seen {
        KeepFirstKeepsFirst(xs[1..], key, seen);
      } else {
        KeepFirstKeepsFirst(xs[1..], key, seen + {key(xs[0])});
      }
    }
  }

  /** Input whose keys are distinct and unseen passes through unchanged. */
  lemma {:induction false} KeepFirstOfDistinct<T(!new), K(!new)>(xs: seq<T>, key: T -> K, seen: set<K>)
    requires DistinctKeys(xs, key)
    requires forall x :: x in xs ==> key(x) !in seen
    ensures KeepFirst(xs, key, seen) == xs
  {
    if |xs| > 0 {
      forall x | x in xs[1..] ensures key(x) !in seen + {key(xs[0])} {
        var j :| 0 <= j < |xs[1..]| && xs[1..][j] == x;
        assert xs[j + 1] == x;
      }
      KeepFirstOfDistinct(xs[1..], key, seen + {key(xs[0])});
    }
  }

  /** Concatenation of a sequence of sequences (`Array.prototype.flat`). */
  function Flatten<T>(xss: seq<seq<T>>): (r: seq<T>)
  {
    if |xss| == 0 then [] else xss[0] + Flatten(xss[1..])
  }

  lemma {:induction false} FlattenAppend<T>(a: seq<seq<T>>, b: seq<seq<T>>)
    ensures Flatten(a + b) == Flatten(a) + Flatten(b)
  {
    if |a| > 0 {
      assert (a + b)[1..] == a[1..] + b;
      FlattenAppend(a[1..], b);
    } else {
      assert a + b == b;
    }
  }

  predicate NoDuplicates<T(==)>(s: seq<T>) {
    forall i, j :: 0 <= i < j < |s| ==> s[i] != s[j]
  }

  lemma {:induction false} NoDuplicatesCount<T>(s: seq<T>, x: T)
    requires NoDuplicates(s)
    ensures multiset(s)[x] <= 1
  {
    if |s| > 0 {
      assert s == [s[0]] + s[1..];
      NoDuplicatesCount(s[1..], x);
      if s[0] == x {
        assert x !in s[1..];
      }
    }
  }

  /** A rearrangement of a duplicate-free sequence is duplicate-free. */
  lemma PermutationNoDuplicates<T>(a: seq<T>, b: seq<T>)
    requires NoDuplicates(a) && multiset(a) == multiset(b)
    ensures NoDuplicates(b)
  {
    forall i, j | 0 <= i < j < |b| ensures b[i] != b[j] {
      if b[i] == b[j] {
        assert b == b[..j] + [b[j]] + b[j + 1..];
        assert b[i] in b[..j];
        assert multiset(b)[b[i]] >= 2;
        NoDuplicatesCount(a, b[i]);
      }
    }
  }
}
