/** Grouping by a key in first-seen order: what a JavaScript `Map` (or a
    plain object with non-numeric keys) filled in one pass over a list yields
    when its entries are read back in insertion order. */
module Grouping {
  import opened Seqs

  /** `xs.map(f)`. */
  function Map<T, U>(xs: seq<T>, f: T -> U): (r: seq<U>)
    ensures |r| == |xs|
    ensures forall i :: 0 <= i < |xs| ==> r[i] == f(xs[i])
  {
    seq(|xs|, i requires 0 <= i < |xs| => f(xs[i]))
  }

  lemma MapAppend<T, U>(a: seq<T>, b: seq<T>, f: T -> U)
    ensures Map(a + b, f) == Map(a, f) + Map(b, f)
  {
  }

  /** Mapping a rearrangement gives a rearrangement of the images. */
  lemma {:induction false} MapPreservesMultiset<T, U>(a: seq<T>, b: seq<T>, f: T -> U)
    requires multiset(a) == multiset(b)
    ensures multiset(Map(a, f)) == multiset(Map(b, f))
    decreases |a|
  {
    if |a| == 0 {
      assert b == [];
    } else {
      var x := a[0];
      assert x in multiset(b);
      var j :| 0 <= j < |b| && b[j] == x;
      var rest := b[..j] + b[j + 1..];
      RemoveAt(b, j);
      RemoveFirst(a);
      MapPreservesMultiset(a[1..], rest, f);
      MapRemoveAt(b, j, f);
      assert Map(a, f) == [f(x)] + Map(a[1..], f);
    }
  }

  lemma RemoveFirst<T>(a: seq<T>)
    requires |a| > 0
    ensures multiset(a[1..]) == multiset(a) - multiset{a[0]}
  {
    assert a == [a[0]] + a[1..];
  }

  /** Removing the element at `j` removes one occurrence of it. */
  lemma RemoveAt<T>(b: seq<T>, j: nat)
    requires j < |b|
    ensures multiset(b[..j] + b[j + 1..]) == multiset(b) - multiset{b[j]}
  {
    assert b == b[..j] + [b[j]] + b[j + 1..];
  }

  lemma MapRemoveAt<T, U>(b: seq<T>, j: nat, f: T -> U)
    requires j < |b|
    ensures multiset(Map(b, f)) == multiset(Map(b[..j] + b[j + 1..], f)) + multiset{f(b[j])}
  {
    var m := Map(b, f);
    assert Map(b[..j] + b[j + 1..], f) == m[..j] + m[j + 1..];
    assert m == m[..j] + [m[j]] + m[j + 1..];
  }

  lemma {:induction false} KeysAppend<T(!new), K(!new)>(a: seq<T>, b: seq<T>, key: T -> K)
    ensures Keys(a + b, key) == Keys(a, key) + Keys(b, key)
  {
    if |a| == 0 {
      assert a + b == b;
    } else {
      assert (a + b)[1..] == a[1..] + b;
      KeysAppend(a[1..], b, key);
    }
  }

  /** The keep-first filter of a concatenation continues on the second part
      with the first part's keys marked seen. */
  lemma {:induction false} KeepFirstAppend<T(!new), K(!new)>(a: seq<T>, b: seq<T>, key: T -> K, seen: set<K>)
    ensures KeepFirst(a + b, key, seen) == KeepFirst(a, key, seen) + KeepFirst(b, key, seen + Keys(a, key))
  {
    if |a| == 0 {
      assert a + b == b;
      assert Keys(a, key) == {};
      assert seen + Keys(a, key) == seen;
      assert KeepFirst(a, key, seen) == [];
    } else {
      var ab := a + b;
      assert ab[0] == a[0] && ab[1..] == a[1..] + b;
      var k := key(a[0]);
      var seen' := if k in seen then seen else seen + {k};
      KeepFirstAppend(a[1..], b, key, seen');
      KeysCons(a, key);
      assert seen' + Keys(a[1..], key) == seen + Keys(a, key);
      KeepFirstStep(ab, key, seen);
      KeepFirstStep(a, key, seen);
    }
  }

  /** One step of the keep-first filter. */
  lemma KeepFirstStep<T(!new), K(!new)>(xs: seq<T>, key: T -> K, seen: set<K>)
    requires |xs| > 0
    ensures KeepFirst(xs, key, seen)
         == if key(xs[0]) in seen then KeepFirst(xs[1..], key, seen)
            else [xs[0]] + KeepFirst(xs[1..], key, seen + {key(xs[0])})
  {
  }

  /** The distinct keys, each once, in the order of their first appearance. */
  function FirstSeenKeys<T(!new), K(==,!new)>(xs: seq<T>, key: T -> K): (ks: seq<K>)
    ensures NoDuplicates(ks)
    ensures forall k :: k in ks <==> k in Keys(xs, key)
    ensures forall i :: 0 <= i < |ks| ==> FirstWith(xs, key, ks[i]).Some?
  {
    var firsts := KeepFirst(xs, key, {});
    var ks := Map(firsts, key);
    forall k ensures k in ks <==> k in Keys(xs, key) {
      if k in ks {
        var i :| 0 <= i < |ks| && ks[i] == k;
        assert firsts[i] in firsts;
      }
      if k in Keys(xs, key) {
        assert k in Keys(firsts, key);
        var i :| 0 <= i < |firsts| && key(firsts[i]) == k;
        assert ks[i] == k;
      }
    }
    ks
  }

  /** Appending one element adds its key at the end when it is new. */
  lemma FirstSeenKeysSnoc<T(!new), K(!new)>(xs: seq<T>, x: T, key: T -> K)
    ensures FirstSeenKeys(xs + [x], key)
         == FirstSeenKeys(xs, key) + (if key(x) in Keys(xs, key) then [] else [key(x)])
  {
    var a := KeepFirst(xs, key, {});
    var b := KeepFirst([x], key, {} + Keys(xs, key));
    KeepFirstAppend(xs, [x], key, {});
    assert {} + Keys(xs, key) == Keys(xs, key);
    KeepFirstSingle(x, key, Keys(xs, key));
    MapAppend(a, b, key);
    assert FirstSeenKeys(xs + [x], key) == Map(a + b, key);
    assert FirstSeenKeys(xs, key) == Map(a, key);
    assert Map(b, key) == (if key(x) in Keys(xs, key) then [] else [key(x)]);
  }

  lemma KeepFirstSingle<T(!new), K(!new)>(x: T, key: T -> K, seen: set<K>)
    ensures KeepFirst([x], key, seen) == if key(x) in seen then [] else [x]
  {
    KeepFirstStep([x], key, seen);
    assert [x][1..] == [];
  }

  lemma FirstSeenKeysSnocSeen<T(!new), K(!new)>(xs: seq<T>, x: T, key: T -> K)
    requires key(x) in Keys(xs, key)
    ensures FirstSeenKeys(xs + [x], key) == FirstSeenKeys(xs, key)
  {
    FirstSeenKeysSnoc(xs, x, key);
    assert FirstSeenKeys(xs, key) + [] == FirstSeenKeys(xs, key);
  }

  function HasKey<T, K(==)>(key: T -> K, k: K): T -> bool {
    (x: T) => key(x) == k
  }

  /** The elements with key `k`, in input order. */
  function Group<T(!new), K(==)>(xs: seq<T>, key: T -> K, k: K): (g: seq<T>)
    ensures Subseq(g, xs)
    ensures forall x :: x in g <==> x in xs && key(x) == k
  {
    FilterIsSubseq(xs, HasKey(key, k));
    Filter(xs, HasKey(key, k))
  }

  /** One `(key, group)` entry per key of `ks`, in the order of `ks`. */
  function GroupsFor<T(!new), K(==)>(xs: seq<T>, key: T -> K, ks: seq<K>): (gs: seq<(K, seq<T>)>)
    ensures |gs| == |ks|
    ensures forall i :: 0 <= i < |gs| ==> gs[i].0 == ks[i]
    ensures forall i :: 0 <= i < |gs| ==> forall x :: x in gs[i].1 <==> x in xs && key(x) == ks[i]
  {
    if |ks| == 0 then [] else [(ks[0], Group(xs, key, ks[0]))] + GroupsFor(xs, key, ks[1..])
  }

  /** The entries of the grouping `Map`, in insertion order. */
  function GroupBy<T(!new), K(==,!new)>(xs: seq<T>, key: T -> K): (gs: seq<(K, seq<T>)>)
    ensures forall i :: 0 <= i < |gs| ==> |gs[i].1| > 0
    ensures forall k :: k in Map(gs, (g: (K, seq<T>)) => g.0) <==> k in Keys(xs, key)
  {
    var ks := FirstSeenKeys(xs, key);
    var gs := GroupsFor(xs, key, ks);
    forall i | 0 <= i < |gs| ensures |gs[i].1| > 0 {
      var x :| x in xs && key(x) == ks[i];
      assert x in gs[i].1;
    }
    forall k ensures k in Map(gs, (g: (K, seq<T>)) => g.0) <==> k in ks {
      var names := Map(gs, (g: (K, seq<T>)) => g.0);
      assert names == ks;
    }
    gs
  }

  /** The groups' members one group after another. */
  function Members<T, K>(gs: seq<(K, seq<T>)>): seq<T> {
    if |gs| == 0 then [] else gs[0].1 + Members(gs[1..])
  }

  function KeyIn<T, K(==)>(key: T -> K, ks: seq<K>): T -> bool {
    (x: T) => key(x) in ks
  }

  lemma {:induction false} GroupsForPartition<T(!new), K>(xs: seq<T>, key: T -> K, ks: seq<K>)
    requires NoDuplicates(ks)
    ensures multiset(Members(GroupsFor(xs, key, ks))) == multiset(Filter(xs, KeyIn(key, ks)))
  {
    if |ks| == 0 {
      FilterNone(xs, KeyIn(key, ks));
    } else {
      var rest := ks[1..];
      GroupsForPartition(xs, key, rest);
      var gs := GroupsFor(xs, key, ks);
      assert gs[1..] == GroupsFor(xs, key, rest);
      assert Members(gs) == Group(xs, key, ks[0]) + Members(GroupsFor(xs, key, rest));
      KeyInSplit(xs, key, ks);
      FilterDisjointUnion(xs, HasKey(key, ks[0]), KeyIn(key, rest), KeyIn(key, ks));
    }
  }

  /** Membership in `ks` is membership of its head or, exclusively, of its tail. */
  lemma KeyInSplit<T, K>(xs: seq<T>, key: T -> K, ks: seq<K>)
    requires NoDuplicates(ks) && |ks| > 0
    ensures forall x :: x in xs ==> (KeyIn(key, ks)(x) <==> HasKey(key, ks[0])(x) || KeyIn(key, ks[1..])(x))
    ensures forall x :: x in xs ==> !(HasKey(key, ks[0])(x) && KeyIn(key, ks[1..])(x))
  {
    assert ks == [ks[0]] + ks[1..];
    assert ks[0] !in ks[1..];
  }

  /** Grouping rearranges the input: the members of all groups are exactly
      the input, each element as often as it occurs. */
  lemma GroupByPartition<T(!new), K(!new)>(xs: seq<T>, key: T -> K)
    ensures multiset(Members(GroupBy(xs, key))) == multiset(xs)
    ensures |Members(GroupBy(xs, key))| == |xs|
  {
    var ks := FirstSeenKeys(xs, key);
    GroupsForPartition(xs, key, ks);
    FilterAll(xs, KeyIn(key, ks));
    assert |multiset(Members(GroupBy(xs, key)))| == |multiset(xs)|;
  }

  /** `names` and `groups` are the insertion order and contents of the
      grouping map built from `xs`. */
  ghost predicate Built<T(!new), K(!new)>(xs: seq<T>, key: T -> K, names: seq<K>, groups: map<K, seq<T>>) {
    && names == FirstSeenKeys(xs, key)
    && (forall k :: k in groups <==> k in names)
    && (forall k :: k in groups ==> groups[k] == Group(xs, key, k))
  }

  /** The source's loop: one pass over the list, creating a key's entry the
      first time it is met and appending every element to its key's entry. */
  method BuildGroups<T(!new), K(==,!new)>(xs: seq<T>, key: T -> K) returns (names: seq<K>, groups: map<K, seq<T>>)
    ensures names == FirstSeenKeys(xs, key)
    ensures forall k :: k in groups <==> k in names
    ensures forall k :: k in groups ==> groups[k] == Group(xs, key, k)
  {
    names, groups := [], map[];
    BuiltEmpty(xs, key);
    ghost var done: seq<T> := [];
    var i := 0;
    while i < |xs|
      invariant 0 <= i <= |xs|
      invariant done == xs[..i]
      invariant Built(done, key, names, groups)
    {
      PrefixSnoc(xs, i);
      names, groups := AddToGroup(done, xs[i], key, names, groups);
      done := done + [xs[i]];
      i := i + 1;
    }
    assert done == xs;
  }

  lemma BuiltEmpty<T(!new), K(!new)>(xs: seq<T>, key: T -> K)
    ensures Built([], key, [], map[])
  {
    assert Keys([], key) == {};
  }

  /** The loop body: `if (!map.has(k)) map.set(k, []); map.get(k).push(x)`. */
  method AddToGroup<T(!new), K(==,!new)>(ghost xs: seq<T>, x: T, key: T -> K, names: seq<K>, groups: map<K, seq<T>>)
    returns (names': seq<K>, groups': map<K, seq<T>>)
    requires Built(xs, key, names, groups)
    ensures Built(xs + [x], key, names', groups')
  {
    names', groups' := names, groups;
    if key(x) !in groups' {
      BuildStepNew(xs, x, key, names, groups);
      groups' := groups'[key(x) := []];
      names' := names' + [key(x)];
    } else {
      BuildStepOld(xs, x, key, names, groups);
    }
    groups' := groups'[key(x) := groups'[key(x)] + [x]];
  }

  lemma BuiltIntro<T(!new), K(!new)>(xs: seq<T>, key: T -> K, names: seq<K>, groups: map<K, seq<T>>)
    requires names == FirstSeenKeys(xs, key)
    requires forall k :: k in groups <==> k in names
    requires forall k :: k in groups ==> groups[k] == Group(xs, key, k)
    ensures Built(xs, key, names, groups)
  {
  }

  /** One step of the loop keeps the map equal to the grouping of the prefix. */
  lemma BuildStepOld<T(!new), K(!new)>(xs: seq<T>, x: T, key: T -> K, names: seq<K>, groups: map<K, seq<T>>)
    requires Built(xs, key, names, groups)
    requires key(x) in groups
    ensures Built(xs + [x], key, names, groups[key(x) := groups[key(x)] + [x]])
  {
    NamesAfterSeen(xs, x, key, names, groups);
    ExtendGroups(xs, x, key, groups);
    BuiltAfterExtend(xs, x, key, names, groups);
  }

  lemma BuildStepNew<T(!new), K(!new)>(xs: seq<T>, x: T, key: T -> K, names: seq<K>, groups: map<K, seq<T>>)
    requires Built(xs, key, names, groups)
    requires key(x) !in groups
    ensures var g0 := groups[key(x) := []];
            Built(xs + [x], key, names + [key(x)], g0[key(x) := g0[key(x)] + [x]])
  {
    NamesAfterNew(xs, x, key, names, groups);
    NewEntry(xs, x, key, names, groups);
    ExtendGroups(xs, x, key, groups[key(x) := []]);
    BuiltAfterExtend(xs, x, key, names + [key(x)], groups[key(x) := []]);
  }

  lemma NamesAfterSeen<T(!new), K(!new)>(xs: seq<T>, x: T, key: T -> K, names: seq<K>, groups: map<K, seq<T>>)
    requires Built(xs, key, names, groups)
    requires key(x) in groups
    ensures names == FirstSeenKeys(xs + [x], key)
  {
    assert key(x) in Keys(xs, key);
    FirstSeenKeysSnocSeen(xs, x, key);
  }

  lemma NamesAfterNew<T(!new), K(!new)>(xs: seq<T>, x: T, key: T -> K, names: seq<K>, groups: map<K, seq<T>>)
    requires Built(xs, key, names, groups)
    requires key(x) !in groups
    ensures names + [key(x)] == FirstSeenKeys(xs + [x], key)
    ensures key(x) !in Keys(xs, key)
  {
    FirstSeenKeysSnoc(xs, x, key);
  }

  /** Creating the empty entry for a new key. */
  lemma NewEntry<T(!new), K(!new)>(xs: seq<T>, x: T, key: T -> K, names: seq<K>, groups: map<K, seq<T>>)
    requires Built(xs, key, names, groups)
    requires key(x) !in groups
    ensures forall k :: k in groups[key(x) := []] <==> k in names + [key(x)]
    ensures forall k :: k in groups[key(x) := []] ==> groups[key(x) := []][k] == Group(xs, key, k)
  {
    NamesAfterNew(xs, x, key, names, groups);
    GroupOfNewKey(xs, key, key(x));
  }

  lemma BuiltAfterExtend<T(!new), K(!new)>(xs: seq<T>, x: T, key: T -> K, names: seq<K>, groups: map<K, seq<T>>)
    requires names == FirstSeenKeys(xs + [x], key)
    requires key(x) in groups
    requires forall k :: k in groups <==> k in names
    requires var g := groups[key(x) := groups[key(x)] + [x]];
             forall k :: k in g ==> g[k] == Group(xs + [x], key, k)
    ensures Built(xs + [x], key, names, groups[key(x) := groups[key(x)] + [x]])
  {
    var g := groups[key(x) := groups[key(x)] + [x]];
    assert g.Keys == groups.Keys;
    BuiltIntro(xs + [x], key, names, g);
  }

  /** Appending `x` to its key's entry keeps every entry equal to its group. */
  lemma ExtendGroups<T(!new), K>(xs: seq<T>, x: T, key: T -> K, groups: map<K, seq<T>>)
    requires key(x) in groups
    requires forall k :: k in groups ==> groups[k] == Group(xs, key, k)
    ensures var g := groups[key(x) := groups[key(x)] + [x]];
            forall k :: k in g ==> g[k] == Group(xs + [x], key, k)
  {
    var g := groups[key(x) := groups[key(x)] + [x]];
    forall k | k in g ensures g[k] == Group(xs + [x], key, k) {
      GroupSnoc(xs, x, key, k);
      if k == key(x) {
        assert g[k] == Group(xs, key, k) + [x];
      } else {
        assert g[k] == Group(xs, key, k) + [];
      }
    }
  }

  lemma PrefixSnoc<T>(xs: seq<T>, i: nat)
    requires i < |xs|
    ensures xs[..i + 1] == xs[..i] + [xs[i]]
  {
  }

  lemma GroupSnoc<T(!new), K>(xs: seq<T>, x: T, key: T -> K, k: K)
    ensures Group(xs + [x], key, k) == Group(xs, key, k) + (if key(x) == k then [x] else [])
  {
    FilterAppend(xs, [x], HasKey(key, k));
    assert [x][1..] == [];
  }

  lemma GroupOfNewKey<T(!new), K(!new)>(xs: seq<T>, key: T -> K, k: K)
    requires k !in Keys(xs, key)
    ensures Group(xs, key, k) == []
  {
    FilterNone(xs, HasKey(key, k));
  }

  /** Reading the built map in insertion order gives `GroupBy`. */
  lemma BuildGroupsIsGroupBy<T(!new), K(!new)>(xs: seq<T>, key: T -> K, names: seq<K>, groups: map<K, seq<T>>)
    requires names == FirstSeenKeys(xs, key)
    requires forall k :: k in groups <==> k in names
    requires forall k :: k in groups ==> groups[k] == Group(xs, key, k)
    ensures GroupBy(xs, key) == seq(|names|, i requires 0 <= i < |names| => (names[i], groups[names[i]]))
  {
    var gs := GroupBy(xs, key);
    GroupsForIndex(xs, key, names);
  }

  lemma {:induction false} GroupsForIndex<T(!new), K>(xs: seq<T>, key: T -> K, ks: seq<K>)
    ensures forall i :: 0 <= i < |ks| ==> GroupsFor(xs, key, ks)[i] == (ks[i], Group(xs, key, ks[i]))
  {
    if |ks| > 0 {
      GroupsForIndex(xs, key, ks[1..]);
    }
  }
}
