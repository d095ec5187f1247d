/** The export preview: the feeds about to be exported grouped by their
    exact category (no "Uncategorized" substitution), listed under headings in
    the default string sort order, and the confirm button. */
module ExportPreview {
  import opened Wrappers
  import opened Types
  import opened Seqs
  import opened Text
  import opened Grouping
  import Collection

  datatype Format = OpmlFormat | JsonFormat

  /** The properties every plain object inherits from `Object.prototype`;
      reading one of them from `{}` gives a function or an object, never
      `undefined`. */
  const InheritedNames: set<string> := {
    "constructor", "__proto__", "hasOwnProperty", "isPrototypeOf", "propertyIsEnumerable",
    "toString", "toLocaleString", "valueOf",
    "__defineGetter__", "__defineSetter__", "__lookupGetter__", "__lookupSetter__"
  }

  /** What calling `push` on an inherited member throws. */
  const PushTypeError := "TypeError: groups[feed.category].push is not a function"

  function CategoryOf(f: Feed): string {
    f.category
  }

  /** The grouping as intended: each category that occurs maps to its feeds
      in list order. */
  function Grouped(fs: seq<Feed>): map<string, seq<Feed>> {
    map c | c in Keys(fs, CategoryOf) :: Group(fs, CategoryOf, c)
  }

  /** The keys of `Grouped` are the categories that occur, and each group
      holds exactly that category's feeds, in list order. */
  lemma GroupedSpec(fs: seq<Feed>)
    ensures forall c :: c in Grouped(fs) <==> exists f :: f in fs && f.category == c
    ensures forall c :: c in Grouped(fs) ==> Subseq(Grouped(fs)[c], fs)
    ensures forall c, f :: c in Grouped(fs) ==> (f in Grouped(fs)[c] <==> f in fs && f.category == c)
  {
    forall c ensures c in Grouped(fs) <==> exists f :: f in fs && f.category == c {
      if c in Grouped(fs) {
        var i :| 0 <= i < |fs| && CategoryOf(fs[i]) == c;
        assert fs[i] in fs;
      }
    }
  }

  /** The `forEach` over the feeds as written, on a plain object: a category
      that names an inherited member finds it truthy, skips the `= []`, and
      the `push` throws. */
  function GroupedAsWritten(fs: seq<Feed>, groups: map<string, seq<Feed>>): (r: Result<map<string, seq<Feed>>, string>)
    requires forall k :: k in groups ==> k !in InheritedNames
    ensures r.Failure? <==> exists f :: f in fs && f.category in InheritedNames
    ensures r.Failure? ==> r.error == PushTypeError
  {
    if |fs| == 0 then Success(groups)
    else
      var c := fs[0].category;
      assert forall f :: f in fs <==> f == fs[0] || f in fs[1..] by {
        assert fs == [fs[0]] + fs[1..];
      }
      if c in groups then GroupedAsWritten(fs[1..], groups[c := groups[c] + [fs[0]]])
      else if c in InheritedNames then Failure(PushTypeError)
      else GroupedAsWritten(fs[1..], groups[c := [fs[0]]])
  }

  /** A single feed filed under "constructor" makes the preview throw. */
  lemma ConstructorCategoryThrows(f: Feed)
    requires f.category == "constructor"
    ensures GroupedAsWritten([f], map[]).Failure?
  {
    assert f in [f];
  }

  /** One more feed extends its category's group. */
  lemma GroupedSnoc(xs: seq<Feed>, y: Feed)
    ensures y.category in Grouped(xs) ==>
              Grouped(xs)[y.category := Grouped(xs)[y.category] + [y]] == Grouped(xs + [y])
    ensures y.category !in Grouped(xs) ==>
              Grouped(xs)[y.category := [y]] == Grouped(xs + [y])
  {
    var g := Grouped(xs);
    var g' := Grouped(xs + [y]);
    var c := y.category;
    var h := if c in g then g[c := g[c] + [y]] else g[c := [y]];
    KeysAppend(xs, [y], CategoryOf);
    KeysCons([y], CategoryOf);
    assert [y][1..] == [];
    assert Keys([], CategoryOf) == {};
    assert h.Keys == g'.Keys;
    forall k | k in h ensures h[k] == g'[k] {
      GroupSnoc(xs, y, CategoryOf, k);
      if k == c && c !in g {
        GroupOfNewKey(xs, CategoryOf, c);
      }
    }
  }

  /** Away from the inherited names the loop builds exactly `Grouped`. */
  lemma {:induction false} AsWrittenAgrees(xs: seq<Feed>, ys: seq<Feed>)
    requires forall f :: f in xs + ys ==> f.category !in InheritedNames
    ensures GroupedAsWritten(ys, Grouped(xs)) == Success(Grouped(xs + ys))
    decreases |ys|
  {
    if |ys| == 0 {
      assert xs + ys == xs;
    } else {
      var y := ys[0];
      assert y in xs + ys;
      GroupedSnoc(xs, y);
      assert xs + [y] + ys[1..] == xs + ys;
      forall f | f in xs + [y] + ys[1..] ensures f.category !in InheritedNames {
      }
      AsWrittenAgrees(xs + [y], ys[1..]);
    }
  }

  /** From an empty object, the loop as written gives the intended grouping
      exactly when no category is an inherited name. */
  lemma AsWrittenFromEmpty(fs: seq<Feed>)
    requires forall f :: f in fs ==> f.category !in InheritedNames
    ensures GroupedAsWritten(fs, map[]) == Success(Grouped(fs))
  {
    assert Grouped([]) == map[];
    assert [] + fs == fs;
    AsWrittenAgrees([], fs);
  }

  /** The sections in display order: `Object.keys(groups).sort()` with each
      heading's feeds. */
  function Sections(fs: seq<Feed>): (ss: seq<(string, seq<Feed>)>)
    ensures forall i, j :: 0 <= i < j < |ss| ==> LexCompare(ss[i].0, ss[j].0) < 0
    ensures forall c :: (exists i :: 0 <= i < |ss| && ss[i].0 == c) <==> c in Grouped(fs)
    ensures forall i :: 0 <= i < |ss| ==> ss[i].1 == Grouped(fs)[ss[i].0]
  {
    var names := Collection.Categories(fs);
    GroupsForIndex(fs, CategoryOf, names);
    HeadingsAreGroupNames(fs);
    GroupsFor(fs, CategoryOf, names)
  }

  lemma HeadingsAreGroupNames(fs: seq<Feed>)
    ensures forall c :: (exists i :: 0 <= i < |Collection.Categories(fs)| && Collection.Categories(fs)[i] == c)
                        <==> c in Grouped(fs)
  {
    var names := Collection.Categories(fs);
    forall c ensures (exists i :: 0 <= i < |names| && names[i] == c) <==> c in Grouped(fs) {
      if c in names {
        var i :| 0 <= i < |names| && names[i] == c;
      }
    }
  }

  /** The sections partition the feeds: every feed sits in the section of its
      own category and in no other, and the sections hold as many feeds as
      the list. */
  lemma SectionsPartition(fs: seq<Feed>)
    ensures multiset(Members(Sections(fs))) == multiset(fs)
    ensures |Members(Sections(fs))| == |fs|
    ensures forall i, f :: 0 <= i < |Sections(fs)| && f in fs ==> (f in Sections(fs)[i].1 <==> f.category == Sections(fs)[i].0)
  {
    var names := Collection.Categories(fs);
    forall i, j | 0 <= i < j < |names| ensures names[i] != names[j] {
      LexCompareZero(names[i], names[j]);
    }
    GroupsForPartition(fs, CategoryOf, names);
    FilterAll(fs, KeyIn(CategoryOf, names));
    assert |multiset(Members(Sections(fs)))| == |multiset(fs)|;
  }

  /** `handleConfirm`: the chosen format handed to `onConfirmExport` once,
      then the dialog closed. */
  datatype Confirmed = Confirmed(calls: seq<Format>, open: bool)

  function Confirm(format: Format): (r: Confirmed)
    ensures |r.calls| == 1 && r.calls[0] == format && !r.open
  {
    Confirmed([format], false)
  }
}
