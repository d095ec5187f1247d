/** The pure feed-list operations of `useOpml`: every mutation the editor
    records in its history, the filtered and sorted view, and the derived
    categories and statistics. */
module Collection {
  import opened Wrappers
  import opened Types
  import opened Seqs
  import opened Sorting
  import opened Text
  import opened Grouping

  /** A `Partial<FeedItem>`: each present field overrides the record's
      (`{ ...feed, ...updates }`). A field that is itself optional is
      overridden by `Some(None)` to clear it. */
  datatype FeedPatch = FeedPatch(
    id: Option<string>,
    title: Option<string>,
    xmlUrl: Option<string>,
    htmlUrl: Option<Option<string>>,
    category: Option<string>,
    isValid: Option<Option<bool>>,
    lastChecked: Option<Option<Date>>,
    isSelected: Option<bool>,
    tags: Option<Option<seq<string>>>)

  const NoChanges := FeedPatch(None, None, None, None, None, None, None, None, None)

  function Override<X>(current: X, o: Option<X>): X {
    if o.Some? then o.value else current
  }

  function ApplyPatch(f: Feed, p: FeedPatch): Feed {
    f.(id := Override(f.id, p.id),
       title := Override(f.title, p.title),
       xmlUrl := Override(f.xmlUrl, p.xmlUrl),
       htmlUrl := Override(f.htmlUrl, p.htmlUrl),
       category := Override(f.category, p.category),
       isValid := Override(f.isValid, p.isValid),
       lastChecked := Override(f.lastChecked, p.lastChecked),
       isSelected := Override(f.isSelected, p.isSelected),
       tags := Override(f.tags, p.tags))
  }

  /** `updateFeed(id, updates)`. */
  function UpdateFeed(fs: seq<Feed>, id: string, p: FeedPatch): (r: seq<Feed>)
    ensures |r| == |fs|
    ensures forall i :: 0 <= i < |fs| && fs[i].id != id ==> r[i] == fs[i]
    ensures forall i :: 0 <= i < |fs| && fs[i].id == id ==> r[i] == ApplyPatch(fs[i], p)
  {
    seq(|fs|, i requires 0 <= i < |fs| => if fs[i].id == id then ApplyPatch(fs[i], p) else fs[i])
  }

  /** An update with no fields leaves the list as it was. */
  lemma UpdateNothing(fs: seq<Feed>, id: string)
    ensures UpdateFeed(fs, id, NoChanges) == fs
  {
  }

  function HasId(id: string): Feed -> bool {
    (f: Feed) => f.id == id
  }

  function LacksId(id: string): Feed -> bool {
    (f: Feed) => f.id != id
  }

  /** `deleteFeed(id)`: every record with that id goes, the rest keep their order. */
  function DeleteFeed(fs: seq<Feed>, id: string): (r: seq<Feed>)
    ensures Subseq(r, fs)
    ensures forall f :: f in r <==> f in fs && f.id != id
    ensures |r| == |fs| - Count(fs, HasId(id))
  {
    FilterIsSubseq(fs, LacksId(id));
    CountComplement(fs, HasId(id), LacksId(id));
    Filter(fs, LacksId(id))
  }

  lemma {:induction false} CountComplement<T(!new)>(xs: seq<T>, p: T -> bool, q: T -> bool)
    requires forall x :: q(x) == !p(x)
    ensures Count(xs, p) + |Filter(xs, q)| == |xs|
  {
    if |xs| > 0 {
      CountComplement(xs[1..], p, q);
    }
  }

  /** `toggleFeedSelection(id)`. */
  function ToggleFeedSelection(fs: seq<Feed>, id: string): (r: seq<Feed>)
    ensures |r| == |fs|
    ensures forall i :: 0 <= i < |fs| && fs[i].id != id ==> r[i] == fs[i]
    ensures forall i :: 0 <= i < |fs| && fs[i].id == id ==>
      r[i].isSelected == !fs[i].isSelected && r[i].(isSelected := fs[i].isSelected) == fs[i]
  {
    seq(|fs|, i requires 0 <= i < |fs| =>
      if fs[i].id == id then fs[i].(isSelected := !fs[i].isSelected) else fs[i])
  }

  /** Toggling the same id twice restores the list. */
  lemma ToggleTwice(fs: seq<Feed>, id: string)
    ensures ToggleFeedSelection(ToggleFeedSelection(fs, id), id) == fs
  {
  }

  /** `toggleAllSelection(selected)`: the whole list, not only the visible part. */
  function ToggleAllSelection(fs: seq<Feed>, selected: bool): (r: seq<Feed>)
    ensures |r| == |fs|
    ensures forall i :: 0 <= i < |fs| ==>
      r[i].isSelected == selected && r[i].(isSelected := fs[i].isSelected) == fs[i]
  {
    seq(|fs|, i requires 0 <= i < |fs| => fs[i].(isSelected := selected))
  }

  /** `bulkUpdateCategory(ids, category)`: unmatched ids are ignored. */
  function BulkUpdateCategory(fs: seq<Feed>, ids: seq<string>, category: string): (r: seq<Feed>)
    ensures |r| == |fs|
    ensures forall i :: 0 <= i < |fs| ==>
      && r[i].category == (if fs[i].id in ids then category else fs[i].category)
      && r[i].(category := fs[i].category) == fs[i]
  {
    seq(|fs|, i requires 0 <= i < |fs| =>
      if fs[i].id in ids then fs[i].(category := category) else fs[i])
  }

  function XmlUrlOf(f: Feed): string {
    f.xmlUrl
  }

  /** `removeDuplicates`: the first record of each exact `xmlUrl`, and how many were dropped. */
  function RemoveDuplicates(fs: seq<Feed>): (r: (seq<Feed>, nat))
    ensures Subseq(r.0, fs)
    ensures DistinctKeys(r.0, XmlUrlOf)
    ensures Keys(r.0, XmlUrlOf) == Keys(fs, XmlUrlOf)
    ensures forall f :: f in r.0 ==> FirstWith(fs, XmlUrlOf, f.xmlUrl) == Some(f)
    ensures InFirstOrder(r.0, fs, XmlUrlOf)
    ensures r.1 == |fs| - |r.0|
  {
    var kept := KeepFirst(fs, XmlUrlOf, {});
    KeepFirstKeepsFirst(fs, XmlUrlOf, {});
    KeepFirstInOrder(fs, XmlUrlOf, {});
    SubseqLength(kept, fs);
    (kept, |fs| - |kept|)
  }

  lemma {:induction false} SubseqLength<T>(a: seq<T>, b: seq<T>)
    requires Subseq(a, b)
    ensures |a| <= |b|
    decreases |b|
  {
    if |a| > 0 {
      if a[0] == b[0] { SubseqLength(a[1..], b[1..]); } else { SubseqLength(a, b[1..]); }
    }
  }

  /** The source's loop: a `seen` set grown while filtering. It computes the
      same list as `RemoveDuplicates`. */
  method RemoveDuplicatesLoop(fs: seq<Feed>) returns (kept: seq<Feed>, removed: int)
    ensures kept == RemoveDuplicates(fs).0
    ensures removed == RemoveDuplicates(fs).1
  {
    var seen: set<string> := {};
    kept := [];
    var i := 0;
    while i < |fs|
      invariant 0 <= i <= |fs|
      invariant kept + KeepFirst(fs[i..], XmlUrlOf, seen) == KeepFirst(fs, XmlUrlOf, {})
    {
      assert fs[i..][1..] == fs[i + 1..];
      if fs[i].xmlUrl !in seen {
        seen := seen + {fs[i].xmlUrl};
        kept := kept + [fs[i]];
      }
      i := i + 1;
    }
    removed := |fs| - |kept|;
  }

  /** A second `removeDuplicates` removes nothing and changes nothing. */
  lemma RemoveDuplicatesIdempotent(fs: seq<Feed>)
    ensures var once := RemoveDuplicates(fs).0;
            RemoveDuplicates(once) == (once, 0)
  {
    var once := RemoveDuplicates(fs).0;
    KeepFirstOfDistinct(once, XmlUrlOf, {});
  }

  /** The search and category conditions of the list view. */
  predicate Matches(f: Feed, query: string, category: string, lower: char -> char) {
    && (query == ""
        || Contains(Lower(f.title, lower), Lower(query, lower))
        || Contains(Lower(f.xmlUrl, lower), Lower(query, lower)))
    && (category == "all" || f.category == category)
  }

  function MatchesAll(query: string, category: string, lower: char -> char): Feed -> bool {
    (f: Feed) => Matches(f, query, category, lower)
  }

  datatype SortField = ByTitle | ByCategory | ByDate
  datatype SortOrder = Asc | Desc

  /** `a.lastChecked?.getTime() || 0`: absent and invalid dates count as 0. */
  function DateKey(f: Feed): int {
    match f.lastChecked
    case Some(Time(ms)) => ms
    case _ => 0
  }

  /** The ascending comparator of a sort field; titles and categories use the
      locale collation `collate` (`localeCompare`). */
  function FieldCompare(field: SortField, collate: (string, string) -> int): (Feed, Feed) -> int {
    match field
    case ByTitle => (a: Feed, b: Feed) => collate(a.title, b.title)
    case ByCategory => (a: Feed, b: Feed) => collate(a.category, b.category)
    case ByDate => (a: Feed, b: Feed) => DateKey(a) - DateKey(b)
  }

  /** `sortOrder === "asc" ? comparison : -comparison`. */
  function Comparator(field: SortField, order: SortOrder, collate: (string, string) -> int): (Feed, Feed) -> int {
    if order == Asc then FieldCompare(field, collate) else Negate(FieldCompare(field, collate))
  }

  lemma FieldCompareConsistent(field: SortField, collate: (string, string) -> int)
    requires Consistent(collate)
    ensures Consistent(FieldCompare(field, collate))
  {
    var c := FieldCompare(field, collate);
    forall a, b ensures Sign(c(a, b)) == -Sign(c(b, a)) {
      match field
      case ByTitle => assert Sign(collate(a.title, b.title)) == -Sign(collate(b.title, a.title));
      case ByCategory => assert Sign(collate(a.category, b.category)) == -Sign(collate(b.category, a.category));
      case ByDate =>
    }
    forall a, b, d | c(a, b) <= 0 && c(b, d) <= 0 ensures c(a, d) <= 0 {
      match field
      case ByTitle =>
        assert collate(a.title, b.title) <= 0 && collate(b.title, d.title) <= 0;
      case ByCategory =>
        assert collate(a.category, b.category) <= 0 && collate(b.category, d.category) <= 0;
      case ByDate =>
    }
  }

  lemma ComparatorConsistent(field: SortField, order: SortOrder, collate: (string, string) -> int)
    requires Consistent(collate)
    ensures Consistent(Comparator(field, order, collate))
    ensures forall a, b :: Comparator(field, order, collate)(a, b) == 0 <==> FieldCompare(field, collate)(a, b) == 0
  {
    FieldCompareConsistent(field, collate);
    if order == Desc {
      NegateConsistent(FieldCompare(field, collate));
    }
  }

  /** `filteredFeeds`: filter by search text and category, then sort. */
  function FilteredFeeds(fs: seq<Feed>, query: string, category: string, field: SortField,
                         order: SortOrder, lower: char -> char, collate: (string, string) -> int): seq<Feed>
  {
    SortBy(Filter(fs, MatchesAll(query, category, lower)), Comparator(field, order, collate))
  }

  /** The view holds exactly the matching records, each as often as in the
      list, in comparator order, and records that tie on the sort key stay in
      list order whichever the direction. */
  lemma FilteredFeedsSpec(fs: seq<Feed>, query: string, category: string, field: SortField,
                          order: SortOrder, lower: char -> char, collate: (string, string) -> int, k: Feed)
    requires Consistent(collate)
    ensures var v := FilteredFeeds(fs, query, category, field, order, lower, collate);
            var cmp := Comparator(field, order, collate);
            && multiset(v) == multiset(Filter(fs, MatchesAll(query, category, lower)))
            && (forall f :: f in v <==> f in fs && Matches(f, query, category, lower))
            && Sorted(v, cmp)
            && Filter(v, TiesWith(cmp, k)) == Filter(Filter(fs, MatchesAll(query, category, lower)), TiesWith(cmp, k))
  {
    var cmp := Comparator(field, order, collate);
    var m := Filter(fs, MatchesAll(query, category, lower));
    ComparatorConsistent(field, order, collate);
    SortBySorted(m, cmp);
    SortByStable(m, cmp, k);
    var v := SortBy(m, cmp);
    forall f ensures f in v <==> f in m {
      assert f in v <==> f in multiset(v);
      assert f in m <==> f in multiset(m);
    }
  }

  function CategoryOf(f: Feed): string {
    f.category
  }

  /** The category of each record, in first-seen order, each once
      (`Array.from(new Set(feeds.map(f => f.category)))`). */
  function DistinctCategories(fs: seq<Feed>): (names: seq<string>)
    ensures NoDuplicates(names)
    ensures forall c :: c in names <==> exists f :: f in fs && f.category == c
  {
    var names := FirstSeenKeys(fs, CategoryOf);
    forall c ensures c in names <==> exists f :: f in fs && f.category == c {
      if c in names {
        var i :| 0 <= i < |fs| && CategoryOf(fs[i]) == c;
        assert fs[i] in fs;
      }
    }
    names
  }

  /** `categories`: the distinct categories, in the default string sort order. */
  function Categories(fs: seq<Feed>): (r: seq<string>)
    ensures forall c :: c in r <==> exists f :: f in fs && f.category == c
    ensures forall i, j :: 0 <= i < j < |r| ==> LexCompare(r[i], r[j]) < 0
  {
    var names := DistinctCategories(fs);
    var r := SortBy(names, LexCompare);
    StrictlySortedNames(names, r);
    forall c ensures c in r <==> c in names {
      assert c in r <==> c in multiset(r);
      assert c in names <==> c in multiset(names);
    }
    r
  }

  lemma StrictlySortedNames(names: seq<string>, r: seq<string>)
    requires NoDuplicates(names) && r == SortBy(names, LexCompare)
    ensures forall i, j :: 0 <= i < j < |r| ==> LexCompare(r[i], r[j]) < 0
  {
    LexCompareConsistent();
    SortBySorted(names, LexCompare);
    PermutationNoDuplicates(names, r);
  }

  function IsSelected(f: Feed): bool {
    f.isSelected
  }

  datatype Stats = Stats(totalFeeds: nat, selectedFeeds: nat, categories: seq<string>)

  /** `stats`. */
  function ComputeStats(fs: seq<Feed>): (s: Stats)
    ensures s.totalFeeds == |fs|
    ensures s.selectedFeeds == |Filter(fs, IsSelected)| <= |fs|
    ensures s.categories == Categories(fs)
  {
    Stats(|fs|, Count(fs, IsSelected), Categories(fs))
  }

  /** After selecting or clearing all, the selected count is all or nothing. */
  lemma {:induction false} StatsAfterToggleAll(fs: seq<Feed>, selected: bool)
    ensures ComputeStats(ToggleAllSelection(fs, selected)).selectedFeeds == if selected then |fs| else 0
  {
    var r := ToggleAllSelection(fs, selected);
    if selected {
      FilterAll(r, IsSelected);
    } else {
      FilterNone(r, IsSelected);
    }
  }
}
