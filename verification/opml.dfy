/** `parseOpml` and `exportOpml` at the level of the outline tree the XML
    library reads and writes: flattening outlines into feed records, and
    grouping feed records back into category outlines. */
module Opml {
  import opened Wrappers
  import opened Types
  import opened Seqs
  import opened Grouping

  /** What `result?.opml?.body` holds: the text of a body element with no
      child elements (`""` for `<body/>`), or the body's `<outline>` children. */
  datatype Body = TextBody(text: string) | ElementBody(outlines: seq<Outline>)

  /** The outcome of `parser.parse`: a document whose `<opml><body>` is
      present or absent, or the error the XML library throws on text it
      cannot read. */
  datatype OpmlDoc = OpmlDoc(body: Option<Body>) | Malformed(message: string)

  const MissingBody := "Invalid OPML structure: missing body element"
  const Uncategorized := "Uncategorized"
  const Untitled := "Untitled"

  /** `if (!body) throw`: the text parsed, and the body exists and is not
      the empty string. */
  predicate HasBody(doc: OpmlDoc) {
    doc.OpmlDoc? && doc.body.Some? && !(doc.body.value.TextBody? && doc.body.value.text == "")
  }

  /** `body.outline`, or nothing for a body holding only text. */
  function BodyOutlines(b: Body): seq<Outline> {
    match b
    case TextBody(_) => []
    case ElementBody(os) => os
  }

  /** An outline that becomes a feed, with the category it is filed under. */
  datatype Leaf = Leaf(node: Outline, category: string)

  /** The `if (x.xmlUrl)` test that makes an outline a feed. */
  predicate IsFeed(o: Outline) {
    Truthy(o.xmlUrl)
  }

  function LeafIn(category: string): Outline -> Leaf {
    o => Leaf(o, category)
  }

  /** The third level: the children of a folder that carry an `xmlUrl`, in
      document order, each filed under `category`. */
  function DeepLeaves(ds: seq<Outline>, category: string): (r: seq<Leaf>)
    ensures r == Map(Filter(ds, IsFeed), LeafIn(category))
    ensures forall l :: l in r <==> l.category == category && l.node in ds && Truthy(l.node.xmlUrl)
  {
    if |ds| == 0 then []
    else
      var rest := DeepLeaves(ds[1..], category);
      if IsFeed(ds[0]) then
        MapAppend([ds[0]], Filter(ds[1..], IsFeed), LeafIn(category));
        [Leaf(ds[0], category)] + rest
      else rest
  }

  /** What one child of a category contributes: itself when it has an
      `xmlUrl` (its own children are ignored), otherwise its direct children
      that have one; nothing deeper is visited. */
  function ChildFeeds(c: Outline, category: string): (r: seq<Leaf>)
    ensures IsFeed(c) ==> r == [Leaf(c, category)]
    ensures !IsFeed(c) ==> r == Map(Filter(c.children, IsFeed), LeafIn(category))
  {
    if IsFeed(c) then [Leaf(c, category)]
    else if |c.children| > 0 then DeepLeaves(c.children, category)
    else []
  }

  function ChildFeedsIn(category: string): Outline -> seq<Leaf> {
    c => ChildFeeds(c, category)
  }

  /** The second level: the children's contributions, in document order. */
  function ChildLeaves(cs: seq<Outline>, category: string): (r: seq<Leaf>)
    ensures r == Flatten(Map(cs, ChildFeedsIn(category)))
    ensures forall l :: l in r <==>
      && l.category == category
      && Truthy(l.node.xmlUrl)
      && (l.node in cs || exists c :: c in cs && !Truthy(c.xmlUrl) && l.node in c.children)
  {
    if |cs| == 0 then []
    else
      var c := cs[0];
      var here := ChildFeeds(c, category);
      var rest := ChildLeaves(cs[1..], category);
      assert forall d :: d in cs <==> d == c || d in cs[1..] by {
        assert cs == [c] + cs[1..];
      }
      assert Map(cs, ChildFeedsIn(category))[1..] == Map(cs[1..], ChildFeedsIn(category));
      here + rest
  }

  /** One top-level outline: without children it is a feed of its own in
      "Uncategorized" (or nothing, without an `xmlUrl`); with children it is
      a category named by its `text`, its own `xmlUrl` is dropped, and its
      children contribute in document order. */
  function TopLeaves(o: Outline): (r: seq<Leaf>)
    ensures |o.children| == 0 ==> (r == [Leaf(o, Uncategorized)] <==> Truthy(o.xmlUrl)) && (r == [] <==> !Truthy(o.xmlUrl))
    ensures |o.children| > 0 ==> r == ChildLeaves(o.children, OrElse(o.text, Uncategorized))
    ensures |o.children| > 0 ==> forall l :: l in r ==> l.node != o && l.category == OrElse(o.text, Uncategorized)
  {
    if |o.children| == 0 then
      if Truthy(o.xmlUrl) then [Leaf(o, Uncategorized)] else []
    else
      var r := ChildLeaves(o.children, OrElse(o.text, Uncategorized));
      forall l | l in r ensures l.node != o {
        if l.node in o.children {
          assert l.node < o;
        } else {
          var c :| c in o.children && !Truthy(c.xmlUrl) && l.node in c.children;
          assert l.node < c < o;
        }
      }
      r
  }

  /** Every top-level outline's leaves, outline after outline. */
  function Leaves(os: seq<Outline>): (r: seq<Leaf>)
    ensures r == Flatten(Map(os, TopLeaves))
    ensures forall l :: l in r ==> Truthy(l.node.xmlUrl) && l.category != ""
  {
    if |os| == 0 then []
    else
      assert Map(os, TopLeaves)[1..] == Map(os[1..], TopLeaves);
      TopLeaves(os[0]) + Leaves(os[1..])
  }

  /** The leaves of two runs of outlines are the leaves of the first
      followed by those of the second. */
  lemma {:induction false} LeavesAppend(a: seq<Outline>, b: seq<Outline>)
    ensures Leaves(a + b) == Leaves(a) + Leaves(b)
  {
    MapAppend(a, b, TopLeaves);
    FlattenAppend(Map(a, TopLeaves), Map(b, TopLeaves));
  }

  /** The same for the children of one category. */
  lemma {:induction false} ChildLeavesAppend(a: seq<Outline>, b: seq<Outline>, category: string)
    ensures ChildLeaves(a + b, category) == ChildLeaves(a, category) + ChildLeaves(b, category)
  {
    MapAppend(a, b, ChildFeedsIn(category));
    FlattenAppend(Map(a, ChildFeedsIn(category)), Map(b, ChildFeedsIn(category)));
  }

  /** A folder inside a category: its feeds are imported in order and filed
      under the category, not the folder. */
  lemma FolderFeedsImported(a: Outline, b: Outline, folder: string, name: string)
    requires IsFeed(a) && IsFeed(b) && name != ""
    ensures var f := Outline(Some(folder), None, None, None, None, [a, b]);
            var c := Outline(Some(name), None, None, None, None, [f]);
            Leaves([c]) == [Leaf(a, name), Leaf(b, name)]
  {
    var f := Outline(Some(folder), None, None, None, None, [a, b]);
    var c := Outline(Some(name), None, None, None, None, [f]);
    assert Filter([a, b], IsFeed) == [a, b] by {
      assert [a, b][1..] == [b];
      assert Filter([b], IsFeed) == [b] + Filter([b][1..], IsFeed);
    }
    assert ChildLeaves([f], name) == ChildFeeds(f, name) + ChildLeaves([f][1..], name);
    assert TopLeaves(c) == [Leaf(a, name), Leaf(b, name)];
    assert Leaves([c]) == TopLeaves(c) + Leaves([c][1..]);
  }

  /** A feed four levels down, in a folder inside a folder inside a category,
      is not imported. */
  lemma FourthLevelDropped(a: Outline, name: string)
    requires IsFeed(a)
    ensures var inner := Outline(None, None, None, None, None, [a]);
            var outer := Outline(None, None, None, None, None, [inner]);
            var c := Outline(Some(name), None, None, None, None, [outer]);
            Leaves([c]) == []
  {
    var inner := Outline(None, None, None, None, None, [a]);
    var outer := Outline(None, None, None, None, None, [inner]);
    var c := Outline(Some(name), None, None, None, None, [outer]);
    assert Filter([inner], IsFeed) == Filter([inner][1..], IsFeed);
    assert ChildLeaves([outer], OrElse(Some(name), Uncategorized)) == ChildFeeds(outer, OrElse(Some(name), Uncategorized)) + ChildLeaves([outer][1..], OrElse(Some(name), Uncategorized));
    assert Leaves([c]) == TopLeaves(c) + Leaves([c][1..]);
  }

  /** `title || text || "Untitled"`. */
  function LeafTitle(o: Outline): (t: string)
    ensures t != ""
    ensures Truthy(o.title) ==> t == o.title.value
    ensures !Truthy(o.title) && Truthy(o.text) ==> t == o.text.value
    ensures !Truthy(o.title) && !Truthy(o.text) ==> t == Untitled
  {
    OrElse(o.title, OrElse(o.text, Untitled))
  }

  /** The record pushed for a leaf, with the id `generateId` returned. */
  function LeafFeed(l: Leaf, id: string): (f: Feed)
    requires Truthy(l.node.xmlUrl)
    ensures f.xmlUrl != "" && f.title != "" && !f.isSelected
  {
    Feed(id, LeafTitle(l.node), l.node.xmlUrl.value, l.node.htmlUrl, l.category,
         None, None, None, Some(l.node), false, None)
  }

  /** `parseOpml`; `freshId(k)` is the id generated for the `k`-th record. */
  function ParseOpml(doc: OpmlDoc, freshId: nat -> string): (r: Result<seq<Feed>, string>)
    ensures r.Failure? <==> !HasBody(doc)
    ensures r.Failure? && doc.OpmlDoc? ==> r.error == MissingBody
    ensures doc.Malformed? ==> r == Failure(doc.message)
    ensures r.Success? ==> |r.value| == |Leaves(BodyOutlines(doc.body.value))|
    ensures r.Success? && BodyOutlines(doc.body.value) == [] ==> r.value == []
    ensures r.Success? ==> forall k :: 0 <= k < |r.value| ==>
      var l := Leaves(BodyOutlines(doc.body.value))[k];
      && r.value[k].id == freshId(k)
      && r.value[k].title == LeafTitle(l.node)
      && Some(r.value[k].xmlUrl) == l.node.xmlUrl && r.value[k].xmlUrl != ""
      && r.value[k].htmlUrl == l.node.htmlUrl
      && r.value[k].category == l.category && r.value[k].category != ""
      && r.value[k].isValid.None? && r.value[k].lastChecked.None? && r.value[k].lastUpdated.None?
      && r.value[k].tags.None?
      && !r.value[k].isSelected
      && r.value[k].originalData == Some(l.node)
  {
    if doc.Malformed? then Failure(doc.message)
    else if !HasBody(doc) then Failure(MissingBody)
    else
      var ls := Leaves(BodyOutlines(doc.body.value));
      assert forall k :: 0 <= k < |ls| ==> ls[k] in ls;
      Success(seq(|ls|, k requires 0 <= k < |ls| => LeafFeed(ls[k], freshId(k))))
  }

  /** `feed.category || "Uncategorized"`. */
  function ExportCategory(f: Feed): (c: string)
    ensures c != ""
    ensures f.category != "" ==> c == f.category
  {
    if f.category == "" then Uncategorized else f.category
  }

  /** The child outline written for one feed. */
  function FeedOutline(f: Feed): (o: Outline)
    ensures o.text == Some(f.title) && o.title == Some(f.title) && o.outlineType == Some("rss")
    ensures o.xmlUrl == Some(f.xmlUrl) && o.htmlUrl == Some(OrElse(f.htmlUrl, ""))
    ensures o.children == []
  {
    Outline(Some(f.title), Some(f.title), Some("rss"), Some(f.xmlUrl), Some(OrElse(f.htmlUrl, "")), [])
  }

  /** The category outline written for one group. */
  function CategoryOutline(name: string, fs: seq<Feed>): Outline {
    Outline(Some(name), None, None, None, None, Map(fs, FeedOutline))
  }

  /** The body `exportOpml` writes: one category outline per group, in
      first-seen category order. */
  function ExportBody(fs: seq<Feed>): seq<Outline> {
    Map(GroupBy(fs, ExportCategory), CategoryOutlineOf)
  }

  /** The body `parser.parse` reads back from the text `exportOpml` writes.
      With no category outline the builder writes an empty `<body/>`, which
      reads back as the empty string. */
  function WrittenBody(fs: seq<Feed>): Body {
    if |fs| == 0 then TextBody("") else ElementBody(ExportBody(fs))
  }

  /** The body lists the categories in first-seen order, each with the
      group's feeds as children in input order. */
  lemma ExportBodyShape(fs: seq<Feed>)
    ensures var os := ExportBody(fs);
            var names := FirstSeenKeys(fs, ExportCategory);
            && |os| == |names|
            && forall i :: 0 <= i < |os| ==>
                 && os[i].text == Some(names[i])
                 && os[i].children == Map(Group(fs, ExportCategory, names[i]), FeedOutline)
                 && |os[i].children| > 0
  {
    var names := FirstSeenKeys(fs, ExportCategory);
    GroupsForIndex(fs, ExportCategory, names);
  }

  /** What survives the trip through the outline tree. */
  datatype Visible = Visible(title: string, xmlUrl: string, htmlUrl: Option<string>, category: string)

  function Shown(f: Feed): Visible {
    Visible(f.title, f.xmlUrl, f.htmlUrl, f.category)
  }

  /** What an exported feed looks like once parsed back: an empty title
      reads as "Untitled", an absent `htmlUrl` as `""`, an empty category as
      "Uncategorized". */
  function Reread(f: Feed): Visible {
    Visible(if f.title == "" then Untitled else f.title, f.xmlUrl, Some(OrElse(f.htmlUrl, "")), ExportCategory(f))
  }

  predicate HasUrl(f: Feed) {
    f.xmlUrl != ""
  }

  /** What a leaf shows once it becomes a record. */
  function LeafShown(l: Leaf): (v: Visible)
    ensures Truthy(l.node.xmlUrl) ==> forall id :: v == Shown(LeafFeed(l, id))
  {
    Visible(LeafTitle(l.node), OrElse(l.node.xmlUrl, ""), l.node.htmlUrl, l.category)
  }

  /** The exported child outline of a feed with an `xmlUrl` reads back as
      that feed's `Reread`. */
  lemma ExportedLeaf(f: Feed, name: string)
    requires HasUrl(f) && ExportCategory(f) == name
    ensures Truthy(FeedOutline(f).xmlUrl)
    ensures LeafShown(Leaf(FeedOutline(f), name)) == Reread(f)
  {
  }

  lemma ChildLeavesStep(cs: seq<Outline>, name: string)
    requires |cs| > 0 && cs[0].children == []
    ensures ChildLeaves(cs, name)
         == (if Truthy(cs[0].xmlUrl) then [Leaf(cs[0], name)] else []) + ChildLeaves(cs[1..], name)
  {
  }

  /** Parsing one exported category outline's children gives back the
      group's feeds that have an `xmlUrl`. */
  lemma {:induction false} ChildLeavesOfExport(fs: seq<Feed>, name: string)
    requires forall f :: f in fs ==> ExportCategory(f) == name
    ensures Map(ChildLeaves(Map(fs, FeedOutline), name), LeafShown) == Map(Filter(fs, HasUrl), Reread)
  {
    var cs := Map(fs, FeedOutline);
    if |fs| > 0 {
      var f := fs[0];
      assert cs[1..] == Map(fs[1..], FeedOutline);
      assert forall g :: g in fs[1..] ==> g in fs;
      ChildLeavesOfExport(fs[1..], name);
      ChildLeavesStep(cs, name);
      var here := if HasUrl(f) then [Leaf(cs[0], name)] else [];
      var kept := if HasUrl(f) then [f] else [];
      assert Filter(fs, HasUrl) == kept + Filter(fs[1..], HasUrl);
      MapAppend(here, ChildLeaves(cs[1..], name), LeafShown);
      MapAppend(kept, Filter(fs[1..], HasUrl), Reread);
      if HasUrl(f) {
        ExportedLeaf(f, name);
      }
      assert Map(here, LeafShown) == Map(kept, Reread);
    }
  }

  lemma LeavesStep(os: seq<Outline>)
    requires |os| > 0
    ensures Leaves(os) == TopLeaves(os[0]) + Leaves(os[1..])
  {
  }

  function CategoryOutlineOf(g: (string, seq<Feed>)): Outline {
    CategoryOutline(g.0, g.1)
  }

  /** Parsing the exported category outlines gives back, group after group,
      the feeds that have an `xmlUrl`. */
  lemma {:induction false} LeavesOfExport(gs: seq<(string, seq<Feed>)>)
    requires forall i :: 0 <= i < |gs| ==> |gs[i].1| > 0
    requires forall i :: 0 <= i < |gs| ==> forall f :: f in gs[i].1 ==> ExportCategory(f) == gs[i].0
    ensures Map(Leaves(Map(gs, CategoryOutlineOf)), LeafShown) == Map(Filter(Members(gs), HasUrl), Reread)
  {
    var os := Map(gs, CategoryOutlineOf);
    if |gs| > 0 {
      assert os[1..] == Map(gs[1..], CategoryOutlineOf);
      LeavesOfExport(gs[1..]);
      LeavesStep(os);
      var g := gs[0];
      assert g.0 == ExportCategory(g.1[0]);
      assert TopLeaves(os[0]) == ChildLeaves(Map(g.1, FeedOutline), g.0);
      ChildLeavesOfExport(g.1, g.0);
      MapAppend(TopLeaves(os[0]), Leaves(os[1..]), LeafShown);
      assert Members(gs) == g.1 + Members(gs[1..]);
      FilterAppend(g.1, Members(gs[1..]), HasUrl);
      MapAppend(Filter(g.1, HasUrl), Filter(Members(gs[1..]), HasUrl), Reread);
    }
  }

  lemma ShownFeeds(ls: seq<Leaf>, freshId: nat -> string)
    requires forall l :: l in ls ==> Truthy(l.node.xmlUrl)
    ensures forall k :: 0 <= k < |ls| ==> ls[k] in ls
    ensures Map(seq(|ls|, k requires 0 <= k < |ls| => LeafFeed(ls[k], freshId(k))), Shown) == Map(ls, LeafShown)
  {
    assert forall k :: 0 <= k < |ls| ==> ls[k] in ls;
  }

  /** Round trip on the outline tree: parsing the exported body fails with
      "missing body" for an empty list and otherwise succeeds and gives back
      the feeds that have an `xmlUrl`, in grouped order, with their title,
      `xmlUrl`, `htmlUrl` and category as the export wrote them. */
  lemma RoundTrip(fs: seq<Feed>, freshId: nat -> string)
    ensures var r := ParseOpml(OpmlDoc(Some(WrittenBody(fs))), freshId);
            && (r.Success? <==> |fs| > 0)
            && (|fs| == 0 ==> r == Failure(MissingBody))
            && (r.Success? ==> Map(r.value, Shown) == Map(Filter(Members(GroupBy(fs, ExportCategory)), HasUrl), Reread))
  {
    if |fs| == 0 {
      return;
    }
    var gs := GroupBy(fs, ExportCategory);
    var names := FirstSeenKeys(fs, ExportCategory);
    GroupsForIndex(fs, ExportCategory, names);
    LeavesOfExport(gs);
    var ls := Leaves(ExportBody(fs));
    ShownFeeds(ls, freshId);
  }

  /** The part of a record a reader of the list sees. */
  function Triple(f: Feed): (string, string, string) {
    (f.title, f.xmlUrl, f.category)
  }

  function VisibleTriple(v: Visible): (string, string, string) {
    (v.title, v.xmlUrl, v.category)
  }

  lemma TriplesOfShown(fs: seq<Feed>)
    ensures Map(fs, Triple) == Map(Map(fs, Shown), VisibleTriple)
  {
  }

  lemma TriplesOfReread(fs: seq<Feed>)
    requires forall f :: f in fs ==> f.title != "" && f.category != ""
    ensures Map(fs, Triple) == Map(Map(fs, Reread), VisibleTriple)
  {
    assert forall i :: 0 <= i < |fs| ==> fs[i] in fs;
  }

  /** For feeds whose title, `xmlUrl` and category are all non-empty, the
      round trip of a non-empty list gives back the same (title, `xmlUrl`,
      category) triples, as a rearrangement of the input. */
  lemma RoundTripTriples(fs: seq<Feed>, freshId: nat -> string)
    requires forall f :: f in fs ==> f.title != "" && f.xmlUrl != "" && f.category != ""
    ensures var r := ParseOpml(OpmlDoc(Some(WrittenBody(fs))), freshId);
            && (r.Success? <==> |fs| > 0)
            && (r.Success? ==> multiset(Map(r.value, Triple)) == multiset(Map(fs, Triple)))
  {
    RoundTrip(fs, freshId);
    if |fs| == 0 {
      return;
    }
    var r := ParseOpml(OpmlDoc(Some(WrittenBody(fs))), freshId);
    var ms := Members(GroupBy(fs, ExportCategory));
    GroupByPartition(fs, ExportCategory);
    assert forall f :: f in ms ==> f in fs by {
      forall f | f in ms ensures f in fs {
        assert f in multiset(ms);
      }
    }
    FilterAll(ms, HasUrl);
    TriplesOfShown(r.value);
    TriplesOfReread(ms);
    MapPreservesMultiset(ms, fs, Triple);
  }
}
