/** The records of the editor: the outline node the XML library hands back
    and the flat feed record built from it. */
module Types {
  import opened Wrappers

  /** A JavaScript `Date`: a millisecond time value, or an invalid date
      (`new Date("garbage")`). */
  datatype Date = Time(ms: int) | InvalidDate

  /** What a feed's `lastUpdated` can hold: a `Date`, or, after a JSON import,
      the raw text (or `null`) it was serialised to. */
  datatype Stamp = DateStamp(date: Date) | TextStamp(text: string) | NullStamp

  /** An `<outline>` element as the XML library returns it: its attributes
      and its child outlines (one child and many children both become a
      sequence; no child element at all is the empty sequence). */
  datatype Outline = Outline(
    text: Option<string>,
    title: Option<string>,
    outlineType: Option<string>,
    xmlUrl: Option<string>,
    htmlUrl: Option<string>,
    children: seq<Outline>)

  /** One subscription (`FeedItem`), with the optional `tags` list the table edits. */
  datatype Feed = Feed(
    id: string,
    title: string,
    xmlUrl: string,
    htmlUrl: Option<string>,
    category: string,
    isValid: Option<bool>,
    lastChecked: Option<Date>,
    lastUpdated: Option<Stamp>,
    originalData: Option<Outline>,
    isSelected: bool,
    tags: Option<seq<string>>)

  /** JavaScript truthiness of an optional string attribute. */
  predicate Truthy(s: Option<string>) {
    s.Some? && s.value != ""
  }

  /** `s || fallback` for an optional string. */
  function OrElse(s: Option<string>, fallback: string): (r: string)
    ensures Truthy(s) ==> r == s.value
    ensures !Truthy(s) ==> r == fallback
  {
    if Truthy(s) then s.value else fallback
  }

  /** `a || b || ...` over optional strings, then a truthiness test: the
      first non-empty candidate in priority order, if any. */
  function FirstTruthy(xs: seq<Option<string>>): (r: Option<string>)
    ensures r.None? <==> forall i :: 0 <= i < |xs| ==> !Truthy(xs[i])
    ensures r.Some? ==> exists i :: 0 <= i < |xs| && xs[i] == r && forall j :: 0 <= j < i ==> !Truthy(xs[j])
    ensures r.Some? ==> r.value != ""
  {
    if |xs| == 0 then None
    else if Truthy(xs[0]) then xs[0]
    else
      var r := FirstTruthy(xs[1..]);
      assert r.Some? ==> exists i :: 0 <= i < |xs| && xs[i] == r && forall j :: 0 <= j < i ==> !Truthy(xs[j]) by {
        if r.Some? {
          var i :| 0 <= i < |xs[1..]| && xs[1..][i] == r && forall j :: 0 <= j < i ==> !Truthy(xs[1..][j]);
          assert xs[i + 1] == r;
          assert forall j :: 0 <= j < i + 1 ==> !Truthy(xs[j]) by {
            forall j | 0 <= j < i + 1 ensures !Truthy(xs[j]) {
              if j > 0 { assert xs[j] == xs[1..][j - 1]; }
            }
          }
        }
      }
      assert r.None? ==> forall i :: 0 <= i < |xs| ==> !Truthy(xs[i]) by {
        if r.None? {
          forall i | 0 <= i < |xs| ensures !Truthy(xs[i]) {
            if i > 0 { assert xs[i] == xs[1..][i - 1]; }
          }
        }
      }
      r
  }

  /** The first truthy candidate is the one chosen. */
  lemma FirstTruthyAt(xs: seq<Option<string>>, i: nat)
    requires i < |xs| && Truthy(xs[i])
    requires forall j :: 0 <= j < i ==> !Truthy(xs[j])
    ensures FirstTruthy(xs) == xs[i]
  {
    var r := FirstTruthy(xs);
    var k :| 0 <= k < |xs| && xs[k] == r && forall j :: 0 <= j < k ==> !Truthy(xs[j]);
    assert Truthy(xs[k]);
  }
}
