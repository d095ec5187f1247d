/** `exportToJson` and `parseJson` at the level of the records
    `JSON.stringify` writes and `JSON.parse` reads back. The conversions
    between a time value and its ISO text are parameters: `iso(ms)` is
    `toISOString()` of a valid date, `parseDate(s)` is `new Date(s)`. */
module JsonCodec {
  import opened Wrappers
  import opened Types
  import opened Grouping

  const Version := "1.0"
  const ErrorPrefix := "Failed to parse JSON: "
  /** What `${error}` prints for the error thrown on a missing feeds array. */
  const MissingFeeds := "Error: Invalid JSON format: missing feeds array"
  /** What `${error}` prints when `JSON.parse` returns `null` and `.feeds` is read from it. */
  const NullDocument := "TypeError: Cannot read properties of null (reading 'feeds')"
  /** What `toISOString()` throws for an invalid date. */
  const InvalidTime := "RangeError: Invalid time value"

  /** A feed as it appears in the JSON text: `lastChecked` is the ISO text
      (or absent), `lastUpdated` has gone through `Date.prototype.toJSON`. */
  datatype JsonFeed = JsonFeed(
    id: string,
    title: string,
    xmlUrl: string,
    htmlUrl: Option<string>,
    category: string,
    isValid: Option<bool>,
    lastChecked: Option<string>,
    lastUpdated: Option<Stamp>,
    originalData: Option<Outline>,
    isSelected: bool,
    tags: Option<seq<string>>)

  /** The `feeds` member of the parsed value. */
  datatype FeedsField = Missing | NotAnArray | FeedArray(items: seq<JsonFeed>)

  /** The `JsonExportData` object. */
  datatype Envelope = Envelope(version: string, exportDate: string, feeds: FeedsField)

  /** The outcome of `JSON.parse`: a syntax error, `null`, or an object
      (any other non-null value reads as an object without `feeds`). */
  datatype JsonDoc = Malformed(error: string) | NullDoc | Doc(data: Envelope)

  /** `Date.prototype.toJSON` applied by `JSON.stringify`: a valid date
      becomes its ISO text, an invalid one `null`; text stays as it is. */
  function StampToJson(s: Stamp, iso: int -> string): (j: Stamp)
    ensures !j.DateStamp?
    ensures !s.DateStamp? ==> j == s
  {
    match s
    case DateStamp(Time(ms)) => TextStamp(iso(ms))
    case DateStamp(InvalidDate) => NullStamp
    case _ => s
  }

  function LastUpdatedToJson(s: Option<Stamp>, iso: int -> string): Option<Stamp> {
    match s
    case None => None
    case Some(st) => Some(StampToJson(st, iso))
  }

  /** The fields `...feed` copies unchanged in both directions. */
  predicate SameFields(f: Feed, j: JsonFeed) {
    && f.id == j.id && f.title == j.title && f.xmlUrl == j.xmlUrl && f.htmlUrl == j.htmlUrl
    && f.category == j.category && f.isValid == j.isValid && f.originalData == j.originalData
    && f.tags == j.tags
  }

  /** `{ ...feed, lastChecked: feed.lastChecked?.toISOString() }`, which
      throws on an invalid date. */
  function ToJsonFeed(f: Feed, iso: int -> string): (r: Result<JsonFeed, string>)
    ensures r.Failure? <==> f.lastChecked == Some(InvalidDate)
    ensures r.Failure? ==> r.error == InvalidTime
    ensures r.Success? ==> (r.value.lastChecked.None? <==> f.lastChecked.None?)
    ensures r.Success? && f.lastChecked.Some? ==> r.value.lastChecked == Some(iso(f.lastChecked.value.ms))
    ensures r.Success? ==> SameFields(f, r.value) && r.value.isSelected == f.isSelected
    ensures r.Success? ==> r.value.lastUpdated == LastUpdatedToJson(f.lastUpdated, iso)
  {
    var checked: Result<Option<string>, string> :=
      match f.lastChecked
      case None => Success(None)
      case Some(Time(ms)) => Success(Some(iso(ms)))
      case Some(InvalidDate) => Failure(InvalidTime);
    if checked.Failure? then Failure(checked.error)
    else Success(JsonFeed(f.id, f.title, f.xmlUrl, f.htmlUrl, f.category, f.isValid, checked.value,
                          LastUpdatedToJson(f.lastUpdated, iso), f.originalData, f.isSelected, f.tags))
  }

  predicate HasInvalidCheck(f: Feed) {
    f.lastChecked == Some(InvalidDate)
  }

  /** `feeds.map(...)`: the first invalid `lastChecked` aborts the export. */
  function ToJsonFeeds(fs: seq<Feed>, iso: int -> string): (r: Result<seq<JsonFeed>, string>)
    ensures r.Failure? <==> exists f :: f in fs && HasInvalidCheck(f)
    ensures r.Failure? ==> r.error == InvalidTime
    ensures r.Success? ==> |r.value| == |fs|
    ensures r.Success? ==> forall i :: 0 <= i < |fs| ==> Success(r.value[i]) == ToJsonFeed(fs[i], iso)
  {
    if |fs| == 0 then Success([])
    else
      var head := ToJsonFeed(fs[0], iso);
      var tail := ToJsonFeeds(fs[1..], iso);
      assert forall f :: f in fs <==> f == fs[0] || f in fs[1..] by {
        assert fs == [fs[0]] + fs[1..];
      }
      if head.Failure? then
        assert fs[0] in fs && HasInvalidCheck(fs[0]);
        Failure(head.error)
      else if tail.Failure? then Failure(tail.error)
      else Success([head.value] + tail.value)
  }

  /** `exportToJson`; `now` is the ISO text of the export time. */
  function ExportToJson(fs: seq<Feed>, now: string, iso: int -> string): (r: Result<Envelope, string>)
    ensures r.Failure? <==> exists f :: f in fs && HasInvalidCheck(f)
    ensures r.Failure? ==> r.error == InvalidTime
    ensures r.Success? ==> r.value.version == Version && r.value.exportDate == now
    ensures r.Success? ==> r.value.feeds.FeedArray? && |r.value.feeds.items| == |fs|
    ensures r.Success? ==> forall i :: 0 <= i < |fs| ==>
      var j := r.value.feeds.items[i];
      && SameFields(fs[i], j) && j.isSelected == fs[i].isSelected
      && j.lastUpdated == LastUpdatedToJson(fs[i].lastUpdated, iso)
      && (fs[i].lastChecked.None? ==> j.lastChecked.None?)
      && (fs[i].lastChecked.Some? ==>
            fs[i].lastChecked.value.Time? && j.lastChecked == Some(iso(fs[i].lastChecked.value.ms)))
  {
    var items := ToJsonFeeds(fs, iso);
    if items.Failure? then Failure(items.error)
    else Success(Envelope(Version, now, FeedArray(items.value)))
  }

  /** `{ ...feed, lastChecked: feed.lastChecked ? new Date(...) : undefined, isSelected: false }`. */
  function FromJsonFeed(j: JsonFeed, parseDate: string -> Date): (f: Feed)
    ensures !f.isSelected
    ensures SameFields(f, j)
    ensures f.lastChecked.Some? <==> Truthy(j.lastChecked)
    ensures Truthy(j.lastChecked) ==> f.lastChecked == Some(parseDate(j.lastChecked.value))
    ensures f.lastUpdated == j.lastUpdated
  {
    Feed(j.id, j.title, j.xmlUrl, j.htmlUrl, j.category, j.isValid,
         if Truthy(j.lastChecked) then Some(parseDate(j.lastChecked.value)) else None,
         j.lastUpdated, j.originalData, false, j.tags)
  }

  /** `parseJson`: every failure comes back with the same prefix. */
  function ParseJson(doc: JsonDoc, parseDate: string -> Date): (r: Result<seq<Feed>, string>)
    ensures r.Success? <==> doc.Doc? && doc.data.feeds.FeedArray?
    ensures r.Failure? ==> |r.error| >= |ErrorPrefix| && r.error[..|ErrorPrefix|] == ErrorPrefix
    ensures doc.Doc? && !doc.data.feeds.FeedArray? ==> r == Failure(ErrorPrefix + MissingFeeds)
    ensures r.Success? ==> |r.value| == |doc.data.feeds.items|
    ensures r.Success? ==> forall i :: 0 <= i < |r.value| ==>
      var j := doc.data.feeds.items[i];
      && !r.value[i].isSelected
      && SameFields(r.value[i], j)
      && r.value[i].lastChecked == (if Truthy(j.lastChecked) then Some(parseDate(j.lastChecked.value)) else None)
      && r.value[i].lastUpdated == j.lastUpdated
  {
    match doc
    case Malformed(e) => Failure(ErrorPrefix + e)
    case NullDoc => Failure(ErrorPrefix + NullDocument)
    case Doc(data) =>
      if !data.feeds.FeedArray? then Failure(ErrorPrefix + MissingFeeds)
      else Success(Map(data.feeds.items, (j: JsonFeed) => FromJsonFeed(j, parseDate)))
  }

  /** What a record looks like after export and import: unselected, and with
      `lastUpdated` left as the JSON text it was written as. */
  function Reimported(f: Feed, iso: int -> string): Feed {
    f.(isSelected := false, lastUpdated := LastUpdatedToJson(f.lastUpdated, iso))
  }

  /** The ISO conversions invert each other on valid dates and never give
      empty text. */
  ghost predicate IsoInverse(iso: int -> string, parseDate: string -> Date) {
    forall ms :: iso(ms) != "" && parseDate(iso(ms)) == Time(ms)
  }

  lemma FeedRoundTrip(f: Feed, iso: int -> string, parseDate: string -> Date)
    requires IsoInverse(iso, parseDate)
    requires !HasInvalidCheck(f)
    ensures ToJsonFeed(f, iso).Success?
    ensures FromJsonFeed(ToJsonFeed(f, iso).value, parseDate) == Reimported(f, iso)
  {
    if f.lastChecked.Some? {
      var ms := f.lastChecked.value.ms;
      assert iso(ms) != "" && parseDate(iso(ms)) == Time(ms);
    }
  }

  /** Importing an export gives back every record in order, unselected, with
      `lastChecked` restored; `lastUpdated` is not turned back into a date. */
  lemma RoundTrip(fs: seq<Feed>, now: string, iso: int -> string, parseDate: string -> Date)
    requires IsoInverse(iso, parseDate)
    requires forall f :: f in fs ==> !HasInvalidCheck(f)
    ensures ExportToJson(fs, now, iso).Success?
    ensures ParseJson(Doc(ExportToJson(fs, now, iso).value), parseDate)
         == Success(Map(fs, (f: Feed) => Reimported(f, iso)))
  {
    var env := ExportToJson(fs, now, iso).value;
    var items := env.feeds.items;
    assert items == ToJsonFeeds(fs, iso).value;
    forall i | 0 <= i < |fs|
      ensures FromJsonFeed(items[i], parseDate) == Reimported(fs[i], iso)
    {
      assert fs[i] in fs;
      assert Success(items[i]) == ToJsonFeed(fs[i], iso);
      FeedRoundTrip(fs[i], iso, parseDate);
    }
    var got := ParseJson(Doc(env), parseDate).value;
    var want := Map(fs, (f: Feed) => Reimported(f, iso));
    assert |got| == |want|;
    assert forall i :: 0 <= i < |got| ==> got[i] == want[i];
    assert got == want;
    assert ParseJson(Doc(env), parseDate).Success?;
  }

  /** Export after import is stable: a second round trip changes nothing. */
  lemma ReimportedIdempotent(f: Feed, iso: int -> string)
    ensures Reimported(Reimported(f, iso), iso) == Reimported(f, iso)
  {
  }
}
