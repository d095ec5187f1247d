/** The entry points of `useOpml` that tie the parsers and writers to the
    undo history: import replaces the whole history only when parsing
    succeeds, export refuses an empty selection. */
module Session {
  import opened Wrappers
  import opened Types
  import opened Seqs
  import opened History
  import Opml
  import JsonCodec
  import Collection
  import Grouping

  type Editor = History<seq<Feed>>

  /** The `{ success, count }` or `{ success: false, error }` object. */
  datatype Outcome = Done(count: nat) | Failed(error: string)

  const NoFeedsToExport := "No feeds to export"

  /** `String(error)` for an `Error` carrying `message`. */
  function ErrorText(message: string): string {
    "Error: " + message
  }

  /** The shared body of `importOpml` and `importJson`. */
  function Import(h: Editor, parsed: Result<seq<Feed>, string>): (r: (Editor, Outcome))
    ensures parsed.Success? ==> r.0 == Reset(parsed.value) && r.1 == Done(|parsed.value|)
    ensures parsed.Failure? ==> r.0 == h && r.1 == Failed(ErrorText(parsed.error))
  {
    if parsed.Success? then (Reset(parsed.value), Done(|parsed.value|))
    else (h, Failed(ErrorText(parsed.error)))
  }

  /** `importOpml`: unreadable text or a document without a body leaves
      the history as it was. */
  function ImportOpml(h: Editor, doc: Opml.OpmlDoc, freshId: nat -> string): (r: (Editor, Outcome))
    ensures r.1.Done? <==> Opml.HasBody(doc)
    ensures doc.Malformed? ==> r == (h, Failed(ErrorText(doc.message)))
    ensures doc.OpmlDoc? && !Opml.HasBody(doc) ==> r == (h, Failed(ErrorText(Opml.MissingBody)))
    ensures Opml.HasBody(doc) ==> Valid(r.0) && !CanUndo(r.0) && !CanRedo(r.0)
    ensures Opml.HasBody(doc) ==> r.1.count == |Current(r.0)| == |Opml.Leaves(Opml.BodyOutlines(doc.body.value))|
  {
    Import(h, Opml.ParseOpml(doc, freshId))
  }

  /** `importJson`: any parse failure leaves the history as it was. */
  function ImportJson(h: Editor, doc: JsonCodec.JsonDoc, parseDate: string -> Date): (r: (Editor, Outcome))
    ensures r.1.Done? <==> doc.Doc? && doc.data.feeds.FeedArray?
    ensures r.1.Failed? ==> r.0 == h
    ensures r.1.Done? ==> Valid(r.0) && !CanUndo(r.0) && !CanRedo(r.0)
    ensures r.1.Done? ==> r.1.count == |Current(r.0)| == |doc.data.feeds.items|
    ensures r.1.Done? ==> forall f :: f in Current(r.0) ==> !f.isSelected
  {
    var parsed := JsonCodec.ParseJson(doc, parseDate);
    assert parsed.Success? ==> forall f :: f in parsed.value ==> !f.isSelected by {
      if parsed.Success? {
        forall f | f in parsed.value ensures !f.isSelected {
          var i :| 0 <= i < |parsed.value| && parsed.value[i] == f;
        }
      }
    }
    Import(h, parsed)
  }

  /** `selectedOnly ? feeds.filter((f) => f.isSelected) : feeds`. */
  function ExportSubset(fs: seq<Feed>, selectedOnly: bool): (s: seq<Feed>)
    ensures !selectedOnly ==> s == fs
    ensures Subseq(s, fs)
    ensures forall f :: f in s <==> f in fs && (selectedOnly ==> f.isSelected)
    ensures forall f :: multiset(s)[f] == if selectedOnly && !f.isSelected then 0 else multiset(fs)[f]
  {
    if selectedOnly then
      FilterIsSubseq(fs, Collection.IsSelected);
      forall f ensures multiset(Filter(fs, Collection.IsSelected))[f] == if !f.isSelected then 0 else multiset(fs)[f] {
        FilterMultiplicity(fs, Collection.IsSelected, f);
      }
      Filter(fs, Collection.IsSelected)
    else
      SubseqRefl(fs);
      fs
  }

  /** `exportFeeds`: the outline body written, or the refusal of an empty
      subset. */
  function ExportFeeds(fs: seq<Feed>, selectedOnly: bool): (r: Result<seq<Outline>, string>)
    ensures r.Failure? <==> ExportSubset(fs, selectedOnly) == []
    ensures r.Failure? ==> r.error == NoFeedsToExport
    ensures r.Success? ==> r.value == Opml.ExportBody(ExportSubset(fs, selectedOnly))
  {
    var s := ExportSubset(fs, selectedOnly);
    if |s| == 0 then Failure(NoFeedsToExport) else Success(Opml.ExportBody(s))
  }

  /** `exportFeedsAsJson`: an empty subset is refused, an invalid
      `lastChecked` is caught and reported. */
  function ExportFeedsAsJson(fs: seq<Feed>, selectedOnly: bool, now: string, iso: int -> string)
    : (r: Result<JsonCodec.Envelope, string>)
    ensures var s := ExportSubset(fs, selectedOnly);
            && (s == [] ==> r == Failure(NoFeedsToExport))
            && ((s != [] && exists f :: f in s && JsonCodec.HasInvalidCheck(f)) ==>
                  r == Failure(JsonCodec.InvalidTime))
            && (r.Success? <==> s != [] && forall f :: f in s ==> !JsonCodec.HasInvalidCheck(f))
            && (r.Success? ==> r.value.feeds.FeedArray? && |r.value.feeds.items| == |s|)
  {
    var s := ExportSubset(fs, selectedOnly);
    if |s| == 0 then Failure(NoFeedsToExport)
    else
      var e := JsonCodec.ExportToJson(s, now, iso);
      if e.Failure? then Failure(e.error) else e
  }

  /** Exporting the JSON and importing it again replaces the history with
      the exported subset, unselected and in order. */
  lemma JsonExportImport(h: Editor, fs: seq<Feed>, selectedOnly: bool, now: string,
                         iso: int -> string, parseDate: string -> Date)
    requires JsonCodec.IsoInverse(iso, parseDate)
    requires forall f :: f in fs ==> !JsonCodec.HasInvalidCheck(f)
    requires ExportSubset(fs, selectedOnly) != []
    ensures ExportFeedsAsJson(fs, selectedOnly, now, iso).Success?
    ensures var r := ImportJson(h, JsonCodec.Doc(ExportFeedsAsJson(fs, selectedOnly, now, iso).value), parseDate);
            && r.1 == Done(|ExportSubset(fs, selectedOnly)|)
            && r.0 == Reset(Grouping.Map(ExportSubset(fs, selectedOnly), (f: Feed) => JsonCodec.Reimported(f, iso)))
  {
    var s := ExportSubset(fs, selectedOnly);
    JsonCodec.RoundTrip(s, now, iso, parseDate);
  }
}
