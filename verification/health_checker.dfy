/** `checkFeedHealth`, `extractDateFromFeed`, `formatDate` and
    `batchCheckFeeds`. The proxy request, `response.json()`, `DOMParser`,
    the selector queries, `new Date` and the local-time getters are outside
    the model: their outcomes are inputs. */
module HealthChecker {
  import opened Wrappers
  import opened Types
  import opened Text
  import Batches

  /** The default `concurrencyLimit`. */
  const DefaultConcurrency: nat := 5

  const NoContent := "无法获取内容"
  const ParseError := "解析错误"
  const NoDate := "未找到日期"
  const UnknownError := "未知错误"

  /** `lastUpdated` is a `YYYY-MM-DD` text, or `null` when the check failed. */
  datatype HealthResult = HealthResult(success: bool, lastUpdated: Option<string>, error: Option<string>)

  /** The `textContent` of the first match of each selector, `None` when nothing matches. */
  datatype DateFields = DateFields(
    channelLastBuildDate: Option<string>,   // channel > lastBuildDate
    itemPubDate: Option<string>,            // channel > item > pubDate
    feedUpdated: Option<string>,            // feed > updated
    entryUpdated: Option<string>,           // feed > entry > updated
    entryPublished: Option<string>)         // feed > entry > published

  /** What the proxy request did: a non-ok response, an ok response with
      the `contents` member and what parsing it found, or an exception
      (with its message when it was an `Error`). */
  datatype ProxyOutcome =
    | NotOk(status: int)
    | Fetched(contents: Option<string>, parserError: bool, fields: DateFields)
    | Threw(message: Option<string>)

  /** The local calendar date of a time value: `getFullYear()`,
      `getMonth()` (0-based) and `getDate()`. */
  datatype Calendar = Calendar(year: int, month: nat, day: nat)

  predicate ValidCalendar(d: Calendar) {
    d.month < 12 && 1 <= d.day <= 31
  }

  /** `extractDateFromFeed`: the RSS 2.0 channel `lastBuildDate`, then the
      first item's `pubDate`, then the Atom feed's `updated` (section 4.2.15
      of RFC 4287), then the first entry's `updated`, then its `published`
      (section 4.2.9). */
  function ExtractDate(f: DateFields): (r: Option<string>)
    ensures r.Some? ==> r.value != ""
    ensures Truthy(f.channelLastBuildDate) ==> r == f.channelLastBuildDate
    ensures !Truthy(f.channelLastBuildDate) && Truthy(f.itemPubDate) ==> r == f.itemPubDate
    ensures !Truthy(f.channelLastBuildDate) && !Truthy(f.itemPubDate) && Truthy(f.feedUpdated) ==> r == f.feedUpdated
    ensures (!Truthy(f.channelLastBuildDate) && !Truthy(f.itemPubDate) && !Truthy(f.feedUpdated)
             && Truthy(f.entryUpdated)) ==> r == f.entryUpdated
    ensures (!Truthy(f.channelLastBuildDate) && !Truthy(f.itemPubDate) && !Truthy(f.feedUpdated)
             && !Truthy(f.entryUpdated)) ==> r == (if Truthy(f.entryPublished) then f.entryPublished else None)
  {
    var xs := [f.channelLastBuildDate, f.itemPubDate, f.feedUpdated, f.entryUpdated, f.entryPublished];
    if Truthy(xs[0]) then FirstTruthyAt(xs, 0); FirstTruthy(xs)
    else if Truthy(xs[1]) then FirstTruthyAt(xs, 1); FirstTruthy(xs)
    else if Truthy(xs[2]) then FirstTruthyAt(xs, 2); FirstTruthy(xs)
    else if Truthy(xs[3]) then FirstTruthyAt(xs, 3); FirstTruthy(xs)
    else if Truthy(xs[4]) then FirstTruthyAt(xs, 4); FirstTruthy(xs)
    else FirstTruthy(xs)
  }

  /** `${year}-${month}-${day}` with the month 1-based and both padded to two digits. */
  function Ymd(d: Calendar): string {
    IntToString(d.year) + "-" + Pad2(d.month + 1) + "-" + Pad2(d.day)
  }

  /** `formatDate`: a text that does not parse comes back unchanged. */
  function FormatDate(s: string, parseDate: string -> Date, local: int -> Calendar): (r: string)
    ensures parseDate(s).InvalidDate? ==> r == s
    ensures parseDate(s).Time? ==> r == Ymd(local(parseDate(s).ms))
  {
    match parseDate(s)
    case InvalidDate => s
    case Time(ms) => Ymd(local(ms))
  }

  /** Where the parts sit in `y-mm-dd` when both `mm` and `dd` have two characters. */
  lemma DashLayout(y: string, m: string, dd: string)
    requires |m| == 2 && |dd| == 2
    requires forall i :: 0 <= i < |y| ==> '0' <= y[i] <= '9'
    ensures var r := y + "-" + m + "-" + dd;
            && |r| == |y| + 6
            && r[|r| - 3] == '-' && r[|r| - 6] == '-'
            && (forall i :: 0 <= i < |r| - 6 ==> '0' <= r[i] <= '9')
            && r[|r| - 2..] == dd && r[|r| - 5..|r| - 3] == m && r[..|r| - 6] == y
  {
    var r := y + "-" + m + "-" + dd;
    assert r[|r| - 2..] == dd;
    assert r[|r| - 5..|r| - 3] == m;
    assert r[..|r| - 6] == y;
  }

  predicate AllDigits(s: string) {
    forall i :: 0 <= i < |s| ==> '0' <= s[i] <= '9'
  }

  /** `r` reads back as `year-month-day`: two dashes three and six places
      from the end, decimal digits in the three parts, and these values. */
  predicate ReadsBack(r: string, year: nat, month: nat, day: nat) {
    && |r| >= 7
    && r[|r| - 3] == '-' && r[|r| - 6] == '-'
    && AllDigits(r[..|r| - 6]) && AllDigits(r[|r| - 5..|r| - 3]) && AllDigits(r[|r| - 2..])
    && DigitsValue(r[..|r| - 6]) == year
    && DigitsValue(r[|r| - 5..|r| - 3]) == month
    && DigitsValue(r[|r| - 2..]) == day
  }

  lemma ReadBackParts(y: string, m: string, dd: string, year: nat, month: nat, day: nat)
    requires |y| >= 1 && |m| == 2 && |dd| == 2
    requires AllDigits(y) && AllDigits(m) && AllDigits(dd)
    requires DigitsValue(y) == year && DigitsValue(m) == month && DigitsValue(dd) == day
    ensures ReadsBack(y + "-" + m + "-" + dd, year, month, day)
  {
    DashLayout(y, m, dd);
  }

  /** Reading `Y-MM-DD` back: the last two digits are the day, the two
      before the second dash the 1-based month, and what precedes the first
      dash the year. */
  lemma YmdReadsBack(d: Calendar)
    requires ValidCalendar(d) && d.year >= 0
    ensures ReadsBack(Ymd(d), d.year, d.month + 1, d.day)
  {
    YearPart(d.year);
    PaddedPart(d.month + 1);
    PaddedPart(d.day);
    ReadBackParts(IntToString(d.year), Pad2(d.month + 1), Pad2(d.day), d.year, d.month + 1, d.day);
  }

  lemma YearPart(year: nat)
    ensures |IntToString(year)| >= 1 && AllDigits(IntToString(year))
    ensures DigitsValue(IntToString(year)) == year
  {
    NatToStringRoundTrip(year);
  }

  lemma PaddedPart(n: nat)
    requires n < 100
    ensures |Pad2(n)| == 2 && AllDigits(Pad2(n)) && DigitsValue(Pad2(n)) == n
  {
    Pad2RoundTrip(n);
  }

  /** `checkFeedHealth`: it never throws; success always carries a date. */
  function CheckFeedHealth(o: ProxyOutcome, parseDate: string -> Date, local: int -> Calendar): (r: HealthResult)
    ensures r.success <==> r.lastUpdated.Some?
    ensures r.success <==> r.error.None?
    ensures r.success <==> o.Fetched? && Truthy(o.contents) && !o.parserError && ExtractDate(o.fields).Some?
    ensures o.NotOk? ==> r.error == Some("HTTP " + IntToString(o.status))
    ensures o.Fetched? && !Truthy(o.contents) ==> r.error == Some(NoContent)
    ensures o.Fetched? && Truthy(o.contents) && o.parserError ==> r.error == Some(ParseError)
    ensures o.Fetched? && Truthy(o.contents) && !o.parserError && ExtractDate(o.fields).None? ==> r.error == Some(NoDate)
    ensures r.success ==> r.lastUpdated == Some(FormatDate(ExtractDate(o.fields).value, parseDate, local))
    ensures o.Threw? ==> r.error == Some(if o.message.Some? then o.message.value else UnknownError)
  {
    match o
    case NotOk(status) => HealthResult(false, None, Some("HTTP " + IntToString(status)))
    case Fetched(contents, parserError, fields) =>
      if !Truthy(contents) then HealthResult(false, None, Some(NoContent))
      else if parserError then HealthResult(false, None, Some(ParseError))
      else
        var date := ExtractDate(fields);
        if date.None? then HealthResult(false, None, Some(NoDate))
        else HealthResult(true, Some(FormatDate(date.value, parseDate, local)), None)
    case Threw(message) => HealthResult(false, None, Some(if message.Some? then message.value else UnknownError))
  }

  /** `batchCheckFeeds`: slices of `limit` URLs; within a slice the results
      are stored in input order once all of the slice has finished, so a
      later duplicate overwrites an earlier one. */
  method BatchCheckFeeds(urls: seq<string>, limit: nat, outcomes: seq<ProxyOutcome>,
                         parseDate: string -> Date, local: int -> Calendar)
    returns (results: map<string, HealthResult>, trace: seq<Batches.Event>)
    requires |outcomes| == |urls|
    requires limit >= 1
    ensures trace == Batches.Trace(Batches.Range(|urls|), limit, 0)
    ensures forall u :: u in results <==> u in urls
    ensures forall k :: 0 <= k < |urls| && (forall k' :: k < k' < |urls| ==> urls[k'] != urls[k]) ==>
      results[urls[k]] == CheckFeedHealth(outcomes[k], parseDate, local)
  {
    var checked := seq(|urls|, k requires 0 <= k < |urls| => CheckFeedHealth(outcomes[k], parseDate, local));
    var order := Batches.Range(|urls|);
    Batches.InputOrderRespectsChunks(|urls|, limit);
    results, trace := Batches.RunBatches(urls, limit, checked, order);
    forall k | 0 <= k < |urls| && (forall k' :: k < k' < |urls| ==> urls[k'] != urls[k])
      ensures results[urls[k]] == CheckFeedHealth(outcomes[k], parseDate, local)
    {
      assert order[k] == k;
      assert Batches.LastFor(urls, order, |urls|, k);
    }
  }
}
