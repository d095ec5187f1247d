/** `validateRssUrl` as a decision over what the network did, and
    `validateMultipleRssUrls` as the chunked loop with ten probes per slice.
    `new URL`, `fetch`, the abort timer, the regular expressions and
    `new Date` are outside the model: their outcomes are inputs. */
module RssValidator {
  import opened Wrappers
  import opened Types
  import opened Text
  import Batches

  /** The slice size `validateMultipleRssUrls` passes. */
  const Concurrency: nat := 10

  const InvalidProtocol := "Invalid URL protocol"
  const Unreachable := "Cannot reach URL (CORS/Network)"
  const Timeout := "Timeout (>5s)"
  const NetworkError := "Network error"

  datatype ValidationResult = ValidationResult(
    isValid: bool,
    status: Option<int>,
    error: Option<string>,
    lastUpdated: Option<Date>)

  /** The first capture of `<lastBuildDate>`, `<pubDate>`, `<updated>` and
      `<dc:date>` in the body; `None` where the pattern does not match. */
  datatype Captures = Captures(
    lastBuildDate: Option<string>,
    pubDate: Option<string>,
    updated: Option<string>,
    dcDate: Option<string>)

  /** What the GET did: a response with its status (and the captures of its
      body, `None` when reading the body threw), or an exception. */
  datatype FetchOutcome =
    | Responded(status: int, captures: Option<Captures>)
    | Threw(name: string, message: string)

  /** Everything the network decides about one URL. */
  datatype Probe = Probe(
    urlError: Option<string>,      // the message `new URL(url)` threw, if it did
    fetch: FetchOutcome,
    fallbackReachable: bool)       // whether the `no-cors` retry resolved

  predicate HttpScheme(url: string) {
    StartsWith(url, "http://") || StartsWith(url, "https://")
  }

  /** `response.ok || (status >= 300 && status < 400)`. */
  predicate Accepted(status: int) {
    200 <= status < 400
  }

  function HttpError(status: int): string {
    "HTTP " + IntToString(status)
  }

  /** The date text in priority order: RSS 2.0 `lastBuildDate`, then
      `pubDate`, then Atom `updated` (section 4.2.15 of RFC 4287), then
      Dublin Core `dc:date`. */
  function DateText(c: Captures): (r: Option<string>)
    ensures Truthy(c.lastBuildDate) ==> r == c.lastBuildDate
    ensures !Truthy(c.lastBuildDate) && Truthy(c.pubDate) ==> r == c.pubDate
    ensures !Truthy(c.lastBuildDate) && !Truthy(c.pubDate) && Truthy(c.updated) ==> r == c.updated
    ensures !Truthy(c.lastBuildDate) && !Truthy(c.pubDate) && !Truthy(c.updated) ==>
              r == (if Truthy(c.dcDate) then c.dcDate else None)
  {
    var xs := [c.lastBuildDate, c.pubDate, c.updated, c.dcDate];
    if Truthy(xs[0]) then FirstTruthyAt(xs, 0); FirstTruthy(xs)
    else if Truthy(xs[1]) then FirstTruthyAt(xs, 1); FirstTruthy(xs)
    else if Truthy(xs[2]) then FirstTruthyAt(xs, 2); FirstTruthy(xs)
    else if Truthy(xs[3]) then FirstTruthyAt(xs, 3); FirstTruthy(xs)
    else FirstTruthy(xs)
  }

  /** The feed's own update time, kept only when it parses to a valid date. */
  function LastUpdated(captures: Option<Captures>, parseDate: string -> Date): (d: Option<Date>)
    ensures d.Some? ==> d.value.Time?
    ensures d.Some? ==> captures.Some? && DateText(captures.value).Some?
                        && d.value == parseDate(DateText(captures.value).value)
    ensures captures.Some? && DateText(captures.value).Some? && parseDate(DateText(captures.value).value).Time? ==>
              d == Some(parseDate(DateText(captures.value).value))
  {
    if captures.None? then None
    else
      var text := DateText(captures.value);
      if text.None? then None
      else
        var parsed := parseDate(text.value);
        if parsed.InvalidDate? then None else Some(parsed)
  }

  /** `validateRssUrl`: it never throws; every exception becomes an invalid result. */
  function ValidateRssUrl(url: string, p: Probe, parseDate: string -> Date): (r: ValidationResult)
    ensures r.isValid ==> r.error.None? && r.status.Some? && Accepted(r.status.value)
    ensures !r.isValid ==> r.error.Some? && r.lastUpdated.None?
    ensures r.lastUpdated.Some? ==> r.lastUpdated.value.Time?
    ensures p.urlError.Some? ==> r == ValidationResult(false, None, p.urlError, None)
    ensures p.urlError.None? && !HttpScheme(url) ==> r == ValidationResult(false, None, Some(InvalidProtocol), None)
    ensures p.urlError.None? && HttpScheme(url) && p.fetch.Responded? ==>
      && r.status == Some(p.fetch.status)
      && (r.isValid <==> Accepted(p.fetch.status))
      && (!r.isValid ==> r.error == Some(HttpError(p.fetch.status)))
      && (r.isValid ==> r.lastUpdated == LastUpdated(p.fetch.captures, parseDate))
    ensures p.urlError.None? && HttpScheme(url) && p.fetch.Threw? ==>
      && r.lastUpdated.None?
      && (r.isValid <==> (p.fetch.name == "TypeError" || Contains(p.fetch.message, "CORS")) && p.fallbackReachable)
    // a network or CORS failure goes to the fallback, even when it is also an abort
    ensures p.urlError.None? && HttpScheme(url) && p.fetch.Threw? &&
            (p.fetch.name == "TypeError" || Contains(p.fetch.message, "CORS")) ==>
      && r.error == (if p.fallbackReachable then None else Some(Unreachable))
      && r.status == (if p.fallbackReachable then Some(200) else None)
    // an abort reads as a timeout
    ensures p.urlError.None? && HttpScheme(url) && p.fetch.Threw? &&
            !(p.fetch.name == "TypeError" || Contains(p.fetch.message, "CORS")) && p.fetch.name == "AbortError" ==>
      r == ValidationResult(false, None, Some(Timeout), None)
    // anything else keeps its message, or reads "Network error" without one
    ensures p.urlError.None? && HttpScheme(url) && p.fetch.Threw? &&
            !(p.fetch.name == "TypeError" || Contains(p.fetch.message, "CORS")) && p.fetch.name != "AbortError" ==>
      r == ValidationResult(false, None, Some(if p.fetch.message != "" then p.fetch.message else NetworkError), None)
  {
    if p.urlError.Some? then ValidationResult(false, None, p.urlError, None)
    else if !HttpScheme(url) then ValidationResult(false, None, Some(InvalidProtocol), None)
    else
      match p.fetch
      case Responded(status, captures) =>
        if Accepted(status) then ValidationResult(true, Some(status), None, LastUpdated(captures, parseDate))
        else ValidationResult(false, Some(status), Some(HttpError(status)), None)
      case Threw(name, message) =>
        if name == "TypeError" || Contains(message, "CORS") then
          if p.fallbackReachable then ValidationResult(true, Some(200), None, None)
          else ValidationResult(false, None, Some(Unreachable), None)
        else if name == "AbortError" then ValidationResult(false, None, Some(Timeout), None)
        else ValidationResult(false, None, Some(if message != "" then message else NetworkError), None)
  }

  /** The "HTTP n" message names the status: after the prefix, the digits
      read back as `n`. */
  lemma HttpErrorNamesStatus(status: nat)
    ensures var e := HttpError(status);
            && |e| > 5 && e[..5] == "HTTP "
            && (forall i :: 5 <= i < |e| ==> '0' <= e[i] <= '9')
            && DigitsValue(e[5..]) == status
  {
    var e := HttpError(status);
    assert e[5..] == NatToString(status);
    NatToStringRoundTrip(status);
  }

  /** `validateMultipleRssUrls`: the URLs in slices of ten, each URL's result
      decided by its own probe; `order` is the completion order. */
  method ValidateMultipleRssUrls(urls: seq<string>, probes: seq<Probe>, parseDate: string -> Date, order: seq<nat>)
    returns (results: map<string, ValidationResult>, trace: seq<Batches.Event>)
    requires |probes| == |urls|
    requires Batches.RespectsChunks(order, |urls|, Concurrency)
    ensures trace == Batches.Trace(order, Concurrency, 0)
    ensures forall u :: u in results <==> u in urls
    ensures forall u :: u in results ==>
      exists k :: 0 <= k < |urls| && urls[k] == u && results[u] == ValidateRssUrl(u, probes[k], parseDate)
    ensures forall j :: 0 <= j < |urls| && Batches.LastFor(urls, order, |urls|, j) ==>
      results[urls[order[j]]] == ValidateRssUrl(urls[order[j]], probes[order[j]], parseDate)
  {
    var outcomes := seq(|urls|, k requires 0 <= k < |urls| => ValidateRssUrl(urls[k], probes[k], parseDate));
    results, trace := Batches.RunBatches(urls, Concurrency, outcomes, order);
    forall u | u in results
      ensures exists k :: 0 <= k < |urls| && urls[k] == u && results[u] == ValidateRssUrl(u, probes[k], parseDate)
    {
      var j := Batches.LastCompletion(urls, order, Concurrency, u);
      assert results[u] == outcomes[order[j]];
    }
  }
}
