# OPML Gardener — a verified model of the editor core

OPML Gardener is a browser tool for tidying RSS subscription lists. It
imports an OPML file (or its own JSON export) and flattens the outline tree
into a list of feed records. The user then edits, filters, sorts,
de-duplicates, re-categorises and validates the records, with undo and redo,
and exports them back to OPML or JSON. This project models in Dafny the pure
logic behind that editor and proves what it promises:

- **history** (`History`): the linear undo/redo history. It is capped at 50
  snapshots, and a push discards the redo future.
- **feed-list operations** (`Collection`): update, delete, toggle,
  select-all, bulk recategorise, first-wins de-duplication by `xmlUrl`, the
  search/category filter with its stable sort, and the derived categories
  and statistics.
- **OPML** (`Opml`): the flattening of the parsed outline tree, at most
  three levels deep, and the export that groups feeds by category in
  first-seen order. The round trip through the outline tree is proved.
- **XML escaping** (`XmlEscape`): the five predefined entities of section 4.6
  of XML 1.0. It is proved equal to a per-character map, free of bare
  markup, invertible, and of known length. The seven built-in test vectors
  are proved to pass.
- **JSON envelope** (`JsonCodec`): export and parse at the record level, and
  the round trip.
- **import and export entry points** (`Session`): an import either
  replaces the whole history or leaves it untouched.
- **batched probes** (`Batches`, `RssValidator`, `HealthChecker`): the
  chunked batching of `validateWithConcurrency` and `batchCheckFeeds`, with
  the progress counter, the slice barrier and the last-result-wins result
  map. Also the decision logic of `validateRssUrl` and `checkFeedHealth`:
  protocol check, status classification, error classification, date-field
  priority (RSS 2.0; Atom per sections 4.2.15 and 4.2.9 of RFC 4287), and
  `Y-MM-DD` formatting.
- **UI rule functions** (`Shortcuts`, `Tags`, `CategoryDialog`,
  `ExportPreview`, `Page`): keyboard-shortcut matching, tag add/remove,
  category-name validation, the export-preview grouping, the sort toggle,
  export confirmation, moving the selection, and file-load dispatch.

Shared vocabulary lives in `Wrappers`, `Types`, `Seqs`, `Sorting`, `Text`
and `Grouping`.

Everything outside JavaScript's pure core becomes a parameter of the model:
- the XML and JSON text parsers, `fetch`, `new URL` and `DOMParser`;
- `new Date` and `toISOString`;
- the locale functions `toLowerCase` and `localeCompare`;
- the completion order of promises, and `generateId`.

Where the code does less than its comments or names suggest, the model
follows the code:
- `parseOpml` says it flattens "recursively", but it descends only one
  level below a folder child.
- A `<body/>` with no outline reads as the empty string, which is falsy, so
  it is rejected as a missing body. An export of no feeds writes exactly
  such a body, so it would not import; both exporters refuse an empty list.
- The field called a feed URL elsewhere is `xmlUrl`, and the preserved
  attributes live in `originalData`.
- `exportOpml` orders categories by first appearance, not alphabetically.
  The export preview, by contrast, lists them sorted.
- `exportToJson` throws on an invalid `lastChecked` date.
  `exportFeedsAsJson` catches this and reports a failure.
- A push after an undo keeps only the states up to the current one:
  `[v, a, b]`, then undo, then push `c` gives `[v, a, c]`.

## Model

| member | source | states |
|---|---|---|
| History.Push | hooks/useHistory.ts:15-38 | the history stays valid; the new current snapshot is the mutator applied to the old current one; nothing is left to redo; the index becomes idx+1, or 49 when the cap is hit; the kept prefix is the old states up to idx, minus the oldest one when 51 would exist |
| History.Set | hooks/useHistory.ts:15-24 | pushing a plain value keeps the history valid, makes the value current and leaves nothing to redo; the cursor moves one on until the cap and stays at 49 from then on; the snapshots up to the old cursor are kept before the new one, less the oldest when the cap is hit |
| History.Undo | hooks/useHistory.ts:40-44 | moves the index back by one exactly when it is positive, otherwise changes nothing; the snapshots are never changed |
| History.Redo | hooks/useHistory.ts:46-50 | moves the index forward by one exactly when a later snapshot exists, otherwise changes nothing; the snapshots are never changed |
| History.Reset | hooks/useHistory.ts:52-55 | exactly one snapshot, the given value, so neither undo nor redo is possible |
| History.RedoAfterUndo | hooks/useHistory.ts:40-50 | after an undo a redo is possible and restores the history |
| History.UndoAfterRedo | hooks/useHistory.ts:40-50 | after a redo an undo is possible and restores the history |
| History.SetAllFromReset | hooks/useHistory.ts:23-36 | from a reset, any run of pushes keeps the last fifty values seen, in order, with the newest current |
| History.SixtyPushes | hooks/useHistory.ts:23-44 | sixty pushes leave fifty snapshots with the 60th value current, and 49 undos reach index 0, where undo is no longer possible |
| History.PushAfterUndoDropsFuture | hooks/useHistory.ts:22-24 | push a, push b, undo, push c leaves [v, a, c] with c current and nothing to redo |
| Collection.UpdateFeed | hooks/useOpml.ts:90-94 | same length and order; records with another id are untouched; records with the id get the patch's fields |
| Collection.DeleteFeed | hooks/useOpml.ts:97-99 | a subsequence holding exactly the records with another id, shorter by the number of records with that id |
| Collection.ToggleFeedSelection | hooks/useOpml.ts:102-108 | same length; only records with the id change, and only their isSelected flips |
| Collection.ToggleTwice | hooks/useOpml.ts:102-108 | toggling the same id twice restores the list |
| Collection.ToggleAllSelection | hooks/useOpml.ts:111-113 | every record gets isSelected = the argument and nothing else changes |
| Collection.BulkUpdateCategory | hooks/useOpml.ts:116-122 | only the category of records whose id is listed changes; unmatched ids have no effect |
| Collection.RemoveDuplicates | hooks/useOpml.ts:125-136 | a subsequence with distinct xmlUrls covering every xmlUrl of the input; each kept record is the first with its xmlUrl; the kept records follow the order in which their xmlUrls first occur; the count is old length minus new length |
| Collection.RemoveDuplicatesLoop | hooks/useOpml.ts:125-136 | the seen-set loop computes the same list and count as the keep-first definition |
| Collection.RemoveDuplicatesIdempotent | hooks/useOpml.ts:125-136 | a second call removes nothing and leaves the list unchanged |
| Collection.ComparatorConsistent | hooks/useOpml.ts:181-199 | with a consistent collation each field comparator, and its negation for desc, is a consistent comparator, and desc ties exactly where asc ties |
| Collection.FilteredFeedsSpec | hooks/useOpml.ts:167-199 | the view is a rearrangement of exactly the records matching the query (case-folded substring of title or xmlUrl, or empty query) and the category (or "all"); it is sorted, and tied records keep list order in both directions |
| Collection.DistinctCategories | hooks/useOpml.ts:205-210 | each category occurring in the list, once |
| Collection.Categories | hooks/useOpml.ts:205-210 | exactly the occurring categories, strictly increasing in the default string order |
| Collection.ComputeStats | hooks/useOpml.ts:212-219 | totalFeeds is the list length, selectedFeeds the number of selected records, categories the sorted distinct categories |
| Collection.StatsAfterToggleAll | hooks/useOpml.ts:212-219 | after select-all the selected count is the list length, after clearing it is 0 |
| Sorting.SortBySorted | hooks/useOpml.ts:181-199 | for a consistent comparator the sort output is in order |
| Sorting.SortByStable | hooks/useOpml.ts:181-199 | elements that tie with any given element keep their input order |
| Seqs.KeepFirst | hooks/useOpml.ts:125-133 | the seen-set filter keeps a subsequence with distinct keys covering every key not seen before |
| Seqs.KeepFirstInOrder | hooks/useOpml.ts:125-133 | the seen-set filter keeps records in the order in which their keys first occur in the input |
| Grouping.GroupBy | lib/opml-parser.ts:118-126 | every group is non-empty and the group names are exactly the keys that occur |
| Grouping.GroupByPartition | lib/opml-parser.ts:118-126 | the groups together hold the input, each element as often as it occurs |
| Grouping.BuildGroups | lib/opml-parser.ts:118-126 | the has/set/get/push loop builds the names in first-seen order, each mapped to its elements in input order |
| Grouping.BuildGroupsIsGroupBy | lib/opml-parser.ts:118-129 | reading the built map in insertion order gives the grouping the export writes |
| Types.FirstTruthy | lib/rss-validator.ts:49 | nothing exactly when every candidate is absent or empty; otherwise the first non-empty candidate |
| Text.Trim | components/TagsEditor.tsx:19 | the result is a slice of the input, everything cut before and after it is white space, and it has no white space at either end |
| Text.TrimBlank | components/AddCategoryDialog.tsx:32-37 | text made only of white space trims to "" |
| Text.NatToStringRoundTrip | lib/feed-health-checker.ts:135-139 | the decimal digits read back as the number |
| Text.Pad2RoundTrip | lib/feed-health-checker.ts:136-137 | a number below 100 pads to two digits that read back as the number |
| Text.LexCompareConsistent | hooks/useOpml.ts:205-210 | the default string order is a consistent comparator |
| XmlEscape.EscapeXmlIsMap | lib/xml-escape.ts:21-26 | the five chained replacements, & first, equal one left-to-right per-character entity map |
| XmlEscape.EscapeXmlSafe | lib/xml-escape.ts:21-26 | the output has no <, >, " or ', and every & begins one of the five entities |
| XmlEscape.EscapeRoundTrip | lib/xml-escape.ts:5-11 | decoding the five entities in the output gives the input back |
| XmlEscape.EscapeClean | lib/xml-escape.ts:21-26 | text without any of the five characters is returned unchanged |
| XmlEscape.EscapeLength | lib/xml-escape.ts:21-26 | the output length is the input length plus 4 per &, 3 per < or >, and 5 per " or ' |
| XmlEscape.TestXmlEscape | lib/xml-escape.ts:32-56 | no errors exactly when every case's escaping equals its expected text |
| XmlEscape.TestXmlEscapePasses | lib/xml-escape.ts:35-55 | all seven built-in vectors pass, so no error is reported |
| Opml.DeepLeaves | lib/opml-parser.ts:86-104 | a folder child contributes its direct children that have a truthy xmlUrl, in document order and with repeats, each filed under the top-level category |
| Opml.ChildFeeds | lib/opml-parser.ts:76-105 | a child with a truthy xmlUrl contributes itself; any other contributes its direct children with a truthy xmlUrl, in order |
| Opml.ChildLeaves | lib/opml-parser.ts:75-106 | the children's contributions concatenated in document order; a leaf comes from a child with a truthy xmlUrl, or from a grandchild with one under a child without it |
| Opml.TopLeaves | lib/opml-parser.ts:47-67 | a childless top outline yields one Uncategorized leaf exactly when its xmlUrl is truthy; an outline with children yields exactly its children's leaves filed under its text or "Uncategorized", never itself |
| Opml.Leaves | lib/opml-parser.ts:47-107 | the top outlines' leaves concatenated in document order; every leaf has a truthy xmlUrl and a non-empty category |
| Opml.LeavesAppend | lib/opml-parser.ts:47-107 | the leaves of two runs of top outlines are the first run's followed by the second's |
| Opml.ChildLeavesAppend | lib/opml-parser.ts:75-106 | the same for the children of one category |
| Opml.FolderFeedsImported | lib/opml-parser.ts:86-104 | feeds in a folder inside a category are imported in order under the category, not the folder |
| Opml.FourthLevelDropped | lib/opml-parser.ts:86-104 | a feed in a folder inside a folder inside a category is not imported |
| Opml.LeafTitle | lib/opml-parser.ts:77-84 | title, else text, else "Untitled"; never empty |
| Opml.ParseOpml | lib/opml-parser.ts:20-110 | unreadable text fails with the XML library's message; otherwise fails with the missing-body message exactly when there is no (non-empty) body; an empty body gives no feeds; record k is built from leaf k: fresh id, title = title or text or "Untitled", the leaf's xmlUrl, htmlUrl and category, no validity, dates or tags, unselected, and the outline kept |
| Opml.ExportCategory | lib/opml-parser.ts:121 | an empty category becomes "Uncategorized"; any other is kept |
| Opml.FeedOutline | lib/opml-parser.ts:130-139 | a feed's outline has text and title = the feed title, type "rss", its xmlUrl, its htmlUrl or "", and no children |
| Opml.ExportBodyShape | lib/opml-parser.ts:116-140 | one outline per category in first-seen order, with text = the category and, as children, that category's feeds in input order, never empty |
| Opml.ExportedLeaf | lib/opml-parser.ts:130-139 | a written feed outline is read back with title, xmlUrl, htmlUrl (or "") and category as written |
| Opml.ChildLeavesOfExport | lib/opml-parser.ts:75-85 | reading back one category's children gives its feeds that have an xmlUrl, as written |
| Opml.LeavesOfExport | lib/opml-parser.ts:47-107 | reading back the written groups gives their members with an xmlUrl, in grouped order |
| Opml.RoundTrip | lib/opml-parser.ts:20-166 | parsing the written body fails with "missing body" for an empty list and otherwise succeeds and gives back, in grouped order, every feed with an xmlUrl, with title, xmlUrl, htmlUrl and category as written |
| Opml.RoundTripTriples | lib/opml-parser.ts:20-166 | for a non-empty list of feeds with non-empty title, xmlUrl and category, the round trip succeeds and preserves the multiset of (title, xmlUrl, category); for an empty list it fails |
| JsonCodec.StampToJson | lib/json-handler.ts:19 | serialising never leaves a Date behind; text and null pass through |
| JsonCodec.ToJsonFeed | lib/json-handler.ts:13-16 | fails, with the RangeError, exactly when lastChecked is an invalid date; otherwise every other field is copied, lastUpdated goes through toJSON, lastChecked is present exactly when it was in the input, and a present one is the ISO text of its time |
| JsonCodec.ToJsonFeeds | lib/json-handler.ts:13-16 | fails exactly when some record has an invalid lastChecked; otherwise the records in order, one converted record per input |
| JsonCodec.ExportToJson | lib/json-handler.ts:9-20 | version "1.0", the given export date, and the feeds in the same order and number, with id, title, xmlUrl, htmlUrl, category, isValid, originalData, tags and selection copied, lastUpdated through toJSON, and lastChecked mapped to its ISO text or left absent; fails only on an invalid lastChecked |
| JsonCodec.FromJsonFeed | lib/json-handler.ts:30-34 | unselected; every other field copied; lastChecked is the parsed date of the text when it is non-empty and absent otherwise; lastUpdated passes through |
| JsonCodec.ParseJson | lib/json-handler.ts:22-38 | succeeds exactly for an object with a feeds array; every failure carries the "Failed to parse JSON: " prefix; the missing-array message; record i is item i unselected, with every other field copied, lastChecked parsed from non-empty text or absent, and lastUpdated as read |
| JsonCodec.FeedRoundTrip | lib/json-handler.ts:9-38 | if the ISO conversions invert each other, one record comes back unselected with lastChecked restored |
| JsonCodec.RoundTrip | lib/json-handler.ts:9-38 | if the ISO conversions invert each other and no lastChecked is invalid, parse(export(fs)) is fs in order with isSelected false; lastUpdated stays in its serialised form |
| Session.Import | hooks/useOpml.ts:26-47 | success resets the history to the parsed list with its count; failure leaves the history as it was and reports "Error: " and the message |
| Session.ImportOpml | hooks/useOpml.ts:26-35 | succeeds exactly when the text parses to a document with a body; unreadable text reports "Error: " and the parser's message, a missing body the missing-body message, both with the history unchanged; on success the history is fresh (no undo, no redo) and the count is the number of leaves |
| Session.ImportJson | hooks/useOpml.ts:38-47 | succeeds exactly for a feeds array; on failure the history is unchanged; on success the history is fresh, holds as many records as the array, all unselected |
| Session.ExportSubset | hooks/useOpml.ts:50-53 | everything, or a subsequence holding every copy of each selected record and nothing else |
| Session.ExportFeeds | hooks/useOpml.ts:50-67 | an empty subset is refused with "No feeds to export"; otherwise the outline body of the subset |
| Session.ExportFeedsAsJson | hooks/useOpml.ts:70-87 | refuses an empty subset; for an invalid lastChecked it fails with `String(error)` of the caught RangeError, "RangeError: Invalid time value"; otherwise it writes one record per feed |
| Session.JsonExportImport | hooks/useOpml.ts:38-87 | importing the JSON export resets the history to the exported subset, unselected, in order, and reports its size |
| Batches.Schedule | lib/rss-validator.ts:129-142 | the loop terminates exactly when the slice size is at least 1 or the list is empty |
| Batches.TraceStarts | lib/rss-validator.ts:129-142 | every probe is started exactly once, in input order |
| Batches.TraceFinishes | lib/rss-validator.ts:131-137 | the results are recorded in completion order, the k-th one reporting k completed out of the list length |
| Batches.ProgressCounts | lib/rss-validator.ts:126-137 | onProgress receives (1, n), (2, n), ..., (n, n), duplicates included, whatever the completion order |
| Batches.Barrier | lib/rss-validator.ts:129-142 | no probe of a slice is recorded after a probe of a later slice has started |
| Batches.RunBatches | lib/rss-validator.ts:120-145 | the loop produces the slice-by-slice trace; the result map has a key exactly for each URL; each key holds the outcome of its last completion |
| Batches.RecordSlice | lib/rss-validator.ts:131-137 | one slice's completions extend the result map and the progress events by exactly that slice |
| Batches.LastCompletion | lib/rss-validator.ts:133 | every listed URL has a completion that is the last for it |
| Batches.InputOrderRespectsChunks | lib/feed-health-checker.ts:162-174 | recording in input order keeps every completion within its own slice |
| RssValidator.DateText | lib/rss-validator.ts:44-49 | lastBuildDate, else pubDate, else updated, else dc:date, skipping empty captures |
| RssValidator.LastUpdated | lib/rss-validator.ts:39-59 | the date is reported exactly when the priority capture parses to a valid time, and then it is that parsed time |
| RssValidator.ValidateRssUrl | lib/rss-validator.ts:8-117 | invalid URL: its message; non-http(s): "Invalid URL protocol"; status in [200, 400) is valid with its date, any other is "HTTP n"; a thrown TypeError or CORS message goes to the fallback, which reports status 200 when it reaches the URL and "Cannot reach URL" otherwise; then AbortError is a timeout, then the message or "Network error"; valid exactly when the status is accepted or the fallback reached the URL |
| RssValidator.HttpErrorNamesStatus | lib/rss-validator.ts:68-72 | "HTTP " followed by digits that read back as the status |
| RssValidator.ValidateMultipleRssUrls | lib/rss-validator.ts:147-153 | slices of ten; a result for exactly the listed URLs, each the validation of one of that URL's probes; for a repeated URL the validation that completes last wins |
| HealthChecker.ExtractDate | lib/feed-health-checker.ts:91-123 | the first non-empty of channel lastBuildDate, item pubDate, feed updated, entry updated, entry published; none when all are empty |
| HealthChecker.FormatDate | lib/feed-health-checker.ts:128-143 | an unparseable text is returned unchanged; a valid date becomes year-month-day of its local calendar date |
| HealthChecker.YmdReadsBack | lib/feed-health-checker.ts:135-139 | the formatted date has two dashes; the last two digits read back as the day, the two before as the 1-based month, and the digits before the first dash as the year |
| HealthChecker.CheckFeedHealth | lib/feed-health-checker.ts:17-86 | success exactly with a date and without an error; "HTTP n", "无法获取内容", "解析错误" and "未找到日期" in their cases; a thrown error gives its message or "未知错误" |
| HealthChecker.BatchCheckFeeds | lib/feed-health-checker.ts:148-178 | slices in input order with results stored after each slice; a key for exactly the listed URLs; a later duplicate overwrites an earlier one |
| Tags.AddTag | components/TagsEditor.tsx:18-24 | the trimmed input is appended and the input cleared exactly when it is non-blank and not present; otherwise list and input are unchanged; duplicate-freedom is kept |
| Tags.RemoveTag | components/TagsEditor.tsx:33-35 | every occurrence of the tag goes, every other tag stays in order, and the length drops by its number of occurrences |
| Tags.RemoveAbsent | components/TagsEditor.tsx:33-35 | removing a tag that is not there changes nothing |
| Tags.AddThenRemove | components/TagsEditor.tsx:18-35 | adding a new tag and then removing it restores the list |
| Tags.AddTwice | components/TagsEditor.tsx:18-24 | a second add right after the first changes nothing |
| Shortcuts.FirstMatch | hooks/useKeyboardShortcuts.ts:36-48 | the first matching shortcut from a position on, or none exactly when none matches |
| Shortcuts.HandleKeyDown | hooks/useKeyboardShortcuts.ts:17-48 | nothing runs in a text field unless ctrl/meta is held with exactly "z" or "y"; otherwise the first matching shortcut runs, and none runs exactly when none matches |
| Shortcuts.MetaZRunsUndo | app/page.tsx:196-229 | with the page's shortcuts, Cmd+Z runs the ctrl-flagged undo shortcut, even in a text field |
| Shortcuts.CtrlShiftZInTextField | hooks/useKeyboardShortcuts.ts:19-34 | in an input, Ctrl+Shift with key "Z" is swallowed whatever the shortcuts |
| Shortcuts.CtrlSInTextField | app/page.tsx:196-229 | with the page's shortcuts, Ctrl+S typed in a text field runs nothing |
| Shortcuts.PlainKeysRunNothing | app/page.tsx:196-229 | every shortcut the page registers needs ctrl or meta, so a key without either runs nothing and keeps its default action |
| CategoryDialog.Submit | components/AddCategoryDialog.tsx:31-48 | the callback gets the trimmed name exactly when it is non-blank and not an existing category, and the dialog closes cleared; a blank name shows the empty-name error and a taken one the duplicate error, with no callback |
| CategoryDialog.Edit | components/AddCategoryDialog.tsx:71-74 | typing replaces the name and clears the error |
| CategoryDialog.Close | components/AddCategoryDialog.tsx:50-54 | closing leaves the dialog closed with an empty name and no error |
| CategoryDialog.ReopenAfterClose | components/AddCategoryDialog.tsx:31-54 | after a close, submitting straight away shows the empty-name error and adds nothing |
| CategoryDialog.SubmitTwice | components/AddCategoryDialog.tsx:39-47 | once a name has been added, submitting it again is refused as a duplicate |
| CategoryDialog.PaddedDuplicate | components/AddCategoryDialog.tsx:32-42 | white space around an existing name does not get past the duplicate check |
| ExportPreview.GroupedSpec | components/ExportPreviewDialog.tsx:31-40 | the group names are exactly the categories that occur, and each group holds exactly its category's feeds, as a subsequence of the list |
| ExportPreview.GroupedAsWritten | components/ExportPreviewDialog.tsx:31-40 | the plain-object loop throws exactly when some category is the name of an inherited Object.prototype member |
| ExportPreview.ConstructorCategoryThrows | components/ExportPreviewDialog.tsx:33-38 | a single feed in category "constructor" makes the preview throw |
| ExportPreview.AsWrittenFromEmpty | components/ExportPreviewDialog.tsx:31-40 | away from inherited names the loop builds exactly the intended grouping |
| ExportPreview.Sections | components/ExportPreviewDialog.tsx:42 | headings in strictly increasing default string order, exactly the occurring categories, each with its group |
| ExportPreview.SectionsPartition | components/ExportPreviewDialog.tsx:31-42 | every feed is in the section of its own category and no other; the sections hold as many feeds as the list |
| ExportPreview.Confirm | components/ExportPreviewDialog.tsx:44-47 | the callback is called once with the chosen format, and the dialog ends closed |
| Page.SortChange | app/page.tsx:184-193 | the clicked field becomes the sort field; the same field flips the direction; a new field starts ascending |
| Page.SortChangeTwice | app/page.tsx:184-193 | clicking the current header twice restores the state; clicking a new one twice sorts it descending |
| Page.ExportSubset | app/page.tsx:103-115 | all gives every feed, selected every copy of each selected feed and nothing else, as a subsequence, current the filtered view |
| Page.FileName | app/page.tsx:125-128 | "opml_export_", then the timestamp up to its first T (with no T in it), then the extension of the chosen format |
| Page.FileNameOfIso | app/page.tsx:125 | for an ISO timestamp the name carries exactly its date part |
| Page.ConfirmExport | app/page.tsx:103-134 | refused with a notice exactly when the subset is empty; a JSON export fails, with the caught RangeError in the notice, exactly when some lastChecked is invalid; otherwise a download of the right name and count whose content is the OPML body or the JSON envelope of the subset |
| Page.SelectedOpmlExport | app/page.tsx:107-127 | exporting the selection to OPML downloads the body of exactly the selected feeds, and its groups hold them all |
| Page.MoveToCategory | app/page.tsx:166-171 | nothing happens without a selection; otherwise exactly the selected ids are passed, every selected feed moves, and records with other ids are untouched |
| Page.FileLoad | app/page.tsx:89-96 | the text goes to the importer of its kind; a success notice reports the count; a failure notice reports the error and the editor is unchanged |
| Page.KindOf | components/OpmlUploader.tsx:20 | a file goes to the JSON importer exactly when its name ends in ".json", to the OPML importer otherwise |
| Page.Drop | components/OpmlUploader.tsx:33-41 | a dropped file is read exactly when its name ends in ".opml" or ".json", and then as the kind its name gives |
| Page.DroppedKinds | components/OpmlUploader.tsx:20-41 | a dropped ".opml" file goes to the OPML importer, a dropped ".json" file to the JSON importer, anything else is ignored |
| Page.FailedLoadKeepsHistory | app/page.tsx:89-96 | a JSON file without a feeds array leaves the editor, undo history included, as it was, with an error notice |

## Left out

- Downloads (the Blob and anchor code in lib/opml-parser.ts and lib/json-handler.ts) are browser I/O. Export is modelled up to the content handed to the download.
- The XML text layer (fast-xml-parser, and the OPML head with `dateCreated`) is a foreign library. The model starts from the parsed outline tree, or from the message the parser throws on text it cannot read. One child and many children both become a sequence.
- The JSON text layer (`JSON.parse`, `JSON.stringify`) is a foreign library. The model works on records. A value that parses to something other than an object or null, or an element of `feeds` that is not a feed record, is not modelled.
- Network and transport are outcomes given as data:
  - `fetch`, the abort timer, the no-cors fallback and the CORS proxy;
  - `new URL`, `DOMParser`, the selector queries and the regular-expression captures.
- Dates and clocks are parameters:
  - `new Date(text)` is a parse function;
  - `toISOString` is a function from time values to text;
  - the local calendar getters are a function;
  - the current time is ISO text.
- JsonCodec.RoundTrip: assumes the ISO conversion and the date parser invert each other on valid dates; that is a property of the platform, not of the code.
- `toLowerCase` is a per-character map given as a parameter. `localeCompare` is a parameter required to be a consistent comparator. `trim` uses the ECMAScript white-space set. Default string sort is code-point order rather than UTF-16 code-unit order.
- Shortcuts.HandleKeyDown: lower-casing is per character, so a key whose lower-case form has a different length (such as "İ") is not modelled.
- Promise interleaving is left out. The completion order inside a slice is a permutation parameter. No concurrency is modelled beyond the slice barrier.
- HealthChecker.BatchCheckFeeds: requires a limit of at least 1. With 0 the source loop never ends on a non-empty list, and `Batches.Schedule` states that divergence.
- React mechanics are left out: the stale `currentIndex` closure in `setState`, `useMemo`, render batching and the 3-second notification timer.
- `generateId` is in a file that is not part of this model. It is the parameter `freshId`, and nothing is assumed about it.
- `addCategory` is a no-op that returns success, so there is no empty-category state.
- Members that the page takes from `useOpml` but the hook does not return are left out: `validationFilter`, `bulkDeleteFeeds`, `refreshLastUpdatedDates` and the refresh progress.
- `validateRssFeeds` in hooks/useOpml.ts stamps every record with `new Date()` after validation. It is the clock plus `RssValidator.ValidateMultipleRssUrls` and is not modelled separately.
- Presentation-only components have no rules beyond trivial guards: the feed table, filter sidebar, floating bar, bulk-edit, validation and uploader dialogs, the dropdown menu, the layout, and the XML test page. The uploader's extension tests are modelled as `Page.KindOf` and `Page.Drop`.
- `defaultShortcuts` (hooks/useKeyboardShortcuts.ts:56-64) is exported but never registered; the shortcut examples use the list the page registers.
- Opml.RoundTripTriples: only for feeds whose title, xmlUrl and category are non-empty. An empty title comes back as "Untitled" and an empty category as "Uncategorized", and feeds without an xmlUrl are dropped, as `Opml.RoundTrip` states.

## Findings

| source | as written | input that shows it | evidently intended | confidence | as-written member | corrected member |
|---|---|---|---|---|---|---|
| components/ExportPreviewDialog.tsx:31-40 | feeds are grouped in a plain object, and `!groups[feed.category]` is false for names inherited from `Object.prototype`, so `push` is called on a function or on the prototype and throws a TypeError | one feed whose category is "constructor" (or "toString", "__proto__", ...) | every category gets its own group, as with the `Map` used in lib/opml-parser.ts | not executed; high, ordinary JavaScript property lookup | ExportPreview.GroupedAsWritten, ExportPreview.ConstructorCategoryThrows | ExportPreview.GroupedSpec, ExportPreview.SectionsPartition |
