/** The page-level handlers that carry rules of their own: the sort header
    toggle, the export confirmation (which subset, the empty refusal, the
    file name, the format), moving the selection to a category, and the
    dispatch of a loaded file to the right importer. Notifications are
    modelled as their message text; the download itself is left out. */
module Page {
  import opened Wrappers
  import opened Types
  import opened Seqs
  import opened Text
  import opened Grouping
  import Collection
  import Opml
  import JsonCodec
  import Session
  import ExportPreview

  /** The sort field and direction the table is currently ordered by. */
  datatype SortState = SortState(field: Collection.SortField, order: Collection.SortOrder)

  function Flip(o: Collection.SortOrder): Collection.SortOrder {
    if o == Collection.Asc then Collection.Desc else Collection.Asc
  }

  /** `handleSortChange`: the current field flips direction, another field
      starts ascending. */
  function SortChange(s: SortState, field: Collection.SortField): (r: SortState)
    ensures r.field == field
    ensures field == s.field ==> r.order != s.order
    ensures field != s.field ==> r.order == Collection.Asc
  {
    if s.field == field then s.(order := Flip(s.order)) else SortState(field, Collection.Asc)
  }

  /** Clicking the same header twice restores the order; clicking a new
      header twice sorts it descending. */
  lemma SortChangeTwice(s: SortState, field: Collection.SortField)
    ensures field == s.field ==> SortChange(SortChange(s, field), field) == s
    ensures field != s.field ==> SortChange(SortChange(s, field), field) == SortState(field, Collection.Desc)
  {
  }

  /** `exportPreviewType`. */
  datatype Scope = AllFeeds | SelectedFeeds | CurrentView

  /** `feedsToExport`: `view` is the filtered and sorted list on screen. */
  function ExportSubset(scope: Scope, all: seq<Feed>, view: seq<Feed>): (s: seq<Feed>)
    ensures scope == AllFeeds ==> s == all
    ensures scope == SelectedFeeds ==> Subseq(s, all) && forall f :: f in s <==> f in all && f.isSelected
    ensures scope == SelectedFeeds ==> forall f :: multiset(s)[f] == if f.isSelected then multiset(all)[f] else 0
    ensures scope == CurrentView ==> s == view
  {
    match scope
    case AllFeeds => all
    case SelectedFeeds =>
      FilterIsSubseq(all, Collection.IsSelected);
      forall f ensures multiset(Filter(all, Collection.IsSelected))[f] == if f.isSelected then multiset(all)[f] else 0 {
        FilterMultiplicity(all, Collection.IsSelected, f);
      }
      Filter(all, Collection.IsSelected)
    case CurrentView => view
  }

  const NothingToExport := "没有可导出的订阅源"
  const ExportFailedPrefix := "导出失败: "
  const FilePrefix := "opml_export_"

  function Extension(format: ExportPreview.Format): string {
    if format == ExportPreview.JsonFormat then ".json" else ".opml"
  }

  /** `format.toUpperCase()`. */
  function FormatName(format: ExportPreview.Format): string {
    if format == ExportPreview.JsonFormat then "JSON" else "OPML"
  }

  predicate EndsWith(s: string, suffix: string) {
    |suffix| <= |s| && s[|s| - |suffix|..] == suffix
  }

  /** `opml_export_${new Date().toISOString().split('T')[0]}` with the
      format's extension; `nowIso` is the ISO text of the clock. */
  function FileName(nowIso: string, format: ExportPreview.Format): (r: string)
    ensures StartsWith(r, FilePrefix)
    ensures EndsWith(r, Extension(format))
    ensures r == FilePrefix + BeforeFirst(nowIso, 'T') + Extension(format)
    ensures 'T' !in r[|FilePrefix|..|r| - |Extension(format)|]
  {
    var d := BeforeFirst(nowIso, 'T');
    var r := FilePrefix + d + Extension(format);
    assert r[|FilePrefix|..|r| - |Extension(format)|] == d;
    assert r[..|FilePrefix|] == FilePrefix;
    assert r[|r| - |Extension(format)|..] == Extension(format);
    r
  }

  lemma {:induction false} BeforeFirstOf(a: string, sep: char, b: string)
    requires sep !in a
    ensures BeforeFirst(a + [sep] + b, sep) == a
  {
    if |a| > 0 {
      assert (a + [sep] + b)[1..] == a[1..] + [sep] + b;
      BeforeFirstOf(a[1..], sep, b);
    }
  }

  /** For an ISO timestamp the name carries its calendar date, whatever the
      time of day. */
  lemma FileNameOfIso(date: string, time: string, format: ExportPreview.Format)
    requires 'T' !in date
    ensures FileName(date + "T" + time, format) == FilePrefix + date + Extension(format)
  {
    BeforeFirstOf(date, 'T', time);
  }

  /** What the exporter produced. */
  datatype Content = OpmlContent(body: seq<Outline>) | JsonContent(envelope: JsonCodec.Envelope)

  /** The effect of `handleConfirmExport`: nothing to export, a download
      with its success notice, or the caught exception's notice. */
  datatype ExportAction =
    | Refused(notice: string)
    | Downloaded(fileName: string, content: Content, notice: string)
    | ExportFailed(notice: string)

  function ExportedNotice(count: nat, format: ExportPreview.Format): string {
    "成功导出 " + NatToString(count) + " 个订阅源为 " + FormatName(format)
  }

  /** `handleConfirmExport`. `exportIso` is the clock as `exportToJson`
      reads it, `nameIso` as the file name reads it. */
  function ConfirmExport(scope: Scope, format: ExportPreview.Format, all: seq<Feed>, view: seq<Feed>,
                         exportIso: string, nameIso: string, iso: int -> string): (r: ExportAction)
    ensures var s := ExportSubset(scope, all, view);
            && (r.Refused? <==> s == [])
            && (r.Refused? ==> r.notice == NothingToExport)
            && (r.ExportFailed? <==> s != [] && format == ExportPreview.JsonFormat
                                     && exists f :: f in s && JsonCodec.HasInvalidCheck(f))
            && (r.ExportFailed? ==> r.notice == ExportFailedPrefix + JsonCodec.InvalidTime)
            && (r.Downloaded? ==> r.fileName == FileName(nameIso, format)
                                  && r.notice == ExportedNotice(|s|, format))
            && (r.Downloaded? && format == ExportPreview.OpmlFormat ==> r.content == OpmlContent(Opml.ExportBody(s)))
            && (r.Downloaded? && format == ExportPreview.JsonFormat ==>
                  && r.content.JsonContent?
                  && JsonCodec.ExportToJson(s, exportIso, iso) == Success(r.content.envelope)
                  && r.content.envelope.exportDate == exportIso
                  && r.content.envelope.feeds.FeedArray?
                  && |r.content.envelope.feeds.items| == |s|)
  {
    var s := ExportSubset(scope, all, view);
    if |s| == 0 then Refused(NothingToExport)
    else if format == ExportPreview.JsonFormat then
      var e := JsonCodec.ExportToJson(s, exportIso, iso);
      if e.Failure? then ExportFailed(ExportFailedPrefix + e.error)
      else Downloaded(FileName(nameIso, format), JsonContent(e.value), ExportedNotice(|s|, format))
    else Downloaded(FileName(nameIso, format), OpmlContent(Opml.ExportBody(s)), ExportedNotice(|s|, format))
  }

  /** Exporting only the selection writes exactly the selected feeds into
      the OPML body: each group holds the selected feeds of its category. */
  lemma SelectedOpmlExport(all: seq<Feed>, view: seq<Feed>, exportIso: string, nameIso: string, iso: int -> string)
    requires exists f :: f in all && f.isSelected
    ensures var r := ConfirmExport(SelectedFeeds, ExportPreview.OpmlFormat, all, view, exportIso, nameIso, iso);
            && r.Downloaded?
            && r.content == OpmlContent(Opml.ExportBody(Filter(all, Collection.IsSelected)))
            && multiset(Members(GroupBy(Filter(all, Collection.IsSelected), Opml.ExportCategory)))
               == multiset(Filter(all, Collection.IsSelected))
  {
    var s := Filter(all, Collection.IsSelected);
    assert ExportSubset(SelectedFeeds, all, view) == s;
    var f :| f in all && f.isSelected;
    assert f in s;
    var r := ConfirmExport(SelectedFeeds, ExportPreview.OpmlFormat, all, view, exportIso, nameIso, iso);
    assert !r.Refused? && !r.ExportFailed?;
    GroupByPartition(s, Opml.ExportCategory);
  }

  /** What `handleFloatingBarMoveToCategory` does: nothing without a
      selection, otherwise `bulkUpdateCategory` with the selected ids. */
  datatype Move = NoSelection | Moved(ids: seq<string>, feeds: seq<Feed>)

  function IdOf(f: Feed): string {
    f.id
  }

  function MoveToCategory(all: seq<Feed>, name: string): (r: Move)
    ensures r.NoSelection? <==> forall f :: f in all ==> !f.isSelected
    ensures r.Moved? ==> forall id :: id in r.ids <==> exists f :: f in all && f.isSelected && f.id == id
    ensures r.Moved? ==> |r.feeds| == |all|
    ensures r.Moved? ==> forall i :: 0 <= i < |all| && all[i].isSelected ==> r.feeds[i].category == name
    ensures r.Moved? ==> forall i :: 0 <= i < |all| ==> r.feeds[i].(category := all[i].category) == all[i]
    ensures r.Moved? ==> forall i :: 0 <= i < |all| && all[i].id !in r.ids ==> r.feeds[i] == all[i]
  {
    var selected := Filter(all, Collection.IsSelected);
    var ids := Map(selected, IdOf);
    if |ids| == 0 then NoSelection
    else
      forall id ensures id in ids <==> exists f :: f in all && f.isSelected && f.id == id {
        if id in ids {
          var k :| 0 <= k < |ids| && ids[k] == id;
          assert selected[k] in selected;
        }
        if exists f :: f in all && f.isSelected && f.id == id {
          var f :| f in all && f.isSelected && f.id == id;
          assert f in selected;
          var k :| 0 <= k < |selected| && selected[k] == f;
          assert ids[k] == id;
        }
      }
      assert selected[0] in selected;
      forall i | 0 <= i < |all| && all[i].isSelected ensures all[i].id in ids {
        assert all[i] in all;
      }
      Moved(ids, Collection.BulkUpdateCategory(all, ids, name))
  }

  /** The kind of a loaded file, decided by its name. */
  datatype FileKind = OpmlFile | JsonFile

  /** `file.name.endsWith('.json') ? 'json' : 'opml'`: anything that is not
      named `.json` goes to the OPML importer. */
  function KindOf(fileName: string): (k: FileKind)
    ensures k == JsonFile <==> EndsWith(fileName, ".json")
  {
    if EndsWith(fileName, ".json") then JsonFile else OpmlFile
  }

  /** `handleDrop`: a dropped file is read only when it is named `.opml` or
      `.json`; a chosen file is read whatever its name. */
  function Drop(fileName: string): (r: Option<FileKind>)
    ensures r.Some? <==> EndsWith(fileName, ".opml") || EndsWith(fileName, ".json")
    ensures r.Some? ==> r.value == KindOf(fileName)
  {
    if EndsWith(fileName, ".opml") || EndsWith(fileName, ".json") then Some(KindOf(fileName)) else None
  }

  /** A dropped `.opml` file goes to the OPML importer, a dropped `.json` file
      to the JSON importer, and nothing else is read. */
  lemma DroppedKinds(fileName: string)
    ensures EndsWith(fileName, ".opml") ==> Drop(fileName) == Some(OpmlFile)
    ensures EndsWith(fileName, ".json") ==> Drop(fileName) == Some(JsonFile)
    ensures !EndsWith(fileName, ".opml") && !EndsWith(fileName, ".json") ==> Drop(fileName).None?
  {
  }

  /** The notification shown after a load, and whether it is an error. */
  datatype Notice = Notice(message: string, isError: bool)

  /** `handleFileLoad`: the text goes to the importer of its kind; the
      editor changes only when the import succeeds. `readXml` and
      `readJson` stand for the XML and JSON text parsers. */
  function FileLoad(h: Session.Editor, content: string, kind: FileKind,
                    readXml: string -> Opml.OpmlDoc, readJson: string -> JsonCodec.JsonDoc,
                    freshId: nat -> string, parseDate: string -> Date): (r: (Session.Editor, Notice))
    ensures var out := if kind == JsonFile then Session.ImportJson(h, readJson(content), parseDate)
                       else Session.ImportOpml(h, readXml(content), freshId);
            && r.0 == out.0
            && (out.1.Done? ==> r.1 == Notice("成功导入 " + NatToString(out.1.count) + " 个订阅源", false))
            && (out.1.Failed? ==> r.1 == Notice("导入失败: " + out.1.error, true) && r.0 == h)
  {
    var out := if kind == JsonFile then Session.ImportJson(h, readJson(content), parseDate)
               else Session.ImportOpml(h, readXml(content), freshId);
    match out.1
    case Done(n) => (out.0, Notice("成功导入 " + NatToString(n) + " 个订阅源", false))
    case Failed(e) => (out.0, Notice("导入失败: " + e, true))
  }

  /** A JSON file that fails to parse leaves the editor, undo history
      included, exactly as it was. */
  lemma FailedLoadKeepsHistory(h: Session.Editor, content: string,
                               readXml: string -> Opml.OpmlDoc, readJson: string -> JsonCodec.JsonDoc,
                               freshId: nat -> string, parseDate: string -> Date)
    requires !(readJson(content).Doc? && readJson(content).data.feeds.FeedArray?)
    ensures var r := FileLoad(h, content, JsonFile, readXml, readJson, freshId, parseDate);
            r.0 == h && r.1.isError
  {
  }
}
