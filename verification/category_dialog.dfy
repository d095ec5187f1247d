/** The add-category dialog: `handleSubmit` validates the typed name against
    the existing categories; typing clears the error; closing clears both.
    `onAddCategory` is the callback the accepted name is handed to. */
module CategoryDialog {
  import opened Wrappers
  import opened Text

  const EmptyName := "分类名称不能为空"
  const DuplicateName := "该分类已存在"

  /** `open` is the `onOpenChange` state; `error` is empty when none is shown. */
  datatype Dialog = Dialog(open: bool, name: string, error: string)

  const Closed := Dialog(false, "", "")

  /** The dialog after submitting, and the argument `onAddCategory` was
      called with, if it was called. */
  datatype Submitted = Submitted(dialog: Dialog, added: Option<string>)

  /** `handleSubmit`. */
  function Submit(d: Dialog, existing: seq<string>): (r: Submitted)
    ensures r.added.Some? <==> Trim(d.name) != "" && Trim(d.name) !in existing
    ensures r.added.Some? ==> r.added.value == Trim(d.name) && r.dialog == Closed
    ensures Trim(d.name) == "" ==> r.dialog == d.(error := EmptyName)
    ensures Trim(d.name) != "" && Trim(d.name) in existing ==> r.dialog == d.(error := DuplicateName)
    ensures r.added.Some? ==> |r.added.value| > 0 && !IsJsWhitespace(r.added.value[0])
  {
    var trimmed := Trim(d.name);
    if trimmed == "" then Submitted(d.(error := EmptyName), None)
    else if trimmed in existing then Submitted(d.(error := DuplicateName), None)
    else Submitted(Closed, Some(trimmed))
  }

  /** Typing into the input replaces the name and clears the error. */
  function Edit(d: Dialog, text: string): (r: Dialog)
    ensures r.name == text && r.error == "" && r.open == d.open
  {
    d.(name := text, error := "")
  }

  /** `handleClose`: whatever was typed or shown is dropped. */
  function Close(d: Dialog): (r: Dialog)
    ensures !r.open && r.name == "" && r.error == ""
  {
    Closed
  }

  /** Reopening after a close starts from an empty name, so submitting
      straight away shows the empty-name error and adds nothing. */
  lemma ReopenAfterClose(d: Dialog, existing: seq<string>)
    ensures var again := Submit(Close(d).(open := true), existing);
            again.added.None? && again.dialog.error == EmptyName && again.dialog.open
  {
  }

  /** A name that was accepted is refused the second time, once the caller
      has added it to the existing categories. */
  lemma SubmitTwice(d: Dialog, existing: seq<string>)
    requires Submit(d, existing).added.Some?
    ensures var again := Submit(Edit(d, d.name), existing + [Submit(d, existing).added.value]);
            again.added.None? && again.dialog.error == DuplicateName
  {
    var t := Trim(d.name);
    assert t in existing + [t];
  }

  /** Surrounding white space does not defeat the duplicate check: the
      comparison is on the trimmed text. */
  lemma PaddedDuplicate(d: Dialog, existing: seq<string>, pad: string)
    requires forall i :: 0 <= i < |pad| ==> IsJsWhitespace(pad[i])
    requires d.name in existing && d.name != ""
    requires !IsJsWhitespace(d.name[0]) && !IsJsWhitespace(d.name[|d.name| - 1])
    ensures Submit(d.(name := pad + d.name + pad), existing).dialog.error == DuplicateName
  {
    TrimClean(d.name);
    TrimPadded(pad, d.name);
  }

  /** Trimming strips white-space padding on both sides of a clean word. */
  lemma TrimPadded(pad: string, w: string)
    requires forall i :: 0 <= i < |pad| ==> IsJsWhitespace(pad[i])
    requires w != "" && !IsJsWhitespace(w[0]) && !IsJsWhitespace(w[|w| - 1])
    ensures Trim(pad + w + pad) == w
  {
    var s := pad + w + pad;
    TrimStartPad(pad, w + pad);
    assert pad + (w + pad) == s;
    TrimEndPad(w, pad);
  }

  lemma {:induction false} TrimStartPad(pad: string, rest: string)
    requires forall i :: 0 <= i < |pad| ==> IsJsWhitespace(pad[i])
    requires rest != "" && !IsJsWhitespace(rest[0])
    ensures TrimStart(pad + rest) == rest
  {
    if |pad| > 0 {
      assert (pad + rest)[1..] == pad[1..] + rest;
      TrimStartPad(pad[1..], rest);
    } else {
      assert pad + rest == rest;
    }
  }

  lemma {:induction false} TrimEndPad(w: string, pad: string)
    requires forall i :: 0 <= i < |pad| ==> IsJsWhitespace(pad[i])
    requires w != "" && !IsJsWhitespace(w[|w| - 1])
    ensures TrimEnd(w + pad) == w
  {
    if |pad| > 0 {
      var last := |pad| - 1;
      assert (w + pad)[..|w + pad| - 1] == w + pad[..last];
      TrimEndPad(w, pad[..last]);
    } else {
      assert w + pad == w;
    }
  }
}
