/** The matching rule of `useKeyboardShortcuts`: which registered shortcut,
    if any, a `keydown` event runs. The handler itself is left abstract: the
    result is the position of the shortcut whose handler runs, and the
    default action is prevented exactly when there is one. */
module Shortcuts {
  import opened Wrappers
  import opened Text

  /** A `KeyboardShortcut`; an absent flag reads as `false`. */
  datatype Shortcut = Shortcut(key: string, ctrl: bool, meta: bool, shift: bool, alt: bool)

  /** The element the event was dispatched to. */
  datatype Target = Target(tagName: string, isContentEditable: bool)

  datatype KeyEvent = KeyEvent(key: string, ctrlKey: bool, metaKey: bool, shiftKey: bool, altKey: bool, target: Target)

  /** The user is typing into a text field. */
  predicate InTextField(t: Target) {
    t.tagName == "INPUT" || t.tagName == "TEXTAREA" || t.isContentEditable
  }

  /** Inside a text field only ctrl/meta with exactly `z` or `y` gets through. */
  predicate Suppressed(ev: KeyEvent) {
    InTextField(ev.target) && !((ev.ctrlKey || ev.metaKey) && (ev.key == "z" || ev.key == "y"))
  }

  /** One shortcut against one event: the ctrl flag is satisfied by either
      ctrl or meta, shift and alt must agree exactly, and key names are
      compared after lower-casing. */
  predicate Matches(s: Shortcut, ev: KeyEvent, lower: char -> char) {
    && (s.ctrl ==> ev.ctrlKey || ev.metaKey)
    && (s.meta ==> ev.metaKey)
    && (s.shift <==> ev.shiftKey)
    && (s.alt <==> ev.altKey)
    && Lower(ev.key, lower) == Lower(s.key, lower)
  }

  /** The `for ... of` loop with `break`: the first matching shortcut at or after `from`. */
  function FirstMatch(ss: seq<Shortcut>, ev: KeyEvent, lower: char -> char, from: nat): (r: Option<nat>)
    requires from <= |ss|
    ensures r.Some? ==> from <= r.value < |ss| && Matches(ss[r.value], ev, lower)
    ensures r.Some? ==> forall j :: from <= j < r.value ==> !Matches(ss[j], ev, lower)
    ensures r.None? <==> forall j :: from <= j < |ss| ==> !Matches(ss[j], ev, lower)
    decreases |ss| - from
  {
    if from == |ss| then None
    else if Matches(ss[from], ev, lower) then Some(from)
    else FirstMatch(ss, ev, lower, from + 1)
  }

  /** `handleKeyDown`: the position of the one handler that runs, if any. */
  function HandleKeyDown(ss: seq<Shortcut>, ev: KeyEvent, lower: char -> char): (r: Option<nat>)
    ensures Suppressed(ev) ==> r.None?
    ensures r.Some? ==> r.value < |ss| && Matches(ss[r.value], ev, lower)
    ensures r.Some? ==> forall j :: 0 <= j < r.value ==> !Matches(ss[j], ev, lower)
    ensures !Suppressed(ev) ==> (r.None? <==> forall j :: 0 <= j < |ss| ==> !Matches(ss[j], ev, lower))
  {
    if Suppressed(ev) then None else FirstMatch(ss, ev, lower, 0)
  }

  /** Whether `preventDefault` is called. */
  predicate PreventsDefault(ss: seq<Shortcut>, ev: KeyEvent, lower: char -> char) {
    HandleKeyDown(ss, ev, lower).Some?
  }

  /** The list the page registers, in order: undo, redo, export all, select all. */
  const PageShortcuts: seq<Shortcut> := [
    Shortcut("z", true, false, false, false),
    Shortcut("y", true, false, false, false),
    Shortcut("s", true, false, false, false),
    Shortcut("a", true, false, false, false)
  ]

  /** Cmd+Z on a Mac runs undo from anywhere, a text field included: the
      ctrl flag is met by the meta key. */
  lemma MetaZRunsUndo(t: Target, lower: char -> char)
    requires lower('z') == 'z'
    ensures HandleKeyDown(PageShortcuts, KeyEvent("z", false, true, false, false, t), lower) == Some(0)
  {
    var ev := KeyEvent("z", false, true, false, false, t);
    assert Lower("z", lower) == ['z'];
    assert Matches(PageShortcuts[0], ev, lower);
  }

  /** In a text field Ctrl+Shift+Z is swallowed: with shift held the key is
      `"Z"`, which the case-sensitive text-field rule does not let through. */
  lemma CtrlShiftZInTextField(ss: seq<Shortcut>, lower: char -> char)
    ensures HandleKeyDown(ss, KeyEvent("Z", true, false, true, false, Target("INPUT", false)), lower).None?
  {
    assert "Z" != "z" && "Z" != "y";
  }

  /** Ctrl+S while typing in a text field does not export: only `z` and `y`
      get through there. */
  lemma CtrlSInTextField(t: Target, lower: char -> char)
    requires InTextField(t)
    ensures HandleKeyDown(PageShortcuts, KeyEvent("s", true, false, false, false, t), lower).None?
  {
  }

  /** Every shortcut the page registers needs ctrl or meta, so a key pressed
      without either runs nothing and keeps its default action. */
  lemma PlainKeysRunNothing(key: string, shift: bool, alt: bool, t: Target, lower: char -> char)
    ensures !PreventsDefault(PageShortcuts, KeyEvent(key, false, false, shift, alt, t), lower)
  {
    var ev := KeyEvent(key, false, false, shift, alt, t);
    assert forall j :: 0 <= j < |PageShortcuts| ==> !Matches(PageShortcuts[j], ev, lower);
  }
}
