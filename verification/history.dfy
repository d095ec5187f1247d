/** The linear undo/redo history of `useHistory`: a list of snapshots and a
    cursor, capped at fifty snapshots. */
module History {

  const MaxStates: nat := 50

  datatype History<T> = History(states: seq<T>, idx: nat)

  /** The cursor points into the list and the list respects the cap. */
  predicate Valid<T>(h: History<T>) {
    h.idx < |h.states| <= MaxStates
  }

  /** The snapshot under the cursor (`state`). */
  function Current<T>(h: History<T>): T
    requires Valid(h)
  {
    h.states[h.idx]
  }

  predicate CanUndo<T>(h: History<T>) {
    h.idx > 0
  }

  predicate CanRedo<T>(h: History<T>) {
    h.idx < |h.states| - 1
  }

  /** `setState(f)`: apply `f` to the current snapshot, drop the redo future,
      append the result and make it current, dropping the oldest snapshot
      when the list would exceed the cap. */
  function Push<T>(h: History<T>, f: T -> T): (r: History<T>)
    requires Valid(h)
    ensures Valid(r)
    ensures Current(r) == f(Current(h))
    ensures !CanRedo(r)
    ensures r.idx == if h.idx + 1 < MaxStates then h.idx + 1 else MaxStates - 1
    ensures r.states[..r.idx] == h.states[h.idx + 1 - r.idx..h.idx + 1]
  {
    var kept := h.states[..h.idx + 1] + [f(h.states[h.idx])];
    if |kept| > MaxStates then
      History(kept[1..], MaxStates - 1)
    else
      History(kept, |kept| - 1)
  }

  /** `setState(v)` with a plain value. */
  function Set<T>(h: History<T>, v: T): (r: History<T>)
    requires Valid(h)
    ensures Valid(r) && Current(r) == v && !CanRedo(r)
    ensures r.idx == if h.idx + 1 < MaxStates then h.idx + 1 else MaxStates - 1
    ensures r.states[..r.idx] == h.states[h.idx + 1 - r.idx..h.idx + 1]
  {
    Push(h, _ => v)
  }

  function Undo<T>(h: History<T>): (r: History<T>)
    requires Valid(h)
    ensures Valid(r)
    ensures r.states == h.states
    ensures CanUndo(h) ==> r.idx + 1 == h.idx
    ensures !CanUndo(h) ==> r == h
  {
    if CanUndo(h) then History(h.states, h.idx - 1) else h
  }

  function Redo<T>(h: History<T>): (r: History<T>)
    requires Valid(h)
    ensures Valid(r)
    ensures r.states == h.states
    ensures CanRedo(h) ==> r.idx == h.idx + 1
    ensures !CanRedo(h) ==> r == h
  {
    if CanRedo(h) then History(h.states, h.idx + 1) else h
  }

  /** `reset(v)`, also the initial state of the hook. */
  function Reset<T>(v: T): (r: History<T>)
    ensures Valid(r) && Current(r) == v
    ensures |r.states| == 1 && !CanUndo(r) && !CanRedo(r)
  {
    History([v], 0)
  }

  /** Undo is reversed by redo. */
  lemma RedoAfterUndo<T>(h: History<T>)
    requires Valid(h) && CanUndo(h)
    ensures CanRedo(Undo(h)) && Redo(Undo(h)) == h
  {
  }

  /** Redo is reversed by undo. */
  lemma UndoAfterRedo<T>(h: History<T>)
    requires Valid(h) && CanRedo(h)
    ensures CanUndo(Redo(h)) && Undo(Redo(h)) == h
  {
  }

  /** Pushing the plain values `vs` one after another. */
  function SetAll<T>(h: History<T>, vs: seq<T>): (r: History<T>)
    requires Valid(h)
    ensures Valid(r)
    decreases |vs|
  {
    if |vs| == 0 then h else SetAll(Set(h, vs[0]), vs[1..])
  }

  function UndoTimes<T>(h: History<T>, n: nat): (r: History<T>)
    requires Valid(h)
    ensures Valid(r)
    decreases n
  {
    if n == 0 then h else UndoTimes(Undo(h), n - 1)
  }

  /** From a fresh history, pushing values keeps the last fifty of all values
      seen, the newest one current. */
  lemma {:induction false} SetAllFromReset<T>(v: T, vs: seq<T>)
    ensures var all := [v] + vs;
            var n := if |all| < MaxStates then |all| else MaxStates;
            var r := SetAll(Reset(v), vs);
            r.states == all[|all| - n..] && r.idx == n - 1
  {
    SetAllSnoc(Reset(v), [v], vs);
  }

  /** How many of `k` values seen the capped history retains. */
  function Window(k: nat): nat {
    if k < MaxStates then k else MaxStates
  }

  /** `h` holds the last `Window(|past|)` values of `past`, the newest current. */
  ghost predicate Keeps<T>(h: History<T>, past: seq<T>) {
    && |past| >= 1
    && Valid(h)
    && h.states == past[|past| - Window(|past|)..]
    && h.idx == Window(|past|) - 1
  }

  lemma SetStep<T>(h: History<T>, past: seq<T>, x: T)
    requires Keeps(h, past)
    ensures Keeps(Set(h, x), past + [x])
  {
    var n := Window(|past|);
    var past' := past + [x];
    assert h.states[..h.idx + 1] == h.states;
    var kept := h.states + [x];
    assert kept == past'[|past'| - (n + 1)..];
    if |kept| > MaxStates {
      assert kept[1..] == past'[|past'| - MaxStates..];
    }
  }

  lemma {:induction false} SetAllSnoc<T>(h: History<T>, past: seq<T>, vs: seq<T>)
    requires Keeps(h, past)
    ensures Keeps(SetAll(h, vs), past + vs)
    decreases |vs|
  {
    if |vs| == 0 {
      assert past + vs == past;
    } else {
      var h' := Set(h, vs[0]);
      assert SetAll(h, vs) == SetAll(h', vs[1..]);
      SetStep(h, past, vs[0]);
      SetAllSnoc(h', past + [vs[0]], vs[1..]);
      assert past + [vs[0]] + vs[1..] == past + vs;
    }
  }

  lemma {:induction false} UndoTimesIndex<T>(h: History<T>, n: nat)
    requires Valid(h) && n <= h.idx
    ensures UndoTimes(h, n) == History(h.states, h.idx - n)
    decreases n
  {
    if n > 0 {
      UndoTimesIndex(Undo(h), n - 1);
    }
  }

  /** Sixty pushes leave fifty snapshots with the sixtieth value current, and
      forty-nine undos reach the oldest retained snapshot. */
  lemma SixtyPushes<T>(v: T, vs: seq<T>)
    requires |vs| == 60
    ensures var r := SetAll(Reset(v), vs);
            && |r.states| == 50 && Current(r) == vs[59]
            && UndoTimes(r, 49).idx == 0
            && Current(UndoTimes(r, 49)) == vs[10]
            && !CanUndo(UndoTimes(r, 49))
  {
    SetAllFromReset(v, vs);
    var r := SetAll(Reset(v), vs);
    UndoTimesIndex(r, 49);
  }

  /** After push, push, undo, push the discarded snapshot is gone: redo does
      nothing and three snapshots remain. */
  lemma PushAfterUndoDropsFuture<T>(v: T, a: T, b: T, c: T)
    ensures var h := Set(Undo(Set(Set(Reset(v), a), b)), c);
            && h.states == [v, a, c] && Current(h) == c
            && !CanRedo(h) && Redo(h) == h
  {
    var h1 := Set(Reset(v), a);
    assert h1 == History([v, a], 1);
    var h2 := Set(h1, b);
    assert h2 == History([v, a, b], 2);
    var h3 := Undo(h2);
    assert h3 == History([v, a, b], 1);
    assert Set(h3, c) == History([v, a, c], 2);
  }
}
