/** `handleAddTag` and `handleRemoveTag` of the tags editor: the tag list
    is owned by the caller (`onTagsChange`), the input text by the editor. */
module Tags {
  import opened Seqs
  import opened Text

  /** The tags shown and the text typed in the input box. */
  datatype Editor = Editor(tags: seq<string>, input: string)

  /** `handleAddTag`: the trimmed input joins the end of the list when it is
      non-blank and not yet there, and the input is cleared; otherwise
      nothing changes. */
  function AddTag(e: Editor): (r: Editor)
    ensures var t := Trim(e.input);
            && (t != "" && t !in e.tags ==> r == Editor(e.tags + [t], ""))
            && (t == "" || t in e.tags ==> r == e)
    ensures forall x :: x in r.tags <==> x in e.tags || (r != e && x == Trim(e.input))
    ensures NoDuplicates(e.tags) ==> NoDuplicates(r.tags)
  {
    var t := Trim(e.input);
    if t != "" && t !in e.tags then Editor(e.tags + [t], "") else e
  }

  /** `handleRemoveTag`: every occurrence of `x` goes, the rest keep their order. */
  function RemoveTag(tags: seq<string>, x: string): (r: seq<string>)
    ensures x !in r
    ensures forall y :: y != x ==> (y in r <==> y in tags)
    ensures Subseq(r, tags)
    ensures |r| == |tags| - multiset(tags)[x]
  {
    FilterIsSubseq(tags, (t: string) => t != x);
    RemoveCount(tags, x);
    Filter(tags, (t: string) => t != x)
  }

  lemma {:induction false} RemoveCount(tags: seq<string>, x: string)
    ensures |Filter(tags, (t: string) => t != x)| == |tags| - multiset(tags)[x]
  {
    if |tags| > 0 {
      assert tags == [tags[0]] + tags[1..];
      RemoveCount(tags[1..], x);
    }
  }

  /** Removing a tag that is not there changes nothing. */
  lemma RemoveAbsent(tags: seq<string>, x: string)
    requires x !in tags
    ensures RemoveTag(tags, x) == tags
  {
    FilterAll(tags, (t: string) => t != x);
  }

  /** Adding a new tag and then removing it gives back the original list. */
  lemma AddThenRemove(e: Editor)
    requires Trim(e.input) != "" && Trim(e.input) !in e.tags
    ensures RemoveTag(AddTag(e).tags, Trim(e.input)) == e.tags
  {
    var t := Trim(e.input);
    var p := (s: string) => s != t;
    FilterAppend(e.tags, [t], p);
    FilterAll(e.tags, p);
    assert Filter([t], p) == [];
  }

  /** A rejected add can be repeated without effect, and an accepted one
      cannot be repeated: the cleared input is blank. */
  lemma AddTwice(e: Editor)
    ensures AddTag(AddTag(e)) == AddTag(e)
  {
    var r := AddTag(e);
    if r != e {
      TrimBlank(r.input);
    }
  }
}
