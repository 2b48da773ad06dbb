/** The add-task form (src/components/TaskInput.tsx): a controlled text field and a submit
    handler that hands the trimmed title to `onAdd`, or alerts when there is none. */
module TaskInput {
  import opened Wrappers
  import opened Text

  /** What a submission hands to `onAdd`: the trimmed title, or nothing when the field is
      blank. A title handed on is never empty and never padded. */
  function Submitted(title: string): (r: Option<string>)
    ensures r.None? <==> AllSpace(title)
    ensures r.Some? ==> r.value == Trim(title) && r.value != [] && IsTrimmed(r.value)
  {
    var trimmed := Trim(title);
    if trimmed == [] then None else Some(trimmed)
  }

  /** Padding a title with white space does not change what is submitted. */
  lemma SubmittedIgnoresPadding(pre: string, t: string, post: string)
    requires AllSpace(pre) && AllSpace(post) && IsTrimmed(t) && t != []
    ensures Submitted(pre + t + post) == Some(t)
  {
    TrimRemovesPadding(pre, t, post);
  }

  class Form {
    /** The field's text. */
    var title: string
    /** The titles handed to `onAdd`, in order. */
    var added: seq<string>

    ghost predicate Valid()
      reads this
    {
      forall i :: 0 <= i < |added| ==> added[i] != [] && IsTrimmed(added[i])
    }

    constructor ()
      ensures Valid() && title == [] && added == []
    {
      title := [];
      added := [];
    }

    /** The field's `onChange`. */
    method SetTitle(text: string)
      requires Valid()
      modifies this`title
      ensures Valid() && title == text
    {
      title := text;
    }

    /** `submit`: a blank field only alerts and keeps its text; otherwise `onAdd` receives the
        trimmed title and the field is cleared. */
    method Submit() returns (alerted: bool)
      requires Valid()
      modifies this
      ensures Valid()
      ensures alerted == Submitted(old(title)).None?
      ensures alerted ==> title == old(title) && added == old(added)
      ensures !alerted ==> added == old(added) + [Submitted(old(title)).value] && title == []
    {
      var trimmed := Trim(title);
      if trimmed == [] {
        return true;
      }
      alerted := false;
      added := added + [trimmed];
      title := [];
    }
  }
}
