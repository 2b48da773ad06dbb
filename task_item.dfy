/** The inline edit session of the first `TaskItem` component (src/components/TaskItem.tsx):
    `startEdit`, `save` with its `savingRef` lock, `cancel` and the key handler. The `save` that
    awaits a confirmation is split at the `await`: `Save` runs up to the prompt, and `Answer` is
    the continuation that receives the user's answer. Alerts are reported, not shown. */
module TaskItem {
  import opened Wrappers
  import opened Text
  import opened Types

  /** Where a call of `save` stops before any confirmation. */
  datatype SaveStep =
    | Ignored                 // another save holds the lock
    | EmptyTitle              // the draft trims to nothing: alert, stay in editing mode
    | Unchanged               // the trimmed draft is the current title: leave editing mode
    | Confirming(next: string) // the lock is taken and the edit awaits confirmation

  /** The decision `save` takes from the lock, the draft and the current title. */
  function SaveStepFor(saving: bool, draft: string, title: string): (s: SaveStep)
    ensures s == Ignored <==> saving
    ensures s == EmptyTitle <==> !saving && IsBlank(draft)
    ensures s == Unchanged <==> !saving && !IsBlank(draft) && Trim(draft) == title
    ensures s.Confirming? ==> s.next == Trim(draft) && s.next != [] && IsTrimmed(s.next) && s.next != title
  {
    if saving then Ignored
    else
      var next := Trim(draft);
      if next == [] then EmptyTitle
      else if next == title then Unchanged
      else Confirming(next)
  }

  class EditSession {
    /** The `task` prop and whether an `onEdit` callback was passed (`safeOnEdit` does nothing
        otherwise). */
    const task: Task
    const hasOnEdit: bool
    var isEditing: bool
    var draft: string
    /** `savingRef.current` */
    var saving: bool
    /** The trimmed title a suspended `save` is asking to confirm. */
    var pending: Option<string>
    /** The calls made to `onEdit`, in order. */
    var edits: seq<(TaskId, string)>

    ghost predicate Valid()
      reads this
    {
      && (saving <==> pending.Some?)
      && (pending.Some? ==> pending.value != [] && IsTrimmed(pending.value) && pending.value != task.title)
      && forall i :: 0 <= i < |edits| ==>
           edits[i].0 == task.id && edits[i].1 != [] && IsTrimmed(edits[i].1) && edits[i].1 != task.title
    }

    constructor (task: Task, hasOnEdit: bool)
      ensures Valid() && this.task == task && this.hasOnEdit == hasOnEdit
      ensures !isEditing && draft == task.title && !saving && edits == []
    {
      this.task := task;
      this.hasOnEdit := hasOnEdit;
      isEditing := false;
      draft := task.title;
      saving := false;
      pending := None;
      edits := [];
    }

    /** `startEdit`: a completed task only gets an alert; otherwise the draft is reset to the
        title and editing starts. */
    method StartEdit() returns (alerted: bool)
      requires Valid()
      modifies this`isEditing, this`draft
      ensures Valid()
      ensures alerted == task.completed
      ensures alerted ==> isEditing == old(isEditing) && draft == old(draft)
      ensures !alerted ==> isEditing && draft == task.title
    {
      if task.completed {
        return true;
      }
      alerted := false;
      draft := task.title;
      isEditing := true;
    }

    /** The input's `onChange`. */
    method SetDraft(text: string)
      requires Valid()
      modifies this`draft
      ensures Valid()
      ensures draft == text
    {
      draft := text;
    }

    /** `save` up to its confirmation prompt. Nothing happens under the lock; a blank draft
        only alerts; an unchanged title ends editing without a prompt; otherwise the lock is
        taken and the trimmed title awaits confirmation. `onEdit` is not called here. */
    method Save() returns (step: SaveStep)
      requires Valid()
      modifies this`isEditing, this`saving, this`pending
      ensures Valid()
      ensures step == SaveStepFor(old(saving), draft, task.title)
      ensures step.Confirming? ==> saving && pending == Some(step.next) && isEditing == old(isEditing)
      ensures step == Unchanged ==> !isEditing && saving == old(saving) && pending == old(pending)
      ensures step == Ignored || step == EmptyTitle ==>
        isEditing == old(isEditing) && saving == old(saving) && pending == old(pending)
    {
      if saving {
        return Ignored;
      }
      var next := Trim(draft);
      if next == [] {
        return EmptyTitle;
      }
      if next == task.title {
        isEditing := false;
        return Unchanged;
      }
      saving := true;
      pending := Some(next);
      step := Confirming(next);
    }

    /** The rest of `save` once the prompt is answered: a confirmed edit calls `onEdit` once
        with the task's id and the trimmed title and ends editing; a declined one does
        neither. The lock is released on both paths. */
    method Answer(ok: bool)
      requires Valid() && pending.Some?
      modifies this`isEditing, this`saving, this`pending, this`edits
      ensures Valid() && !saving && pending.None?
      ensures ok ==> !isEditing && edits == old(edits) + (if hasOnEdit then [(task.id, old(pending).value)] else [])
      ensures !ok ==> isEditing == old(isEditing) && edits == old(edits)
    {
      var next := pending.value;
      if ok {
        if hasOnEdit {
          edits := edits + [(task.id, next)];
        }
        isEditing := false;
      }
      // the `finally` block
      saving := false;
      pending := None;
    }

    /** `cancel`: leave editing mode and reset the draft. */
    method Cancel()
      requires Valid()
      modifies this`isEditing, this`draft
      ensures Valid()
      ensures !isEditing && draft == task.title
    {
      isEditing := false;
      draft := task.title;
    }

    /** `onKeyDown`: Enter saves, Escape cancels, other keys do nothing. */
    method OnKeyDown(key: string) returns (step: Option<SaveStep>)
      requires Valid()
      modifies this`isEditing, this`draft, this`saving, this`pending
      ensures Valid() && edits == old(edits)
      ensures key == "Enter" ==> step == Some(SaveStepFor(old(saving), old(draft), task.title)) && draft == old(draft)
      ensures key == "Enter" && step.value.Confirming? ==>
        saving && pending == Some(step.value.next) && isEditing == old(isEditing)
      ensures key == "Enter" && step.value == Unchanged ==>
        !isEditing && saving == old(saving) && pending == old(pending)
      ensures key == "Enter" && (step.value == Ignored || step.value == EmptyTitle) ==> unchanged(this)
      ensures key == "Escape" ==> step.None? && !isEditing && draft == task.title
      ensures key == "Escape" ==> saving == old(saving) && pending == old(pending)
      ensures key != "Enter" && key != "Escape" ==> step.None? && unchanged(this)
    {
      step := None;
      if key == "Enter" {
        var s := Save();
        step := Some(s);
      }
      if key == "Escape" {
        Cancel();
      }
    }
  }

  /** Pressing Enter twice before the first prompt is answered: the first press takes the
      lock and asks to confirm the trimmed draft, the second finds the lock taken. */
  method EnterTwice(s: EditSession) returns (first: Option<SaveStep>, second: Option<SaveStep>)
    requires s.Valid() && !s.saving && Trim(s.draft) != [] && Trim(s.draft) != s.task.title
    modifies s
    ensures s.Valid() && s.saving && s.pending == Some(Trim(s.draft))
    ensures s.draft == old(s.draft) && s.edits == old(s.edits)
    ensures first == Some(Confirming(Trim(s.draft))) && second == Some(Ignored)
  {
    first := s.OnKeyDown("Enter");
    second := s.OnKeyDown("Enter");
  }

  /** Editing a task and pressing Enter twice calls `onEdit` once, after the one answer. */
  method DoubleEnterSavesOnce(task: Task, text: string) returns (s: EditSession)
    requires !task.completed && Trim(text) != [] && Trim(text) != task.title
    ensures s.Valid() && s.edits == [(task.id, Trim(text))] && !s.saving && !s.isEditing
  {
    s := new EditSession(task, true);
    var started := s.StartEdit();
    s.SetDraft(text);
    assert s.draft == text && s.edits == [] && !s.saving;
    var first, second := EnterTwice(s);
    assert s.pending == Some(Trim(text)) && s.edits == [];
    s.Answer(true);
  }
}
