/** The task form's state and submit logic
    (frontend/src/features/tasks/components/TaskForm.tsx). */
module TaskForm {
  import opened Wrappers
  import opened Types
  import opened Text
  import opened Seqs

  /** The form's input fields; an empty input is the empty string. */
  datatype FormFields = FormFields(
    title: string,
    description: string,
    scheduledDate: string,
    dueDate: string,
    priority: TaskPriority,
    selectedTagKeys: seq<string>)

  /** The fields a form starts with: the edited task's, or the defaults of a
      new task (empty text, the default date, medium priority, no tags). */
  function InitialFields(initialTask: Option<Task>, defaultDate: string): (f: FormFields)
    ensures initialTask.None? ==> f == FormFields("", "", defaultDate, "", Medium, [])
    ensures initialTask.Some? ==> var t := initialTask.value;
      && f.title == t.title && f.scheduledDate == t.scheduledDate
      && f.description == t.description.GetOr("") && f.dueDate == t.dueDate.GetOr("")
      && f.priority == t.priority && f.selectedTagKeys == t.tagIds
  {
    match initialTask
    case None => FormFields("", "", defaultDate, "", Medium, [])
    case Some(t) => FormFields(t.title, t.description.GetOr(""), t.scheduledDate,
                               t.dueDate.GetOr(""), t.priority, t.tagIds)
  }

  function IsNot(key: string): string -> bool {
    k => k != key
  }

  /** `handleToggleTag`: a selected key is removed (every copy of it), an
      unselected key is appended at the end. */
  function ToggleTag(selected: seq<string>, key: string): (r: seq<string>)
    ensures key in selected ==> IsSubsequence(r, selected) && forall k :: k in r <==> k in selected && k != key
    ensures key in selected ==> forall k :: multiset(r)[k] == if k == key then 0 else multiset(selected)[k]
    ensures key !in selected ==> r == selected + [key]
  {
    if key in selected then Filter(selected, IsNot(key)) else selected + [key]
  }

  /** A duplicate-free selection stays duplicate-free. */
  lemma ToggleKeepsNoDuplicates(selected: seq<string>, key: string)
    requires NoDuplicates(selected)
    ensures NoDuplicates(ToggleTag(selected, key))
  {
    if key in selected {
      SubsequenceNoDuplicates(ToggleTag(selected, key), selected);
    }
  }

  /** Toggling a key twice leaves the set of selected keys as it was, and
      for an unselected key leaves the selection exactly as it was. */
  lemma ToggleTwice(selected: seq<string>, key: string)
    ensures forall k :: k in ToggleTag(ToggleTag(selected, key), key) <==> k in selected
    ensures key !in selected ==> ToggleTag(ToggleTag(selected, key), key) == selected
  {
    if key !in selected {
      FilterConcat(selected, [key], IsNot(key));
      FilterKeepsAll(selected, IsNot(key));
    }
  }

  /** `handleSubmit`: nothing is emitted when the trimmed title is empty;
      otherwise the payload carries the trimmed title, the trimmed
      description or none when it trims to empty, the due date or none when
      empty, and the current tag selection. */
  function Submit(f: FormFields): (r: Option<FormPayload>)
    ensures r.None? <==> AllSpace(f.title)
    ensures r.Some? ==> var p := r.value;
      && p.title == Trim(f.title) && p.title != ""
      && (AllSpace(f.description) ==> p.description.None?)
      && (!AllSpace(f.description) ==> p.description == Some(Trim(f.description)))
      && (p.description.Some? ==> p.description.value == Trim(f.description) != "")
      && (f.dueDate == "" ==> p.dueDate.None?)
      && (f.dueDate != "" ==> p.dueDate == Some(f.dueDate))
      && p.scheduledDate == f.scheduledDate
      && p.priority == f.priority
      && p.tagIds == f.selectedTagKeys
  {
    var title := Trim(f.title);
    if title == "" then None
    else
      var description := Trim(f.description);
      Some(FormPayload(
        title,
        if description == "" then None else Some(description),
        f.scheduledDate,
        if f.dueDate == "" then None else Some(f.dueDate),
        f.priority,
        f.selectedTagKeys))
  }

  /** The `required` attribute of the title and scheduled-date inputs: the
      browser dispatches the form's `submit` event only when both hold a
      value. */
  predicate RequiredFilled(f: FormFields) {
    f.title != "" && f.scheduledDate != ""
  }

  /** Pressing the form's save button: while a required input is empty the
      browser blocks the event and nothing is emitted; otherwise
      `handleSubmit` decides. Nothing is emitted exactly when the date is
      cleared or the title is blank. */
  function SubmitPressed(f: FormFields): (r: Option<FormPayload>)
    ensures r.None? <==> f.scheduledDate == "" || AllSpace(f.title)
    ensures r.Some? ==> r == Submit(f) && r.value.scheduledDate != ""
  {
    if RequiredFilled(f) then Submit(f) else None
  }

  /** An emitted title and description have no surrounding white space, and
      a description, when present, is not empty. */
  lemma SubmittedTextIsTrimmed(f: FormFields, p: FormPayload)
    requires Submit(f) == Some(p)
    ensures Trim(p.title) == p.title
    ensures p.description.Some? ==> p.description.value != "" && Trim(p.description.value) == p.description.value
  {
    TrimUntrimmed(p.title);
    if p.description.Some? {
      TrimUntrimmed(p.description.value);
    }
  }

  /** Submitting an unchanged edit form sends the task's own title, date,
      priority and tags back. */
  lemma EditRoundTrip(t: Task, defaultDate: string)
    requires !AllSpace(t.title) && Trim(t.title) == t.title
    ensures var p := Submit(InitialFields(Some(t), defaultDate));
      && p.Some? && p.value.title == t.title && p.value.scheduledDate == t.scheduledDate
      && p.value.priority == t.priority && p.value.tagIds == t.tagIds
  {
  }
}
